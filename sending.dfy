/** The outbound half of both clients: SendHeaders, SendMultiPart,
    SendMultiPartEnd, sendChunk, sendChunkEnd and checkConnection. The two
    client packages carry the same code, modelled once here. Every method writes
    the frame Framing defines, one connection write per piece, and returns at
    the first write that fails; what is on the wire then is a prefix of that
    frame. */
module Sending {
  import opened Strings
  import opened Strconv
  import opened Framing
  import opened Transport

  /** The sending fields of HttpV2Client: Path, boundary and TcpConn, which is
      null until Connect succeeds. */
  class Sender {
    var path: string
    var boundary: string
    var tcpConn: Conn?

    constructor (path: string, boundary: string, tcpConn: Conn?)
      ensures this.path == path && this.boundary == boundary && this.tcpConn == tcpConn
    {
      this.path := path;
      this.boundary := boundary;
      this.tcpConn := tcpConn;
    }

    /** checkConnection: an error exactly when Connect has not set TcpConn. */
    method CheckConnection() returns (err: bool)
      ensures err <==> tcpConn == null
    {
      err := tcpConn == null;
    }

    /** SendHeaders: the request line, each header line and the blank line. */
    method SendHeaders(headers: seq<string>) returns (err: bool)
      modifies tcpConn
      ensures tcpConn == null ==> err
      ensures tcpConn != null ==> tcpConn.incoming == old(tcpConn.incoming)
      ensures tcpConn != null ==> Appended(old(tcpConn.written), tcpConn.written, RequestHead(path, headers))
      ensures tcpConn != null && !err ==> tcpConn.written == old(tcpConn.written) + RequestHead(path, headers)
    {
      err := CheckConnection();
      if err {
        return;
      }
      var conn := tcpConn;
      ghost var frame := RequestHead(path, headers);
      ghost var w0 := conn.written;
      var line := RequestLine(path);
      var ok := conn.Write(line);
      if !ok {
        AppendedStep(w0, w0 + [], conn.written, [], line, frame);
        return true;
      }
      var i := 0;
      while i < |headers|
        invariant 0 <= i <= |headers|
        invariant conn.incoming == old(conn.incoming)
        invariant conn.written == w0 + line + LineBlock(headers[..i])
      {
        ghost var mid := conn.written;
        ok := conn.Write(headers[i] + CRLF);
        if !ok {
          HeaderWriteFailed(path, headers, i, w0, mid, conn.written);
          return true;
        }
        assert headers[..i + 1][..i] == headers[..i];
        i := i + 1;
      }
      assert headers[..i] == headers;
      ghost var mid := conn.written;
      ok := conn.Write(CRLF);
      AppendedStep(w0, mid, conn.written, line + LineBlock(headers), CRLF, frame);
      err := !ok;
    }

    /** SendMultiPart: the segment is assembled in a memory buffer (whose writes
        cannot fail) and sent as one chunk. */
    method SendMultiPart(parameters: seq<string>, body: string) returns (err: bool)
      modifies tcpConn
      ensures tcpConn == null ==> err
      ensures tcpConn != null ==> tcpConn.incoming == old(tcpConn.incoming)
      ensures tcpConn != null ==>
        Appended(old(tcpConn.written), tcpConn.written, ChunkFrame(MultiPartPayload(boundary, parameters, body)))
      ensures tcpConn != null && !err ==>
        tcpConn.written == old(tcpConn.written) + ChunkFrame(MultiPartPayload(boundary, parameters, body))
    {
      err := CheckConnection();
      if err {
        return;
      }
      var buf := CRLF + "--" + boundary + CRLF;
      var i := 0;
      while i < |parameters|
        invariant 0 <= i <= |parameters|
        invariant buf == CRLF + "--" + boundary + CRLF + LineBlock(parameters[..i])
      {
        assert parameters[..i + 1][..i] == parameters[..i];
        buf := buf + parameters[i] + CRLF;
        i := i + 1;
      }
      assert parameters[..i] == parameters;
      buf := buf + CRLF;
      buf := buf + body;
      err := SendChunk(buf);
    }

    /** SendMultiPartEnd: the closing delimiter as a chunk, then the zero chunk. */
    method SendMultiPartEnd() returns (err: bool)
      modifies tcpConn
      ensures tcpConn == null ==> err
      ensures tcpConn != null ==> tcpConn.incoming == old(tcpConn.incoming)
      ensures tcpConn != null ==>
        Appended(old(tcpConn.written), tcpConn.written, ChunkFrame(MultiPartEndPayload(boundary)) + ChunkEnd)
      ensures tcpConn != null && !err ==>
        tcpConn.written == old(tcpConn.written) + ChunkFrame(MultiPartEndPayload(boundary)) + ChunkEnd
    {
      err := CheckConnection();
      if err {
        return;
      }
      ghost var frame := ChunkFrame(MultiPartEndPayload(boundary)) + ChunkEnd;
      ghost var w0 := tcpConn.written;
      err := SendChunk(CRLF + "--" + boundary + "--" + CRLF);
      if err {
        AppendedWeaken(w0, tcpConn.written, ChunkFrame(MultiPartEndPayload(boundary)), ChunkEnd);
        return;
      }
      ghost var mid := tcpConn.written;
      err := SendChunkEnd();
      AppendedStep(w0, mid, tcpConn.written, ChunkFrame(MultiPartEndPayload(boundary)), ChunkEnd, frame);
    }

    /** sendChunk: size line, CRLF, payload, CRLF, as four writes. Only called
        after checkConnection succeeded. */
    method SendChunk(body: string) returns (err: bool)
      requires tcpConn != null
      modifies tcpConn
      ensures tcpConn.incoming == old(tcpConn.incoming)
      ensures Appended(old(tcpConn.written), tcpConn.written, ChunkFrame(body))
      ensures !err ==> tcpConn.written == old(tcpConn.written) + ChunkFrame(body)
    {
      var conn := tcpConn;
      ghost var frame := ChunkFrame(body);
      ghost var w0 := conn.written;
      var size := FormatHex(|body|);
      var ok := conn.Write(size);
      if !ok {
        AppendedStep(w0, w0 + [], conn.written, [], size, frame);
        return true;
      }
      ghost var w1 := conn.written;
      ok := conn.Write(CRLF);
      if !ok {
        AppendedStep(w0, w1, conn.written, size, CRLF, frame);
        return true;
      }
      ghost var w2 := conn.written;
      ok := conn.Write(body);
      if !ok {
        AppendedStep(w0, w2, conn.written, size + CRLF, body, frame);
        return true;
      }
      ghost var w3 := conn.written;
      ok := conn.Write(CRLF);
      AppendedStep(w0, w3, conn.written, size + CRLF + body, CRLF, frame);
      err := !ok;
    }

    /** sendChunkEnd: the zero-size chunk in one write. */
    method SendChunkEnd() returns (err: bool)
      requires tcpConn != null
      modifies tcpConn
      ensures tcpConn.incoming == old(tcpConn.incoming)
      ensures Appended(old(tcpConn.written), tcpConn.written, ChunkEnd)
      ensures !err ==> tcpConn.written == old(tcpConn.written) + ChunkEnd
    {
      var ok := tcpConn.Write("0" + CRLF + CRLF);
      err := !ok;
    }
  }

  /** A prefix of `rest` stays a prefix once `head` is put before both and
      `tail` after `rest`. */
  lemma {:induction false} PrefixAfter(head: string, p: string, rest: string, tail: string)
    requires HasPrefix(rest, p)
    ensures HasPrefix(head + rest + tail, head + p)
  {
    assert (head + rest + tail)[..|head + p|] == head + rest[..|p|];
  }

  /** A write of header line i that fails part-way leaves a prefix of the
      whole request head after what was there before. */
  lemma {:induction false} HeaderWriteFailed(path: string, headers: seq<string>, i: nat,
                                             w0: string, mid: string, after: string)
    requires i < |headers|
    requires mid == w0 + RequestLine(path) + LineBlock(headers[..i])
    requires Appended(mid, after, headers[i] + CRLF)
    ensures Appended(w0, after, RequestHead(path, headers))
  {
    var line := RequestLine(path);
    LineBlockPrefix(headers, i);
    PrefixAfter(line, LineBlock(headers[..i]) + headers[i] + CRLF, LineBlock(headers), CRLF);
    assert line + (LineBlock(headers[..i]) + headers[i] + CRLF) == line + LineBlock(headers[..i]) + (headers[i] + CRLF);
    AppendedStep(w0, mid, after, line + LineBlock(headers[..i]), headers[i] + CRLF, RequestHead(path, headers));
  }

  /** A prefix of a frame is a prefix of anything the frame starts. */
  lemma {:induction false} AppendedWeaken(before: string, after: string, frame: string, more: string)
    requires Appended(before, after, frame)
    ensures Appended(before, after, frame + more)
  {
    var t := after[|before|..];
    assert (frame + more)[..|t|] == frame[..|t|];
  }
}
