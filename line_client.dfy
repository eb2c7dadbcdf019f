/** The older, line-based receiver of client/http_v2_client.go. ReceiveChunk
    cuts the received bytes at every CR and classifies the lines: a first line
    starting with HTTP/1.1 opens the response header, which runs up to a blank
    line; any other first line is a chunk-size line, after which lines are
    collected until their lengths reach the size plus 2. */
module LineClient {
  import opened Strings
  import opened Strconv
  import opened Framing
  import opened Transport

  /** removeCRLF: the line without any CR or LF, the other bytes in order. */
  function StripLineEnds(line: string): (r: string)
    ensures NoLineEnd(r) && |r| <= |line|
    decreases |line|
  {
    if line == [] then []
    else
      var last := line[|line| - 1];
      StripLineEnds(line[..|line| - 1]) + if IsLineEnd(last) then [] else [last]
  }

  /** removeCRLF, the byte loop. */
  method RemoveCRLF(line: string) returns (temp: string)
    ensures temp == StripLineEnds(line)
  {
    temp := [];
    for i := 0 to |line|
      invariant temp == StripLineEnds(line[..i])
    {
      assert line[..i + 1][..i] == line[..i];
      var v := line[i];
      if v != LF && v != CR {
        temp := temp + [v];
      }
    }
    assert line[..|line|] == line;
  }

  /** removeCRLF works byte by byte: it distributes over concatenation. */
  lemma {:induction false} StripLineEndsAppend(a: string, b: string)
    ensures StripLineEnds(a + b) == StripLineEnds(a) + StripLineEnds(b)
    decreases |b|
  {
    if b == [] {
      assert a + b == a;
    } else {
      assert (a + b)[..|a + b| - 1] == a + b[..|b| - 1];
      StripLineEndsAppend(a, b[..|b| - 1]);
    }
  }

  /** A CR or LF is dropped, any other byte kept. */
  lemma {:induction false} StripLineEndsByte(c: char)
    ensures StripLineEnds([c]) == if IsLineEnd(c) then [] else [c]
  {
    assert [c][..0] == [];
  }

  /** A line with no CR or LF is left as it is. */
  lemma {:induction false} StripLineEndsKeeps(line: string)
    requires NoLineEnd(line)
    ensures StripLineEnds(line) == line
    decreases |line|
  {
    if line != [] {
      StripLineEndsKeeps(line[..|line| - 1]);
    }
  }

  /** removeCRLF is idempotent. */
  lemma {:induction false} StripLineEndsIdempotent(line: string)
    ensures StripLineEnds(StripLineEnds(line)) == StripLineEnds(line)
  {
    StripLineEndsKeeps(StripLineEnds(line));
  }

  /** Exactly the CR and LF bytes go: the line is as long as what is kept plus
      the number of line ends. */
  lemma {:induction false} StripLineEndsLength(line: string)
    ensures |StripLineEnds(line)| + LineEndCount(line) == |line|
    decreases |line|
  {
    if line != [] {
      StripLineEndsLength(line[..|line| - 1]);
    }
  }

  function LineEndCount(s: string): nat
    decreases |s|
  {
    if s == [] then 0 else LineEndCount(s[..|s| - 1]) + if IsLineEnd(s[|s| - 1]) then 1 else 0
  }

  /** IsBlankLine: a lone CR or LF, or the two in either order. */
  function IsBlankLine(line: string): (blank: bool)
    ensures blank <==> line in {[CR], [LF], [LF, CR], [CR, LF]}
  {
    if |line| == 1 && (line[0] == LF || line[0] == CR) then assert line == [line[0]]; true
    else if |line| == 2 && line[0] == LF && line[1] == CR then assert line == [LF, CR]; true
    else if |line| == 2 && line[0] == CR && line[1] == LF then assert line == [CR, LF]; true
    else false
  }

  /** What ReceiveChunk returns: its msgType with the data that goes with it. */
  datatype Message = Headers(data: string) | ChunkData(data: string) | End | NoMessage

  /** bytes.Buffer.ReadBytes(0x0D): the bytes up to and including the first
      CR, or all of them and io.EOF when there is none. */
  datatype Cut = Cut(line: string, rest: string, eof: bool)

  function ReadBytes(buf: string): (r: Cut)
    ensures r.line + r.rest == buf
    ensures r.eof ==> r.rest == []
    ensures !r.eof ==> r.line != []
    decreases |buf|
  {
    if buf == [] then Cut([], [], true)
    else if buf[0] == CR then Cut([CR], buf[1..], false)
    else
      var r := ReadBytes(buf[1..]);
      Cut([buf[0]] + r.line, r.rest, r.eof)
  }

  /** ReadBytes stops at the first CR, and reports io.EOF exactly when there
      is none. */
  lemma {:induction false} ReadBytesFirstCR(buf: string)
    ensures ReadBytes(buf).eof <==> forall j :: 0 <= j < |buf| ==> buf[j] != CR
    ensures !ReadBytes(buf).eof ==> CRLine(ReadBytes(buf).line)
    decreases |buf|
  {
    if buf != [] && buf[0] != CR {
      ReadBytesFirstCR(buf[1..]);
      var r := ReadBytes(buf[1..]);
      if r.eof {
        assert forall j :: 1 <= j < |buf| ==> buf[j] == buf[1..][j - 1];
      } else {
        assert buf[1..][|r.line| - 1] == CR;
        var line := [buf[0]] + r.line;
        assert forall j :: 1 <= j < |line| ==> line[j] == r.line[j - 1];
      }
    }
  }

  /** A Go int64 sum: the exact value taken modulo 2^64 into the int64 range. */
  function Wrap64(x: int): (r: int)
    ensures MinInt64 <= r <= MaxInt64
    ensures MinInt64 <= x <= MaxInt64 ==> r == x
  {
    (x - MinInt64) % 0x1_0000_0000_0000_0000 + MinInt64
  }

  /** readFromConn: one Read of the connection; nothing once the peer is done. */
  function NextRead(incoming: seq<string>): (r: (string, seq<string>))
    ensures r.0 != [] ==> |r.1| < |incoming|
    ensures |r.1| <= |incoming|
  {
    if incoming == [] then ([], []) else (incoming[0], incoming[1..])
  }

  /** The local variables of ReceiveChunk. */
  datatype Scan = Scan(isHeader: bool, isFirstLine: bool, chunkSize: int, total: int, temp: string)

  const Start := Scan(false, true, 0, 0, [])

  /** What a ReceiveChunk call comes to: the message, and what is left in revBuf
      and on the connection. */
  datatype Outcome = Outcome(msg: Message, buf: string, incoming: seq<string>)

  /** Where one pass of the loop leaves ReceiveChunk: returning, or going round
      again with new variables, revBuf and connection. */
  datatype Next = Done(outcome: Outcome) | Again(s: Scan, buf: string, incoming: seq<string>)

  /** The first half of a pass: the line ReadBytes cuts off, and revBuf and the
      connection after the Read that running out of bytes triggers (or the
      return that it causes). */
  datatype Feed = Stop(outcome: Outcome) | Line(line: string, buf: string, incoming: seq<string>)

  function FeedLine(isHeader: bool, temp: string, buf: string, incoming: seq<string>): (r: Feed)
    ensures r.Line? ==>
      |r.incoming| < |incoming| || (|r.incoming| == |incoming| && |r.buf| < |buf|)
  {
    var cut := ReadBytes(buf);
    if !cut.eof then Line(cut.line, cut.rest, incoming)
    else if isHeader then Stop(Outcome(Headers(temp), [], incoming))
    else
      var read := NextRead(incoming);
      if read.0 == [] then Stop(Outcome(NoMessage, [], read.1)) else Line(cut.line, read.0, read.1)
  }

  /** The second half of a pass: what the line does to the variables. */
  function TakeLine(s: Scan, line: string, buf: string, incoming: seq<string>): (r: Next)
    ensures r.Again? ==> |r.incoming| < |incoming| || (r.incoming == incoming && r.buf == buf)
  {
    if s.isFirstLine && !HasPrefix(line, "HTTP/1.1") then SizeLine(s, line, buf, incoming)
    else
      var s1 := if s.isFirstLine then s.(isFirstLine := false, isHeader := true) else s;
      if s1.isHeader then HeaderLine(s1, line, buf, incoming) else BodyLine(s1, line, buf, incoming)
  }

  /** The first line of a chunk: its hex size, or the end of the stream when it
      is a single character that reads as 0. */
  function SizeLine(s: Scan, line: string, buf: string, incoming: seq<string>): Next {
    var digits := StripLineEnds(line);
    var size := ParseInt(digits).value;
    if |digits| == 1 && size == 0 then Done(Outcome(End, buf, incoming))
    else Again(s.(isFirstLine := false, isHeader := false, chunkSize := size), buf, incoming)
  }

  /** A header line: collected, unless it is the blank line that ends them. */
  function HeaderLine(s: Scan, line: string, buf: string, incoming: seq<string>): Next {
    if IsBlankLine(line) then Done(Outcome(Headers(s.temp), buf, incoming))
    else Again(s.(temp := s.temp + line), buf, incoming)
  }

  /** A line of chunk data: counted and collected until the lines add up to the
      size plus 2 (int64 sums). An empty line makes it read the connection once
      more. */
  function BodyLine(s: Scan, line: string, buf: string, incoming: seq<string>): (r: Next)
    ensures r.Again? ==> |r.incoming| < |incoming| || (r.incoming == incoming && r.buf == buf)
  {
    var more := if |line| == 0 then NextRead(incoming) else ([], incoming);
    if |line| == 0 && more.0 == [] then Done(Outcome(NoMessage, buf, more.1))
    else
      var total := Wrap64(s.total + |line|);
      var temp := s.temp + line;
      if total >= Wrap64(s.chunkSize + 2) then Done(Outcome(ChunkData(temp), buf + more.0, more.1))
      else
        assert |line| != 0 ==> buf + more.0 == buf;
        Again(s.(total := total, temp := temp), buf + more.0, more.1)
  }

  /** A line of chunk data that did not hit the end of the input: counted,
      collected, and compared with the size. */
  lemma {:induction false} BodyLineCounts(s: Scan, line: string, buf: string, incoming: seq<string>,
                                          buf2: string, incoming2: seq<string>)
    requires |line| != 0 ==> buf2 == buf && incoming2 == incoming
    requires |line| == 0 ==>
      NextRead(incoming).0 != [] && buf2 == buf + NextRead(incoming).0 && incoming2 == NextRead(incoming).1
    ensures BodyLine(s, line, buf, incoming) ==
      var total := Wrap64(s.total + |line|);
      var temp := s.temp + line;
      if total >= Wrap64(s.chunkSize + 2) then Done(Outcome(ChunkData(temp), buf2, incoming2))
      else Again(s.(total := total, temp := temp), buf2, incoming2)
  {
  }

  /** One pass of the loop of ReceiveChunk. Going round again always consumes
      a fragment of the connection or a line of revBuf. */
  function Iterate(s: Scan, buf: string, incoming: seq<string>): (r: Next)
    ensures r.Again? ==>
      |r.incoming| < |incoming| || (|r.incoming| == |incoming| && |r.buf| < |buf|)
  {
    match FeedLine(s.isHeader, s.temp, buf, incoming)
    case Stop(o) => Done(o)
    case Line(line, buf1, incoming1) => TakeLine(s, line, buf1, incoming1)
  }

  /** The loop of ReceiveChunk from the given variables, over revBuf `buf` and
      the fragments later Reads deliver. */
  function Receive(s: Scan, buf: string, incoming: seq<string>): Outcome
    decreases |incoming|, |buf|
  {
    match Iterate(s, buf, incoming)
    case Done(o) => o
    case Again(s1, buf1, incoming1) => Receive(s1, buf1, incoming1)
  }

  /** A whole ReceiveChunk call: one Read first, then the loop from the start. */
  function ReceiveChunkFrom(buf: string, incoming: seq<string>): Outcome {
    var first := NextRead(incoming);
    Receive(Start, buf + first.0, first.1)
  }

  /** The receiving side of the client: revBuf and the connection it reads. */
  class Client {
    var revBuf: string
    var tcpConn: Conn

    constructor (tcpConn: Conn)
      ensures this.revBuf == [] && this.tcpConn == tcpConn
    {
      this.revBuf := [];
      this.tcpConn := tcpConn;
    }

    /** readFromConn: append one Read to revBuf and answer its length. */
    method ReadFromConn() returns (n: nat)
      modifies this, tcpConn
      ensures tcpConn == old(tcpConn) && tcpConn.written == old(tcpConn.written)
      ensures revBuf == old(revBuf) + NextRead(old(tcpConn.incoming)).0
      ensures tcpConn.incoming == NextRead(old(tcpConn.incoming)).1
      ensures n == |NextRead(old(tcpConn.incoming)).0|
    {
      var data := tcpConn.Read();
      revBuf := revBuf + data;
      n := |data|;
    }

    /** The start of a pass of ReceiveChunk's loop: ReadBytes, and on io.EOF
        either the return of the header read so far or one more readFromConn
        (returning NONE when it brings nothing). */
    method ReadLine(isHeader: bool, temp: string) returns (line: string, stop: bool, msg: Message)
      modifies this, tcpConn
      ensures tcpConn == old(tcpConn) && tcpConn.written == old(tcpConn.written)
      ensures FeedLine(isHeader, temp, old(revBuf), old(tcpConn.incoming)) ==
        if stop then Stop(Outcome(msg, revBuf, tcpConn.incoming)) else Line(line, revBuf, tcpConn.incoming)
    {
      var cut := ReadBytes(revBuf);
      revBuf := cut.rest;
      line := cut.line;
      stop := false;
      msg := NoMessage;
      if cut.eof {
        if isHeader {
          return line, true, Headers(temp);
        }
        var n := ReadFromConn();
        if n == 0 {
          return line, true, NoMessage;
        }
      }
    }

    /** The rest of a pass of ReceiveChunk's loop, once ReadBytes has cut off
        a line: the first line settles between header and chunk, header lines
        are collected up to the blank line, and chunk lines are counted against
        the size. `done` when ReceiveChunk returns `msg`; `continue` and the end
        of the pass both go round again. */
    method HandleLine(s: Scan, line: string) returns (done: bool, msg: Message, s': Scan)
      modifies this, tcpConn
      ensures tcpConn == old(tcpConn) && tcpConn.written == old(tcpConn.written)
      ensures TakeLine(s, line, old(revBuf), old(tcpConn.incoming)) ==
        if done then Done(Outcome(msg, revBuf, tcpConn.incoming)) else Again(s', revBuf, tcpConn.incoming)
    {
      var isHeader, isFirstLine, chunkSize, totalReceiveSize, temp := s.isHeader, s.isFirstLine, s.chunkSize, s.total, s.temp;
      var line := line;
      msg := NoMessage;
      if isFirstLine {
        isFirstLine := false;
        if HasPrefix(line, "HTTP/1.1") {
          isHeader := true;
        } else {
          isHeader := false;
          line := RemoveCRLF(line);
          chunkSize := ParseInt(line).value;
          if |line| == 1 && chunkSize == 0 {
            return true, End, s;
          }
          return false, msg, Scan(isHeader, isFirstLine, chunkSize, totalReceiveSize, temp);
        }
      }
      if isHeader {
        if IsBlankLine(line) {
          return true, Headers(temp), s;
        }
        temp := temp + line;
      } else {
        ghost var buf1, inc1 := revBuf, tcpConn.incoming;
        var receiveSize := |line|;
        if receiveSize == 0 {
          var n := ReadFromConn();
          if n == 0 {
            return true, NoMessage, s;
          }
        }
        BodyLineCounts(Scan(isHeader, isFirstLine, chunkSize, totalReceiveSize, temp), line, buf1, inc1, revBuf, tcpConn.incoming);
        totalReceiveSize := Wrap64(totalReceiveSize + receiveSize);
        temp := temp + line;
        if totalReceiveSize >= Wrap64(chunkSize + 2) {
          return true, ChunkData(temp), s;
        }
      }
      done := false;
      s' := Scan(isHeader, isFirstLine, chunkSize, totalReceiveSize, temp);
    }

    /** ReceiveChunk: one readFromConn, then passes of the loop until one
        returns. The loop's variables isHeader, isFirstLine, chunkSize,
        totalReceiveSize and temp are the fields of `s`. */
    method ReceiveChunk() returns (msg: Message)
      modifies this, tcpConn
      ensures tcpConn == old(tcpConn) && tcpConn.written == old(tcpConn.written)
      ensures Outcome(msg, revBuf, tcpConn.incoming) == ReceiveChunkFrom(old(revBuf), old(tcpConn.incoming))
    {
      var s := Start;
      var _ := ReadFromConn();
      while true
        invariant tcpConn == old(tcpConn) && tcpConn.written == old(tcpConn.written)
        invariant Receive(s, revBuf, tcpConn.incoming) == ReceiveChunkFrom(old(revBuf), old(tcpConn.incoming))
        decreases |tcpConn.incoming|, |revBuf|
      {
        ghost var buf0, inc0 := revBuf, tcpConn.incoming;
        ReceivePass(s, buf0, inc0);
        var line, stop, result := ReadLine(s.isHeader, s.temp);
        if stop {
          return result;
        }
        var done;
        done, msg, s := HandleLine(s, line);
        if done {
          return;
        }
      }
    }
  }

  // ---------------------------------------------------------------------------
  // What ReceiveChunk makes of the lines it is given

  /** A line as ReadBytes cuts it: ending in its only CR. */
  predicate CRLine(line: string) {
    line != [] && line[|line| - 1] == CR && forall j :: 0 <= j < |line| - 1 ==> line[j] != CR
  }

  /** The lines one after the other. */
  function LinesText(lines: seq<string>): string
    decreases |lines|
  {
    if lines == [] then [] else lines[0] + LinesText(lines[1..])
  }

  /** ReadBytes cuts off exactly the first line. */
  lemma {:induction false} ReadBytesLine(line: string, rest: string)
    requires CRLine(line)
    ensures ReadBytes(line + rest) == Cut(line, rest, false)
    decreases |line|
  {
    var buf := line + rest;
    if |line| == 1 {
      assert buf[0] == CR && buf[1..] == rest;
      assert line == [CR];
    } else {
      assert buf[0] == line[0] != CR;
      assert buf[1..] == line[1..] + rest;
      ReadBytesLine(line[1..], rest);
      assert [line[0]] + line[1..] == line;
    }
  }

  /** A first line that is not a status line and, without its CR and LF bytes,
      is one character reading as hex 0 ends the stream: ReceiveChunk returns
      END and leaves the rest in revBuf. */
  lemma {:induction false} SizeZeroEnds(line: string, rest: string, incoming: seq<string>)
    requires CRLine(line) && !HasPrefix(line, "HTTP/1.1")
    requires |StripLineEnds(line)| == 1 && ParseInt(StripLineEnds(line)).value == 0
    ensures Receive(Start, line + rest, incoming) == Outcome(End, rest, incoming)
  {
    ReadBytesLine(line, rest);
    ReceivePass(Start, line + rest, incoming);
  }

  /** The end marker sendChunkEnd writes reads back as END; the LF of its size
      line and the final CRLF stay in revBuf. */
  lemma {:induction false} ChunkEndEnds(rest: string, incoming: seq<string>)
    ensures Receive(Start, ChunkEnd + rest, incoming) == Outcome(End, [LF] + CRLF + rest, incoming)
  {
    var line := ['0', CR];
    assert ChunkEnd + rest == line + ([LF] + CRLF + rest);
    StripLineEndsAppend(['0'], [CR]);
    StripLineEndsByte('0');
    StripLineEndsByte(CR);
    assert ['0'] + [CR] == line;
    ParseDigitsValue(['0']);
    SizeZeroEnds(line, [LF] + CRLF + rest, incoming);
  }

  /** Going round again continues the loop from the new variables. */
  lemma {:induction false} ReceiveAgain(s: Scan, buf: string, incoming: seq<string>, s1: Scan, buf1: string, incoming1: seq<string>)
    requires Iterate(s, buf, incoming) == Again(s1, buf1, incoming1)
    ensures Receive(s, buf, incoming) == Receive(s1, buf1, incoming1)
  {
    ReceivePass(s, buf, incoming);
  }

  lemma {:induction false} ReceiveDone(s: Scan, buf: string, incoming: seq<string>, o: Outcome)
    requires Iterate(s, buf, incoming) == Done(o)
    ensures Receive(s, buf, incoming) == o
  {
    ReceivePass(s, buf, incoming);
  }

  /** A pass over a complete header line. */
  lemma {:induction false} HeaderPass(s: Scan, line: string, rest: string, incoming: seq<string>)
    requires s.isHeader && !s.isFirstLine && CRLine(line)
    ensures Iterate(s, line + rest, incoming) == HeaderLine(s, line, rest, incoming)
  {
    ReadBytesLine(line, rest);
  }

  /** A pass over a complete line of chunk data. */
  lemma {:induction false} BodyPass(s: Scan, line: string, rest: string, incoming: seq<string>)
    requires !s.isHeader && !s.isFirstLine && CRLine(line)
    ensures Iterate(s, line + rest, incoming) == BodyLine(s, line, rest, incoming)
  {
    ReadBytesLine(line, rest);
  }

  /** In the header, every line is collected until the blank line, which is
      not; ReceiveChunk then returns HEADERS and leaves what follows in revBuf. */
  lemma {:induction false} HeaderLines(s: Scan, lines: seq<string>, blank: string, rest: string, incoming: seq<string>)
    requires s.isHeader && !s.isFirstLine
    requires forall i :: 0 <= i < |lines| ==> CRLine(lines[i]) && !IsBlankLine(lines[i])
    requires CRLine(blank) && IsBlankLine(blank)
    ensures Receive(s, LinesText(lines) + blank + rest, incoming) ==
      Outcome(Headers(s.temp + LinesText(lines)), rest, incoming)
    decreases |lines|
  {
    if lines == [] {
      assert LinesText(lines) + blank + rest == blank + rest;
      HeaderBlankLine(s, blank, rest, incoming);
      assert s.temp + LinesText(lines) == s.temp;
    } else {
      var after := LinesText(lines[1..]) + blank + rest;
      assert LinesText(lines) + blank + rest == lines[0] + after;
      HeaderLines(s.(temp := s.temp + lines[0]), lines[1..], blank, rest, incoming);
      assert s.temp + lines[0] + LinesText(lines[1..]) == s.temp + LinesText(lines);
      HeaderLineKept(s, lines[0], after, incoming);
    }
  }

  /** A header line that is not blank is collected, and the loop goes on. */
  lemma {:induction false} HeaderLineKept(s: Scan, line: string, rest: string, incoming: seq<string>)
    requires s.isHeader && !s.isFirstLine && CRLine(line) && !IsBlankLine(line)
    ensures Receive(s, line + rest, incoming) == Receive(s.(temp := s.temp + line), rest, incoming)
  {
    HeaderPass(s, line, rest, incoming);
    ReceiveAgain(s, line + rest, incoming, s.(temp := s.temp + line), rest, incoming);
  }

  /** The blank line ends the header. */
  lemma {:induction false} HeaderBlankLine(s: Scan, blank: string, rest: string, incoming: seq<string>)
    requires s.isHeader && !s.isFirstLine && CRLine(blank) && IsBlankLine(blank)
    ensures Receive(s, blank + rest, incoming) == Outcome(Headers(s.temp), rest, incoming)
  {
    HeaderPass(s, blank, rest, incoming);
    ReceiveDone(s, blank + rest, incoming, Outcome(Headers(s.temp), rest, incoming));
  }

  /** A response header: the status line and the header lines come back as
      HEADERS, without the blank line. */
  lemma {:induction false} StatusLineOpensHeader(status: string, lines: seq<string>, blank: string,
                                                 rest: string, incoming: seq<string>)
    requires CRLine(status) && HasPrefix(status, "HTTP/1.1")
    requires forall i :: 0 <= i < |lines| ==> CRLine(lines[i]) && !IsBlankLine(lines[i])
    requires CRLine(blank) && IsBlankLine(blank)
    ensures Receive(Start, status + LinesText(lines) + blank + rest, incoming) ==
      Outcome(Headers(status + LinesText(lines)), rest, incoming)
  {
    var after := LinesText(lines) + blank + rest;
    assert status + LinesText(lines) + blank + rest == status + after;
    var s1 := Scan(true, false, 0, 0, [] + status);
    HeaderLines(s1, lines, blank, rest, incoming);
    assert [] + status == status;
    assert !IsBlankLine(status) by {
      assert status[0] == "HTTP/1.1"[0];
    }
    StatusPass(status, after, incoming);
    ReceiveAgain(Start, status + after, incoming, s1, after, incoming);
  }

  /** The status line switches the loop to the header, where it is the first
      line collected. */
  lemma {:induction false} StatusPass(line: string, rest: string, incoming: seq<string>)
    requires CRLine(line) && HasPrefix(line, "HTTP/1.1")
    ensures Iterate(Start, line + rest, incoming) == HeaderLine(Scan(true, false, 0, 0, []), line, rest, incoming)
  {
    ReadBytesLine(line, rest);
  }

  /** When revBuf runs out in the middle of a header line, ReceiveChunk returns
      HEADERS with the complete lines only: the partial line has been taken out
      of revBuf and is lost. */
  lemma {:induction false} HeaderCutShort(s: Scan, buf: string, incoming: seq<string>)
    requires s.isHeader
    requires forall j :: 0 <= j < |buf| ==> buf[j] != CR
    ensures Receive(s, buf, incoming) == Outcome(Headers(s.temp), [], incoming)
  {
    ReadBytesFirstCR(buf);
    ReceivePass(s, buf, incoming);
  }

  /** In a chunk, lines are counted until their lengths reach the size plus 2:
      the bytes up to that CR come back as CHUNK. */
  lemma {:induction false} ChunkLines(s: Scan, t: string, rest: string, incoming: seq<string>)
    requires !s.isHeader && !s.isFirstLine
    requires t != [] && t[|t| - 1] == CR
    requires 0 <= s.total && s.total + |t| == s.chunkSize + 2 <= MaxInt64
    ensures Receive(s, t + rest, incoming) == Outcome(ChunkData(s.temp + t), rest, incoming)
    decreases |t|
  {
    var cut := ReadBytes(t);
    var line, more := cut.line, cut.rest;
    ReadBytesFirstCR(t);
    assert t + rest == line + (more + rest);
    if more == [] {
      assert line == t;
      BodyLineLast(s, t, rest, incoming);
    } else {
      var s1 := s.(total := s.total + |line|, temp := s.temp + line);
      ChunkLines(s1, more, rest, incoming);
      assert s1.temp + more == s.temp + t;
      BodyLineKept(s, line, more + rest, incoming);
    }
  }

  /** A line of chunk data that leaves the count short of the size plus 2 is
      collected, and the loop goes on. */
  lemma {:induction false} BodyLineKept(s: Scan, line: string, rest: string, incoming: seq<string>)
    requires !s.isHeader && !s.isFirstLine && CRLine(line)
    requires 0 <= s.total && s.total + |line| < s.chunkSize + 2 <= MaxInt64
    ensures Receive(s, line + rest, incoming) ==
      Receive(s.(total := s.total + |line|, temp := s.temp + line), rest, incoming)
  {
    BodyPass(s, line, rest, incoming);
    BodyLineCounts(s, line, rest, incoming, rest, incoming);
    ReceiveAgain(s, line + rest, incoming, s.(total := s.total + |line|, temp := s.temp + line), rest, incoming);
  }

  /** The line that brings the count to the size plus 2 completes the chunk. */
  lemma {:induction false} BodyLineLast(s: Scan, line: string, rest: string, incoming: seq<string>)
    requires !s.isHeader && !s.isFirstLine && CRLine(line)
    requires 0 <= s.total && s.total + |line| == s.chunkSize + 2 <= MaxInt64
    ensures Receive(s, line + rest, incoming) == Outcome(ChunkData(s.temp + line), rest, incoming)
  {
    BodyPass(s, line, rest, incoming);
    BodyLineCounts(s, line, rest, incoming, rest, incoming);
    ReceiveDone(s, line + rest, incoming, Outcome(ChunkData(s.temp + line), rest, incoming));
  }

  /** A first line that is not a status line and not the end marker opens a
      chunk of the size it reads as. */
  lemma {:induction false} SizeLineOpens(line: string, rest: string, incoming: seq<string>)
    requires CRLine(line) && !HasPrefix(line, "HTTP/1.1")
    requires !(|StripLineEnds(line)| == 1 && ParseInt(StripLineEnds(line)).value == 0)
    ensures Receive(Start, line + rest, incoming) ==
      Receive(Scan(false, false, ParseInt(StripLineEnds(line)).value, 0, []), rest, incoming)
  {
    ReadBytesLine(line, rest);
    ReceiveAgain(Start, line + rest, incoming,
      Scan(false, false, ParseInt(StripLineEnds(line)).value, 0, []), rest, incoming);
  }

  /** What sendChunk writes comes back from ReceiveChunk as one CHUNK: the
      payload between the LF that ends the size line and the CR before the final
      LF, which stays in revBuf with what follows. */
  lemma {:induction false} ChunkFrameReceived(body: string, rest: string, incoming: seq<string>)
    requires 1 <= |body| && |body| + 2 <= MaxInt64
    ensures Receive(Start, ChunkFrame(body) + rest, incoming) ==
      Outcome(ChunkData([LF] + body + [CR]), [LF] + rest, incoming)
  {
    var size := FormatHex(|body|);
    var line := size + [CR];
    var t := [LF] + body + [CR];
    assert ChunkFrame(body) + rest == line + (t + ([LF] + rest));
    assert CRLine(line) by {
      assert forall j :: 0 <= j < |size| ==> line[j] == size[j];
    }
    assert !HasPrefix(line, "HTTP/1.1") by {
      assert line[0] == size[0] && IsLowerHexDigit(size[0]);
    }
    StripLineEndsAppend(size, [CR]);
    StripLineEndsByte(CR);
    StripLineEndsKeeps(size);
    assert StripLineEnds(line) == size;
    HexRoundTrip(|body|);
    SizeLineOpens(line, t + ([LF] + rest), incoming);
    var s1 := Scan(false, false, |body|, 0, []);
    ChunkLines(s1, t, [LF] + rest, incoming);
    assert s1.temp + t == t;
  }

  /** The loop goes round from where a pass leaves it. */
  lemma {:induction false} ReceivePass(s: Scan, buf: string, incoming: seq<string>)
    ensures Receive(s, buf, incoming) ==
      match Iterate(s, buf, incoming)
      case Done(o) => o
      case Again(s1, buf1, incoming1) => Receive(s1, buf1, incoming1)
  {
  }
}
