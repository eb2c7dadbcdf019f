/** The exact bytes the senders put on the connection, as functions of their
    arguments. SendHeaders, SendMultiPart, SendMultiPartEnd, sendChunk and
    sendChunkEnd (in both client packages) write these, one write at a time. */
module Framing {
  import opened Strings
  import opened Strconv
  import opened Wrappers

  /** The request line: POST /<path>/ HTTP/1.1 and CRLF. */
  function RequestLine(path: string): string {
    "POST /" + path + "/ HTTP/1.1" + CRLF
  }

  /** Each line followed by CRLF, in order (header lines and part parameters alike). */
  function LineBlock(lines: seq<string>): string {
    if lines == [] then [] else LineBlock(lines[..|lines| - 1]) + lines[|lines| - 1] + CRLF
  }

  /** The block written so far, after line i, is a prefix of the whole block. */
  lemma {:induction false} LineBlockPrefix(lines: seq<string>, i: nat)
    requires i < |lines|
    ensures HasPrefix(LineBlock(lines), LineBlock(lines[..i]) + lines[i] + CRLF)
    decreases |lines|
  {
    var init := lines[..|lines| - 1];
    if i < |lines| - 1 {
      LineBlockPrefix(init, i);
      assert init[..i] == lines[..i] && init[i] == lines[i];
      var p := LineBlock(lines[..i]) + lines[i] + CRLF;
      assert LineBlock(lines)[..|p|] == LineBlock(init)[..|p|];
    } else {
      assert init == lines[..i];
    }
  }

  /** Everything SendHeaders writes: request line, header lines, blank line. */
  function RequestHead(path: string, headers: seq<string>): string {
    RequestLine(path) + LineBlock(headers) + CRLF
  }

  /** The multipart segment SendMultiPart builds before framing it: CRLF, the
      boundary delimiter line, the parameter lines, a blank line and the body. */
  function MultiPartPayload(boundary: string, parameters: seq<string>, body: string): string {
    CRLF + "--" + boundary + CRLF + LineBlock(parameters) + CRLF + body
  }

  /** The closing delimiter SendMultiPartEnd sends as its last chunk. */
  function MultiPartEndPayload(boundary: string): string {
    CRLF + "--" + boundary + "--" + CRLF
  }

  /** What sendChunk writes: the hex size, CRLF, the payload and CRLF. */
  function ChunkFrame(body: string): string {
    FormatHex(|body|) + CRLF + body + CRLF
  }

  /** What sendChunkEnd writes: the zero-size chunk that ends the body. */
  const ChunkEnd: string := "0" + CRLF + CRLF

  /** A frame splits back into its parts: the size line runs up to the first CR,
      reads back (as the decoder parses it) as the payload length, and is followed
      by CRLF, the payload and a final CRLF. */
  lemma {:induction false} ChunkFrameParts(body: string)
    requires |body| <= MaxInt64
    ensures var frame := ChunkFrame(body); var size := FormatHex(|body|);
      && Index(frame, [CR]) == |size|
      && ParseInt(frame[..|size|]) == Parsed(|body|, None)
      && frame[|size|..|size| + 2] == CRLF
      && frame[|size| + 2..|size| + 2 + |body|] == body
      && frame[|size| + 2 + |body|..] == CRLF
  {
    var frame := ChunkFrame(body);
    var size := FormatHex(|body|);
    HexRoundTrip(|body|);
    assert frame[..|size|] == size;
    assert forall j :: 0 <= j < |size| ==> !HasPrefix(frame[j..], [CR]) by {
      forall j | 0 <= j < |size| ensures !HasPrefix(frame[j..], [CR]) {
        assert frame[j..][..1] == [size[j]];
      }
    }
    assert HasPrefix(frame[|size|..], [CR]);
    IndexFirst(frame, [CR], |size|);
  }

  /** Index finds an occurrence with none before it. */
  lemma {:induction false} IndexFirst(s: string, sub: string, i: nat)
    requires i <= |s| && HasPrefix(s[i..], sub)
    requires forall j :: 0 <= j < i ==> !HasPrefix(s[j..], sub)
    ensures Index(s, sub) == i
  {
    var k := Index(s, sub);
    if 0 <= k {
      assert s[k..][..|sub|] == s[k..k + |sub|];
    }
  }

  /** The closing segment is a single delimiter line: CRLF, "--", the boundary,
      "--", CRLF, so its length is the boundary's plus 8, and that is the size
      SendMultiPartEnd announces in hex. */
  lemma {:induction false} MultiPartEndLength(boundary: string)
    ensures |MultiPartEndPayload(boundary)| == |boundary| + 8
    ensures ChunkFrame(MultiPartEndPayload(boundary)) ==
      FormatHex(|boundary| + 8) + CRLF + MultiPartEndPayload(boundary) + CRLF
  {
    assert |CRLF| == 2 && |"--"| == 2;
  }

  /** A block of lines is as long as the lines together plus a CRLF for each. */
  lemma {:induction false} LineBlockLength(lines: seq<string>)
    ensures |LineBlock(lines)| == 2 * |lines| + SumLengths(lines)
    decreases |lines|
  {
    if lines != [] {
      LineBlockLength(lines[..|lines| - 1]);
    }
  }

  /** The lengths of the lines, added up. */
  function SumLengths(lines: seq<string>): nat {
    if lines == [] then 0 else SumLengths(lines[..|lines| - 1]) + |lines[|lines| - 1]|
  }

  /** The length a segment announces in its size line counts the leading CRLF, the
      delimiter line, every parameter line with its CRLF, the blank line and the body;
      SendMultiPart's frame starts with that length in hex. */
  lemma {:induction false} MultiPartPayloadLength(boundary: string, parameters: seq<string>, body: string)
    ensures |MultiPartPayload(boundary, parameters, body)| ==
      8 + |boundary| + 2 * |parameters| + SumLengths(parameters) + |body|
    ensures var payload := MultiPartPayload(boundary, parameters, body);
      ChunkFrame(payload) ==
        FormatHex(8 + |boundary| + 2 * |parameters| + SumLengths(parameters) + |body|) + CRLF + payload + CRLF
  {
    LineBlockLength(parameters);
    assert |CRLF| == 2;
  }
}
