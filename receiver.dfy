/** The part of the sample receiver (receiver.go) that reads a decoded chunk:
    handleBoundaryAndParameters splits the chunk's sub-header into its lines and
    tells audio parts from JSON parts. */
module Receiver {
  import opened Strings
  import opened Framing
  import opened Decoding

  /** The parameter that marks a part as JSON (matched case-sensitively). */
  const JsonMarker: string := "Content-Type: application/JSON;"

  /** The pieces that are kept as parameters, in their order: those that are
      not empty once their leading and trailing CRs are trimmed. */
  function Kept(pieces: seq<string>): seq<string>
    decreases |pieces|
  {
    if pieces == [] then []
    else
      var last := pieces[|pieces| - 1];
      Kept(pieces[..|pieces| - 1]) + (if TrimCR(last) != [] then [last] else [])
  }

  /** The parameters handleBoundaryAndParameters returns for a sub-header. */
  function Parameters(buffer: string): seq<string> {
    Kept(Split(buffer, CRLF))
  }

  /** Some parameter names the JSON content type. */
  predicate MentionsJson(parameters: seq<string>) {
    exists i :: 0 <= i < |parameters| && Contains(parameters[i], JsonMarker)
  }

  /** handleBoundaryAndParameters: the kept lines of the buffer, and whether the
      part is audio, which it is unless one of them names the JSON type. */
  method HandleBoundaryAndParameters(buffer: string) returns (parameters: seq<string>, isAudioPart: bool)
    ensures parameters == Parameters(buffer)
    ensures isAudioPart <==> !MentionsJson(parameters)
  {
    var data := Split(buffer, CRLF);
    parameters := [];
    isAudioPart := true;
    for n := 0 to |data|
      invariant parameters == Kept(data[..n])
      invariant isAudioPart <==> !MentionsJson(parameters)
    {
      assert data[..n + 1][..n] == data[..n];
      if TrimCR(data[n]) != [] {
        MentionsJsonAppend(parameters, data[n]);
        parameters := parameters + [data[n]];
        if Contains(data[n], JsonMarker) {
          isAudioPart := false;
        }
      }
    }
    assert data[..|data|] == data;
  }

  /** Keeping works piece by piece: the order of the pieces is kept. */
  lemma {:induction false} KeptAppend(a: seq<string>, b: seq<string>)
    ensures Kept(a + b) == Kept(a) + Kept(b)
    decreases |b|
  {
    if b == [] {
      assert a + b == a;
    } else {
      var init := b[..|b| - 1];
      assert (a + b)[..|a + b| - 1] == a + init;
      KeptAppend(a, init);
    }
  }

  /** A piece is kept exactly when it holds something besides CRs (an empty
      piece is never kept). */
  lemma {:induction false} KeptMember(pieces: seq<string>, x: string)
    ensures x in Kept(pieces) <==> x in pieces && !AllCR(x)
    decreases |pieces|
  {
    if pieces != [] {
      var init, last := pieces[..|pieces| - 1], pieces[|pieces| - 1];
      KeptMember(init, x);
      TrimCREmpty(last);
      assert pieces == init + [last];
    }
  }

  /** Pieces that all hold something besides CRs are all kept. */
  lemma {:induction false} KeptAll(pieces: seq<string>)
    requires forall i :: 0 <= i < |pieces| ==> !AllCR(pieces[i])
    ensures Kept(pieces) == pieces
    decreases |pieces|
  {
    if pieces != [] {
      var init, last := pieces[..|pieces| - 1], pieces[|pieces| - 1];
      assert forall i :: 0 <= i < |init| ==> init[i] == pieces[i];
      KeptAll(init);
      TrimCREmpty(last);
      assert init + [last] == pieces;
    }
  }

  /** One more parameter names the JSON type exactly when the new one does or
      one before it did. */
  lemma {:induction false} MentionsJsonAppend(parameters: seq<string>, x: string)
    ensures MentionsJson(parameters + [x]) <==> MentionsJson(parameters) || Contains(x, JsonMarker)
  {
    var ps := parameters + [x];
    assert ps[|parameters|] == x;
    if MentionsJson(parameters) {
      var i :| 0 <= i < |parameters| && Contains(parameters[i], JsonMarker);
      assert ps[i] == parameters[i];
    }
    if MentionsJson(ps) {
      var i :| 0 <= i < |ps| && Contains(ps[i], JsonMarker);
      if i < |parameters| {
        assert parameters[i] == ps[i];
      }
    }
  }

  /** An empty sub-header has no parameters, so the part counts as audio. */
  lemma {:induction false} EmptyBufferIsAudio()
    ensures Parameters([]) == [] && !MentionsJson(Parameters([]))
  {
    var pieces := Split([], CRLF);
    assert pieces == [[]];
    assert pieces[..0] == [];
    TrimCREmpty([]);
  }

  // ---------------------------------------------------------------------------
  // The sub-header the sender frames, split back into its lines

  /** Split stops a piece at the first CRLF; a piece without CR has none. */
  lemma {:induction false} SplitPiece(x: string, rest: string, cur: string)
    requires forall i :: 0 <= i < |x| ==> x[i] != CR
    ensures SplitFrom(x + CRLF + rest, CRLF, cur) == [cur + x] + SplitFrom(rest, CRLF, [])
    decreases |x|
  {
    var s := x + CRLF + rest;
    if x == [] {
      assert s == CRLF + rest && s[|CRLF|..] == rest;
      assert cur + x == cur;
    } else {
      assert s[0] == x[0] != CR;
      assert s[1..] == x[1..] + CRLF + rest;
      SplitPiece(x[1..], rest, cur + [x[0]]);
      assert cur + [x[0]] + x[1..] == cur + x;
    }
  }

  /** The first line of a block, then the block of the others. */
  lemma {:induction false} LineBlockFront(lines: seq<string>)
    requires lines != []
    ensures LineBlock(lines) == lines[0] + CRLF + LineBlock(lines[1..])
    decreases |lines|
  {
    if |lines| == 1 {
      assert lines[..0] == [] && lines[1..] == [];
    } else {
      var init, last := lines[..|lines| - 1], lines[|lines| - 1];
      var others := lines[1..];
      LineBlockFront(init);
      assert init[0] == lines[0];
      assert others[..|others| - 1] == init[1..] && others[|others| - 1] == last;
      var a, b := LineBlock(init[1..]), LineBlock(others);
      assert b == a + last + CRLF;
      assert LineBlock(lines) == (lines[0] + CRLF + a) + last + CRLF;
    }
  }

  /** Each line of a block is a piece of the split. */
  lemma {:induction false} SplitLineBlock(lines: seq<string>, rest: string)
    requires ProperLines(lines)
    ensures SplitFrom(LineBlock(lines) + rest, CRLF, []) == lines + SplitFrom(rest, CRLF, [])
    decreases |lines|
  {
    if lines == [] {
      assert LineBlock(lines) + rest == rest;
    } else {
      var first, others := lines[0], lines[1..];
      assert ProperLines(others) by {
        assert forall i :: 0 <= i < |others| ==> others[i] == lines[i + 1];
      }
      SplitLineBlock(others, rest);
      LineBlockFront(lines);
      assert forall i :: 0 <= i < |first| ==> first[i] != CR by {
        assert first != [] && NoLineEnd(first);
      }
      SplitNext(LineBlock(lines) + rest, first, LineBlock(others) + rest, others, rest);
      assert [first] + others == lines;
    }
  }

  /** A line without CR, its CRLF, and text that splits into `others` and then
      the pieces of `rest`. */
  lemma {:induction false} SplitNext(text: string, first: string, tail: string, others: seq<string>, rest: string)
    requires text == first + CRLF + tail
    requires forall i :: 0 <= i < |first| ==> first[i] != CR
    requires SplitFrom(tail, CRLF, []) == others + SplitFrom(rest, CRLF, [])
    ensures SplitFrom(text, CRLF, []) == ([first] + others) + SplitFrom(rest, CRLF, [])
  {
    SplitPiece(first, tail, []);
    assert [] + first == first;
  }

  /** The sub-header of a part the sender framed with SendMultiPart, as the
      stream decoder stores it, comes back as the delimiter line followed by the
      parameters in order; the two empty pieces left by the blank line are
      dropped. */
  lemma {:induction false} SubHeaderParameters(boundary: string, parameters: seq<string>)
    requires NoLineEnd(boundary) && ProperLines(parameters)
    ensures Parameters(SubHeader(boundary, parameters)) == ["--" + boundary] + parameters
  {
    var delimiter := "--" + boundary;
    var lines := [delimiter] + parameters;
    assert ProperLines(lines) by {
      assert lines[0] == delimiter && delimiter[0] == '-';
      forall i | 0 <= i < |delimiter| ensures !IsLineEnd(delimiter[i]) {
        if 2 <= i {
          assert delimiter[i] == boundary[i - 2];
        }
      }
      assert forall i :: 1 <= i < |lines| ==> lines[i] == parameters[i - 1];
    }
    LineBlockFront(lines);
    assert lines[1..] == parameters;
    assert SubHeader(boundary, parameters) == LineBlock(lines) + CRLF;
    SplitLineBlock(lines, CRLF);
    assert CRLF[|CRLF|..] == [];
    assert SplitFrom(CRLF, CRLF, []) == [[], []];
    KeptAppend(lines, [[], []]);
    var blanks: seq<string> := [[], []];
    assert Kept(blanks) == [] by {
      assert blanks[..1][..0] == [];
      TrimCREmpty([]);
    }
    assert forall i :: 0 <= i < |lines| ==> !AllCR(lines[i]) by {
      forall i | 0 <= i < |lines| ensures !AllCR(lines[i]) {
        assert lines[i][0] != CR;
      }
    }
    KeptAll(lines);
  }

  /** A part whose parameters name the JSON type is told apart from audio, and
      one whose parameters do not is taken for audio. */
  lemma {:induction false} JsonPartDetected(boundary: string, parameters: seq<string>)
    requires NoLineEnd(boundary) && ProperLines(parameters) && !Contains("--" + boundary, JsonMarker)
    ensures MentionsJson(Parameters(SubHeader(boundary, parameters))) <==> MentionsJson(parameters)
  {
    SubHeaderParameters(boundary, parameters);
    var ps := ["--" + boundary] + parameters;
    if MentionsJson(parameters) {
      var i :| 0 <= i < |parameters| && Contains(parameters[i], JsonMarker);
      assert ps[i + 1] == parameters[i];
    }
    if MentionsJson(ps) {
      var i :| 0 <= i < |ps| && Contains(ps[i], JsonMarker);
      assert i != 0;
      assert parameters[i - 1] == ps[i];
    }
  }
}
