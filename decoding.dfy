/** The inbound decoder of http_v2_client/http_v2_client.go as a pure function of
    its state and one byte. The `result` class in StreamClient runs exactly these
    steps in place; everything proved here is about what that class computes. */
module Decoding {
  import opened Strings
  import opened Strconv
  import opened Framing

  /** revStatus: which part of the response the next byte belongs to. */
  datatype RevStatus = Header | ChunkLen | BoundaryParameters | ChunkBody

  /** The rolling CR/LF flags getCR, getLF and doubleCRLF. */
  datatype Flags = Flags(getCR: bool, getLF: bool, doubleCRLF: bool)

  const NoFlags := Flags(false, false, false)

  /** One chunk of the response while it is being read. */
  datatype Chunk = Chunk(lenByte: string, len: int, boundaryAndParameters: string, body: string, receivedLen: int)

  /** Every counted byte of the chunk is in one of its two buffers. */
  predicate Accounted(c: Chunk) {
    c.receivedLen == |c.boundaryAndParameters| + |c.body|
  }

  /** A chunk whose size line has not been read yet. */
  predicate Unsized(c: Chunk) {
    c.len == 0 && c.boundaryAndParameters == [] && c.body == [] && c.receivedLen == 0
  }

  /** NewChunk: empty buffers and nothing counted yet. */
  function NewChunk(): (c: Chunk)
    ensures Accounted(c) && Unsized(c) && c.lenByte == []
  {
    Chunk([], 0, [], [], 0)
  }

  /** The handlingChunk pointer: nil, or the chunk being read. */
  datatype ChunkRef = Nil | Open(chunk: Chunk)

  /** The decoder's state: the fields of `result` that the byte loop touches. */
  datatype DecodeState = DecodeState(
    revStatus: RevStatus,
    flags: Flags,
    headers: string,
    handlingChunk: ChunkRef,
    receivedChunk: seq<Chunk>)

  /** The state a freshly constructed client starts receiving in. */
  const Initial := DecodeState(Header, NoFlags, [], Nil, [])

  /** The states the byte loop can be in while it keeps going: an open chunk in the
      sub-header and body states, its length accounting intact, and its count below
      its declared length when that is positive. */
  predicate WellFormed(d: DecodeState) {
    match d.revStatus
    case Header => d.handlingChunk.Nil?
    case ChunkLen =>
      d.handlingChunk.Open? ==> Unsized(d.handlingChunk.chunk)
    case BoundaryParameters =>
      && d.handlingChunk.Open?
      && var c := d.handlingChunk.chunk;
      && Accounted(c) && c.body == [] && c.len != 0
      && (c.len > 0 ==> c.receivedLen < c.len)
      && (c.len < 0 ==> c.receivedLen == 0)
    case ChunkBody =>
      && d.handlingChunk.Open?
      && var c := d.handlingChunk.chunk;
      && Accounted(c) && c.boundaryAndParameters != []
      && 0 < c.len && c.receivedLen < c.len
  }

  /** handleCRLF: advance the flags by one byte. */
  function HandleCRLF(f: Flags, b: char): Flags {
    if b == CR then f.(getCR := true)
    else if b == LF then
      if f.getCR && f.getLF then f.(doubleCRLF := true) else f.(getLF := true)
    else NoFlags
  }

  /** resetCRLF */
  function ResetCRLF(d: DecodeState): DecodeState {
    d.(flags := NoFlags)
  }

  /** handleHeader: store the byte, or leave the header once a blank line ended. */
  function HandleHeader(d: DecodeState, b: char): DecodeState {
    if d.flags.doubleCRLF then d.(revStatus := ChunkLen) else d.(headers := d.headers + [b])
  }

  /** The chunk handlingChunk points to, or a fresh one when it is nil (what
      handleChunkLen allocates; in the other handlers the pointer is never nil,
      see StepWellFormed). */
  function Current(d: DecodeState): Chunk {
    if d.handlingChunk.Nil? then NewChunk() else d.handlingChunk.chunk
  }

  /** handleChunkLen: collect the size line; at its end parse it as hex. A zero
      size hands the chunk to receivedChunk and answers false (stop decoding). */
  function HandleChunkLen(d: DecodeState, b: char): (DecodeState, bool) {
    var c := Current(d);
    if !d.flags.getLF && !d.flags.getCR then
      (d.(handlingChunk := Open(c.(lenByte := c.lenByte + [b]))), true)
    else if |c.lenByte| == 0 then
      (d.(handlingChunk := Open(c)), true)
    else
      var sized := c.(len := ParseInt(c.lenByte).value);
      if sized.len == 0 then
        (d.(revStatus := BoundaryParameters, handlingChunk := Nil, receivedChunk := d.receivedChunk + [sized]), false)
      else
        (d.(revStatus := BoundaryParameters, handlingChunk := Open(sized)), true)
  }

  /** shouldHandleNext: drop the chunk once its declared length is reached (both
      callers ignore its boolean answer, so it is not modelled). */
  function ShouldHandleNext(d: DecodeState): DecodeState {
    var c := Current(d);
    if c.receivedLen >= c.len then d.(handlingChunk := Nil, revStatus := ChunkLen) else d
  }

  /** handleBoundaryParameters: bytes count from the first '-' on; a blank line
      after that starts the body. */
  function HandleBoundaryParameters(d: DecodeState, b: char): DecodeState {
    var c := Current(d);
    var c1 := if b == '-' || |c.boundaryAndParameters| != 0
      then c.(receivedLen := c.receivedLen + 1, boundaryAndParameters := c.boundaryAndParameters + [b])
      else c;
    var status := if d.flags.doubleCRLF && |c1.boundaryAndParameters| != 0 then ChunkBody else d.revStatus;
    ShouldHandleNext(d.(handlingChunk := Open(c1), revStatus := status))
  }

  /** handleChunkBody: every byte is body. */
  function HandleChunkBody(d: DecodeState, b: char): DecodeState {
    var c := Current(d);
    ShouldHandleNext(d.(handlingChunk := Open(c.(receivedLen := c.receivedLen + 1, body := c.body + [b]))))
  }

  /** One iteration of the byte loop: flags first, then the handler of the current
      state. The second component is false when the loop returns. */
  function Step(d: DecodeState, b: char): (DecodeState, bool) {
    var d1 := d.(flags := HandleCRLF(d.flags, b));
    match d.revStatus
    case Header => (HandleHeader(d1, b), true)
    case ChunkLen => HandleChunkLen(d1, b)
    case BoundaryParameters => (HandleBoundaryParameters(d1, b), true)
    case ChunkBody => (HandleChunkBody(d1, b), true)
  }

  /** The loop only goes on from well-formed states to well-formed states, and it
      only stops in the chunk-size state, with no chunk open. */
  lemma {:induction false} StepWellFormed(d: DecodeState, b: char)
    requires WellFormed(d)
    ensures Step(d, b).1 ==> WellFormed(Step(d, b).0)
    ensures !Step(d, b).1 ==> d.revStatus == ChunkLen && Step(d, b).0.handlingChunk.Nil?
  {
  }

  /** What the handlers need to not dereference a nil handlingChunk: a chunk is
      open whenever a sub-header or body byte is expected. */
  predicate Safe(d: DecodeState) {
    (d.revStatus == BoundaryParameters || d.revStatus == ChunkBody) ==> d.handlingChunk.Open?
  }

  /** The byte loop keeps the pointer non-nil where it is dereferenced, for as
      long as it goes on. */
  lemma {:induction false} StepSafe(d: DecodeState, b: char)
    requires Safe(d)
    ensures Step(d, b).1 ==> Safe(Step(d, b).0)
  {
  }

  /** Every byte goes through handleCRLF before its handler, and no handler
      touches the flags. */
  lemma {:induction false} StepFlags(d: DecodeState, b: char)
    ensures Step(d, b).0.flags == HandleCRLF(d.flags, b)
  {
  }

  /** The byte loop over one drained batch, without the reset at its start. */
  function Run(d: DecodeState, data: string): (DecodeState, bool)
    decreases |data|
  {
    if data == [] then (d, true)
    else
      var prev := Run(d, data[..|data| - 1]);
      if !prev.1 then prev else Step(prev.0, data[|data| - 1])
  }

  /** One drained batch: resetCRLF, then the byte loop. */
  function Drain(d: DecodeState, data: string): (DecodeState, bool) {
    Run(ResetCRLF(d), data)
  }

  /** handleResponse over a sequence of drained batches, stopping at the
      zero-length chunk. */
  function DrainAll(d: DecodeState, batches: seq<string>): (DecodeState, bool)
    decreases |batches|
  {
    if batches == [] then (d, true)
    else
      var prev := DrainAll(d, batches[..|batches| - 1]);
      if !prev.1 then prev else Drain(prev.0, batches[|batches| - 1])
  }

  function Flatten(batches: seq<string>): string {
    if batches == [] then [] else Flatten(batches[..|batches| - 1]) + batches[|batches| - 1]
  }

  // ---------------------------------------------------------------------------
  // The CR/LF automaton

  /** The flags after a run of bytes. */
  function ScanAll(f: Flags, s: string): Flags
    decreases |s|
  {
    if s == [] then f else HandleCRLF(ScanAll(f, s[..|s| - 1]), s[|s| - 1])
  }

  /** A byte that is neither CR nor LF forgets everything before it. */
  lemma {:induction false} ScanForgetsBeforeOther(f: Flags, p: string, x: char, t: string)
    requires !IsLineEnd(x)
    ensures ScanAll(f, p + [x] + t) == ScanAll(NoFlags, t)
    decreases |t|
  {
    var s := p + [x] + t;
    if t == [] {
      assert s[..|s| - 1] == p;
    } else {
      assert s[..|s| - 1] == p + [x] + t[..|t| - 1];
      ScanForgetsBeforeOther(f, p, x, t[..|t| - 1]);
    }
  }

  /** An LF in the run `t` at offset j that some CR and some LF precede in the run. */
  predicate ClosesBlankLine(t: string, j: int)
    requires 0 <= j < |t|
  {
    t[j] == LF && CR in t[..j] && LF in t[..j]
  }

  /** Over a run of CRs and LFs read with clear flags: getCR says a CR was seen,
      getLF that an LF was, and doubleCRLF that some LF came after both a CR and
      an LF of the run. */
  lemma {:induction false} ScanLineEnds(t: string)
    requires OnlyLineEnds(t)
    ensures ScanAll(NoFlags, t) ==
      Flags(CR in t, LF in t, exists j :: 0 <= j < |t| && ClosesBlankLine(t, j))
    decreases |t|
  {
    if t != [] {
      var p := t[..|t| - 1];
      var last := t[|t| - 1];
      assert t == p + [last];
      assert OnlyLineEnds(p) by {
        assert forall j :: 0 <= j < |p| ==> p[j] == t[j];
      }
      ScanLineEnds(p);
      ClosesBlankLineExtend(p, last);
    }
  }

  /** What one more byte adds to the facts ScanLineEnds states. */
  lemma {:induction false} ClosesBlankLineExtend(p: string, last: char)
    ensures var t := p + [last];
      && (CR in t <==> CR in p || last == CR)
      && (LF in t <==> LF in p || last == LF)
      && ((exists j :: 0 <= j < |t| && ClosesBlankLine(t, j)) <==>
          (exists j :: 0 <= j < |p| && ClosesBlankLine(p, j)) || (last == LF && CR in p && LF in p))
  {
    var t := p + [last];
    assert forall j :: 0 <= j < |p| ==> (ClosesBlankLine(t, j) <==> ClosesBlankLine(p, j)) by {
      forall j | 0 <= j < |p| ensures ClosesBlankLine(t, j) <==> ClosesBlankLine(p, j) {
        assert t[..j] == p[..j];
      }
    }
    assert t[..|p|] == p && t[|p|] == last;
    if exists j :: 0 <= j < |t| && ClosesBlankLine(t, j) {
      var j :| 0 <= j < |t| && ClosesBlankLine(t, j);
      if j < |p| { assert ClosesBlankLine(p, j); }
    }
    if exists j :: 0 <= j < |p| && ClosesBlankLine(p, j) {
      var j :| 0 <= j < |p| && ClosesBlankLine(p, j);
      assert ClosesBlankLine(t, j);
    }
    if last == LF && CR in p && LF in p {
      assert ClosesBlankLine(t, |p|);
    }
  }

  /** `\r\n\r\n` after any other byte sets doubleCRLF at its fourth byte and not before. */
  lemma {:induction false} DoubleCRLFAtFourthByte(f: Flags, p: string, x: char)
    requires !IsLineEnd(x)
    ensures forall k :: 0 <= k <= 4 ==>
      (ScanAll(f, p + [x] + "\r\n\r\n"[..k]).doubleCRLF <==> k == 4)
  {
    forall k | 0 <= k <= 4
      ensures ScanAll(f, p + [x] + "\r\n\r\n"[..k]).doubleCRLF <==> k == 4
    {
      var t := "\r\n\r\n"[..k];
      ScanForgetsBeforeOther(f, p, x, t);
      ScanLineEnds(t);
      if k == 4 {
        assert ClosesBlankLine(t, 3) by { assert t[..3] == "\r\n\r"; assert t[..3][1] == LF; }
      } else {
        forall j | 0 <= j < |t| ensures !ClosesBlankLine(t, j) {
          if t[j] == LF {
            assert j == 1;
            assert t[..j] == "\r";
          }
        }
      }
    }
  }

  /** Without a CR no run of bytes, `\n\n` included, ever sets doubleCRLF. */
  lemma {:induction false} NoDoubleCRLFWithoutCR(f: Flags, s: string)
    requires !f.getCR && !f.doubleCRLF
    requires CR !in s
    ensures !ScanAll(f, s).getCR && !ScanAll(f, s).doubleCRLF
    decreases |s|
  {
    if s != [] {
      NoDoubleCRLFWithoutCR(f, s[..|s| - 1]);
    }
  }

  // ---------------------------------------------------------------------------
  // Composition of runs

  /** Well-formedness is an invariant of the byte loop, of each batch and of the
      whole response. */
  lemma {:induction false} RunWellFormed(d: DecodeState, s: string)
    requires WellFormed(d)
    ensures Run(d, s).1 ==> WellFormed(Run(d, s).0)
    decreases |s|
  {
    if s != [] {
      RunWellFormed(d, s[..|s| - 1]);
      var prev := Run(d, s[..|s| - 1]);
      if prev.1 {
        StepWellFormed(prev.0, s[|s| - 1]);
      }
    }
  }

  lemma {:induction false} DrainAllWellFormed(d: DecodeState, batches: seq<string>)
    requires WellFormed(d)
    ensures DrainAll(d, batches).1 ==> WellFormed(DrainAll(d, batches).0)
    decreases |batches|
  {
    if batches != [] {
      DrainAllWellFormed(d, batches[..|batches| - 1]);
      var prev := DrainAll(d, batches[..|batches| - 1]);
      if prev.1 {
        RunWellFormed(ResetCRLF(prev.0), batches[|batches| - 1]);
      }
    }
  }

  /** The flags evolve on their own, whatever the decoder does with the bytes. */
  lemma {:induction false} RunFlags(d: DecodeState, s: string)
    requires WellFormed(d)
    ensures Run(d, s).1 ==> Run(d, s).0.flags == ScanAll(d.flags, s)
    decreases |s|
  {
    if s != [] {
      RunFlags(d, s[..|s| - 1]);
    }
  }

  /** Running over a + b is running over a, then (if still going) over b. */
  lemma {:induction false} RunAppend(d: DecodeState, a: string, b: string)
    ensures Run(d, a + b) == if Run(d, a).1 then Run(Run(d, a).0, b) else Run(d, a)
    decreases |b|
  {
    if b == [] {
      assert a + b == a;
    } else {
      assert (a + b)[..|a + b| - 1] == a + b[..|b| - 1];
      RunAppend(d, a, b[..|b| - 1]);
    }
  }

  lemma {:induction false} RunOne(d: DecodeState, b: char)
    ensures Run(d, [b]) == Step(d, b)
  {
    assert [b][..0] == [];
  }

  /** Two bytes, each decoded from the state the previous one left. */
  lemma {:induction false} RunTwo(d: DecodeState, a: char, x: DecodeState, b: char, y: DecodeState)
    requires Step(d, a) == (x, true) && Step(x, b) == (y, true)
    ensures Run(d, [a, b]) == (y, true)
  {
    assert [a, b][..1] == [a];
    RunOne(d, a);
  }

  /** Once a prefix has left the decoder in a state that goes on, the rest is
      decoded from that state. */
  lemma {:induction false} RunThen(d: DecodeState, a: string, x: DecodeState, b: string)
    requires Run(d, a) == (x, true)
    ensures Run(d, a + b) == Run(x, b)
  {
    RunAppend(d, a, b);
  }

  lemma {:induction false} RunChain3(d: DecodeState, s1: string, x1: DecodeState, s2: string, x2: DecodeState, s3: string, x3: DecodeState)
    requires Run(d, s1) == (x1, true)
    requires Run(x1, s2) == (x2, true)
    requires Run(x2, s3) == (x3, true)
    ensures Run(d, s1 + s2 + s3) == (x3, true)
  {
    RunThen(d, s1, x1, s2);
    RunThen(d, s1 + s2, x2, s3);
  }

  lemma {:induction false} RunChain4(d: DecodeState, s1: string, x1: DecodeState, s2: string, x2: DecodeState,
                  s3: string, x3: DecodeState, s4: string, x4: DecodeState)
    requires Run(d, s1) == (x1, true)
    requires Run(x1, s2) == (x2, true)
    requires Run(x2, s3) == (x3, true)
    requires Run(x3, s4) == (x4, true)
    ensures Run(d, s1 + s2 + s3 + s4) == (x4, true)
  {
    RunChain3(d, s1, x1, s2, x2, s3, x3);
    RunThen(d, s1 + s2 + s3, x3, s4);
  }

  // ---------------------------------------------------------------------------
  // What the loop keeps and what it hands over

  /** Nothing but the terminating zero-length chunk ever reaches receivedChunk:
      while the loop goes on the queue is unchanged, and when it stops exactly one
      chunk, of length 0, has been added. */
  lemma {:induction false} OnlyTerminatorIsQueued(d: DecodeState, s: string)
    requires WellFormed(d)
    ensures var r := Run(d, s);
      if r.1 then r.0.receivedChunk == d.receivedChunk
      else && |r.0.receivedChunk| == |d.receivedChunk| + 1
           && r.0.receivedChunk[..|d.receivedChunk|] == d.receivedChunk
           && r.0.receivedChunk[|d.receivedChunk|].len == 0
    decreases |s|
  {
    if s != [] {
      OnlyTerminatorIsQueued(d, s[..|s| - 1]);
    }
  }

  /** The header buffer only grows, and is frozen once the header has ended. */
  lemma {:induction false} HeadersOnlyGrow(d: DecodeState, s: string)
    requires WellFormed(d)
    ensures d.headers <= Run(d, s).0.headers
    ensures d.revStatus != Header ==> Run(d, s).0.headers == d.headers && Run(d, s).0.revStatus != Header
    decreases |s|
  {
    if s != [] {
      HeadersOnlyGrow(d, s[..|s| - 1]);
    }
  }

  // ---------------------------------------------------------------------------
  // The header state

  /** In the header state every byte is stored while no blank line has ended. */
  lemma {:induction false} HeaderStores(d: DecodeState, s: string)
    requires WellFormed(d) && d.revStatus == Header
    requires forall k :: 0 < k <= |s| ==> !ScanAll(d.flags, s[..k]).doubleCRLF
    ensures Run(d, s) == (d.(flags := ScanAll(d.flags, s), headers := d.headers + s), true)
    decreases |s|
  {
    if s == [] {
      assert d.headers + s == d.headers;
    } else {
      var p := s[..|s| - 1];
      assert forall k :: 0 < k <= |p| ==> p[..k] == s[..k];
      HeaderStores(d, p);
      var d1 := d.(flags := ScanAll(d.flags, p), headers := d.headers + p);
      assert Run(d, p) == (d1, true);
      assert s[..|s|] == s;
      assert !ScanAll(d.flags, s).doubleCRLF;
      assert d.headers + p + [s[|s| - 1]] == d.headers + s;
      assert Step(d1, s[|s| - 1]) == (d.(flags := ScanAll(d.flags, s), headers := d.headers + s), true);
    }
  }

  /** The byte that completes the blank line is not stored and moves the decoder
      to the chunk-size line. */
  lemma {:induction false} HeaderEnds(d: DecodeState, s: string, b: char)
    requires WellFormed(d) && d.revStatus == Header
    requires forall k :: 0 < k <= |s| ==> !ScanAll(d.flags, s[..k]).doubleCRLF
    requires ScanAll(d.flags, s + [b]).doubleCRLF
    ensures Run(d, s + [b]) ==
      (d.(flags := ScanAll(d.flags, s + [b]), headers := d.headers + s, revStatus := ChunkLen), true)
  {
    HeaderStores(d, s);
    RunAppend(d, s, [b]);
    RunOne(Run(d, s).0, b);
    assert (s + [b])[..|s|] == s;
  }

  /** Text with no CR or LF goes to the header buffer and leaves the flags clear. */
  lemma {:induction false} HeaderText(d: DecodeState, t: string)
    requires WellFormed(d) && d.revStatus == Header
    requires t != [] && NoLineEnd(t)
    ensures Run(d, t) == (d.(flags := NoFlags, headers := d.headers + t), true)
    decreases |t|
  {
    var p := t[..|t| - 1];
    if p == [] {
      RunOne(d, t[0]);
      assert t == [t[0]];
    } else {
      HeaderText(d, p);
      assert d.headers + p + [t[|t| - 1]] == d.headers + t;
    }
  }

  /** One header line and its CRLF are stored whole. */
  lemma {:induction false} HeaderLine(d: DecodeState, line: string)
    requires WellFormed(d) && d.revStatus == Header
    requires line != [] && NoLineEnd(line)
    ensures Run(d, line + CRLF) == (d.(flags := Flags(true, true, false), headers := d.headers + line + CRLF), true)
  {
    HeaderText(d, line);
    RunAppend(d, line, CRLF);
    var d1 := d.(flags := NoFlags, headers := d.headers + line);
    var d2 := d.(flags := Flags(true, false, false), headers := d.headers + line + [CR]);
    var d3 := d.(flags := Flags(true, true, false), headers := d.headers + line + CRLF);
    assert Step(d1, CR) == (d2, true);
    assert d.headers + line + [CR] + [LF] == d.headers + line + CRLF;
    assert Step(d2, LF) == (d3, true);
    assert CRLF[..1] == [CR];
    assert Run(d1, [CR]) == (d2, true) by { RunOne(d1, CR); }
  }

  predicate ProperLines(lines: seq<string>) {
    forall i :: 0 <= i < |lines| ==> lines[i] != [] && NoLineEnd(lines[i])
  }

  lemma {:induction false} HeaderLinesStored(d: DecodeState, lines: seq<string>)
    requires WellFormed(d) && d.revStatus == Header && lines != [] && ProperLines(lines)
    ensures Run(d, LineBlock(lines)) == (d.(flags := Flags(true, true, false), headers := d.headers + LineBlock(lines)), true)
    decreases |lines|
  {
    var init := lines[..|lines| - 1];
    var last := lines[|lines| - 1];
    if init == [] {
      assert LineBlock(lines) == last + CRLF;
      assert d.headers + LineBlock(lines) == d.headers + last + CRLF;
      HeaderLine(d, last);
    } else {
      HeaderLinesStored(d, init);
      HeaderLineAppended(d, LineBlock(init), last);
      assert LineBlock(lines) == LineBlock(init) + last + CRLF;
    }
  }

  lemma {:induction false} Assoc(a: string, b: string, c: string, e: string)
    ensures ((a + b) + c) + e == a + ((b + c) + e)
  {
  }

  lemma {:induction false} HeaderLineAppended(d: DecodeState, done: string, last: string)
    requires WellFormed(d) && d.revStatus == Header && last != [] && NoLineEnd(last)
    requires Run(d, done) == (d.(flags := Flags(true, true, false), headers := d.headers + done), true)
    ensures Run(d, done + last + CRLF) ==
      (d.(flags := Flags(true, true, false), headers := d.headers + (done + last + CRLF)), true)
  {
    var line := last + CRLF;
    var whole := done + last + CRLF;
    assert whole == done + line;
    var d1 := d.(flags := Flags(true, true, false), headers := d.headers + done);
    var d2 := d.(flags := Flags(true, true, false), headers := d.headers + whole);
    Assoc(d.headers, done, last, CRLF);
    calc {
      Run(d, whole);
      Run(d, done + line);
      { RunAppend(d, done, line); }
      Run(d1, line);
      { HeaderLine(d1, last); }
      (d2, true);
    }
  }

  /** A whole header block: every line with its CRLF is stored, then the CR of the
      blank line; its LF is not stored and the chunk-size line comes next. */
  lemma {:induction false} HeaderBlock(d: DecodeState, lines: seq<string>)
    requires WellFormed(d) && d.revStatus == Header && lines != [] && ProperLines(lines)
    ensures Run(d, LineBlock(lines) + CRLF) ==
      (d.(flags := Flags(true, true, true), headers := d.headers + LineBlock(lines) + [CR], revStatus := ChunkLen), true)
  {
    HeaderLinesStored(d, lines);
    var d1 := Run(d, LineBlock(lines)).0;
    RunAppend(d, LineBlock(lines), CRLF);
    RunAppend(d1, [CR], [LF]);
    RunOne(d1, CR);
    RunOne(Step(d1, CR).0, LF);
    assert [CR] + [LF] == CRLF;
  }

  // ---------------------------------------------------------------------------
  // The chunk-size line


  /** Bytes that are neither CR nor LF accumulate in LenByte. */
  lemma {:induction false} SizeDigits(d: DecodeState, t: string)
    requires WellFormed(d) && d.revStatus == ChunkLen
    requires t != [] && NoLineEnd(t)
    ensures Run(d, t) ==
      (d.(flags := NoFlags, handlingChunk := Open(Current(d).(lenByte := Current(d).lenByte + t))), true)
    decreases |t|
  {
    var p := t[..|t| - 1];
    if p == [] {
      RunOne(d, t[0]);
      assert t == [t[0]];
      assert Current(d).lenByte + t == Current(d).lenByte + [t[0]];
    } else {
      SizeDigits(d, p);
      assert Current(d).lenByte + p + [t[|t| - 1]] == Current(d).lenByte + t;
    }
  }

  /** Line ends before any size digit are skipped: decoding goes on, with nothing
      collected. */
  lemma {:induction false} EmptySizeLinesSkipped(d: DecodeState, s: string)
    requires WellFormed(d) && d.revStatus == ChunkLen && Current(d).lenByte == []
    requires s != [] && OnlyLineEnds(s)
    ensures Run(d, s) == (d.(flags := ScanAll(d.flags, s), handlingChunk := Open(NewChunk())), true)
    decreases |s|
  {
    var p := s[..|s| - 1];
    if p == [] {
      RunOne(d, s[0]);
      assert s == [s[0]];
    } else {
      EmptySizeLinesSkipped(d, p);
    }
  }

  /** A line end after the size digits parses them as hex (a malformed line reads
      as 0); a zero size queues that chunk and stops the loop, any other size opens
      the chunk's sub-header. */
  lemma {:induction false} SizeLineEnds(d: DecodeState, b: char)
    requires WellFormed(d) && d.revStatus == ChunkLen && IsLineEnd(b)
    requires d.handlingChunk.Open? && d.handlingChunk.chunk.lenByte != []
    ensures var c := d.handlingChunk.chunk; var n := ParseInt(c.lenByte).value;
      Step(d, b) ==
        if n == 0 then
          (d.(flags := HandleCRLF(d.flags, b), revStatus := BoundaryParameters, handlingChunk := Nil,
              receivedChunk := d.receivedChunk + [c.(len := 0)]), false)
        else
          (d.(flags := HandleCRLF(d.flags, b), revStatus := BoundaryParameters, handlingChunk := Open(c.(len := n))), true)
  {
  }

  /** A size line that reads as 0 (the terminator, or one that does not parse) ends
      decoding, whatever bytes follow it. */
  lemma {:induction false} ZeroSizeStops(d: DecodeState, digits: string, b: char, rest: string)
    requires WellFormed(d) && d.revStatus == ChunkLen && Current(d).lenByte == []
    requires digits != [] && NoLineEnd(digits) && IsLineEnd(b)
    requires ParseInt(digits).value == 0
    ensures Run(d, digits + [b] + rest) ==
      (d.(flags := HandleCRLF(NoFlags, b), revStatus := BoundaryParameters, handlingChunk := Nil,
          receivedChunk := d.receivedChunk + [Chunk(digits, 0, [], [], 0)]), false)
  {
    SizeDigits(d, digits);
    var d1 := d.(flags := NoFlags, handlingChunk := Open(Chunk(digits, 0, [], [], 0)));
    assert Current(d).(lenByte := Current(d).lenByte + digits) == Chunk(digits, 0, [], [], 0);
    RunAppend(d, digits, [b]);
    RunOne(d1, b);
    SizeLineEnds(d1, b);
    RunAppend(d, digits + [b], rest);
  }

  /** The end marker sendChunkEnd writes stops the decoder with one zero-length
      chunk queued, whatever bytes follow it. */
  lemma {:induction false} ChunkEndStops(d: DecodeState, rest: string)
    requires WellFormed(d) && d.revStatus == ChunkLen && Current(d).lenByte == []
    ensures Run(d, ChunkEnd + rest) ==
      (d.(flags := Flags(true, false, false), revStatus := BoundaryParameters, handlingChunk := Nil,
          receivedChunk := d.receivedChunk + [Chunk("0", 0, [], [], 0)]), false)
  {
    HexRoundTrip(0);
    assert ChunkEnd + rest == "0" + [CR] + ([LF] + CRLF + rest);
    ZeroSizeStops(d, "0", CR, [LF] + CRLF + rest);
  }

  // ---------------------------------------------------------------------------
  // The sub-header and the body

  /** Before the first '-' nothing is stored or counted, while the declared length
      is positive. */
  lemma {:induction false} SubHeaderSkips(d: DecodeState, s: string)
    requires WellFormed(d) && d.revStatus == BoundaryParameters
    requires d.handlingChunk.chunk.boundaryAndParameters == [] && d.handlingChunk.chunk.len > 0
    requires '-' !in s
    ensures Run(d, s) == (d.(flags := ScanAll(d.flags, s)), true)
    decreases |s|
  {
    if s != [] {
      SubHeaderSkips(d, s[..|s| - 1]);
    }
  }

  /** Once the sub-header has started, every byte is stored in it and counted. */
  lemma {:induction false} SubHeaderText(d: DecodeState, t: string)
    requires WellFormed(d) && d.revStatus == BoundaryParameters
    requires t != [] && NoLineEnd(t)
    requires var c := d.handlingChunk.chunk; (c.boundaryAndParameters != [] || t[0] == '-') && c.receivedLen + |t| < c.len
    ensures var c := d.handlingChunk.chunk;
      Run(d, t) == (d.(flags := NoFlags, handlingChunk := Open(c.(
        boundaryAndParameters := c.boundaryAndParameters + t, receivedLen := c.receivedLen + |t|))), true)
    decreases |t|
  {
    var c := d.handlingChunk.chunk;
    var p := t[..|t| - 1];
    if p == [] {
      RunOne(d, t[0]);
      assert t == [t[0]];
    } else {
      SubHeaderText(d, p);
      assert c.boundaryAndParameters + p + [t[|t| - 1]] == c.boundaryAndParameters + t;
    }
  }

  /** A CRLF inside the sub-header that does not close a blank line is stored and
      counted like any other text. */
  lemma {:induction false} SubHeaderLineEnd(d: DecodeState)
    requires WellFormed(d) && d.revStatus == BoundaryParameters && d.flags == NoFlags
    requires var c := d.handlingChunk.chunk; c.boundaryAndParameters != [] && c.receivedLen + 2 < c.len
    ensures var c := d.handlingChunk.chunk;
      Run(d, CRLF) == (d.(flags := Flags(true, true, false), handlingChunk := Open(c.(
        boundaryAndParameters := c.boundaryAndParameters + CRLF, receivedLen := c.receivedLen + 2))), true)
  {
    var c := d.handlingChunk.chunk;
    var d1 := d.(flags := Flags(true, false, false), handlingChunk := Open(c.(
        boundaryAndParameters := c.boundaryAndParameters + [CR], receivedLen := c.receivedLen + 1)));
    var d2 := d.(flags := Flags(true, true, false), handlingChunk := Open(c.(
        boundaryAndParameters := c.boundaryAndParameters + CRLF, receivedLen := c.receivedLen + 2)));
    assert c.boundaryAndParameters + [CR] + [LF] == c.boundaryAndParameters + CRLF;
    LineEndSteps(d, d1, d2);
  }

  lemma {:induction false} LineEndSteps(d: DecodeState, d1: DecodeState, d2: DecodeState)
    requires WellFormed(d) && d.revStatus == BoundaryParameters && d.flags == NoFlags
    requires var c := d.handlingChunk.chunk; c.boundaryAndParameters != [] && c.receivedLen + 2 < c.len
    requires var c := d.handlingChunk.chunk; d1 == d.(flags := Flags(true, false, false), handlingChunk := Open(c.(
        boundaryAndParameters := c.boundaryAndParameters + [CR], receivedLen := c.receivedLen + 1)))
    requires var c := d.handlingChunk.chunk; d2 == d.(flags := Flags(true, true, false), handlingChunk := Open(c.(
        boundaryAndParameters := c.boundaryAndParameters + [CR] + [LF], receivedLen := c.receivedLen + 2)))
    ensures Run(d, CRLF) == (d2, true)
  {
    assert Step(d, CR) == (d1, true);
    assert Step(d1, LF) == (d2, true);
    RunTwo(d, CR, d1, LF, d2);
  }

  /** The CRLF that closes the sub-header's blank line is stored with it and starts
      the body. */
  lemma {:induction false} SubHeaderBlankLine(d: DecodeState)
    requires WellFormed(d) && d.revStatus == BoundaryParameters && d.flags == Flags(true, true, false)
    requires var c := d.handlingChunk.chunk; c.boundaryAndParameters != [] && c.receivedLen + 2 < c.len
    ensures var c := d.handlingChunk.chunk;
      Run(d, CRLF) == (d.(flags := Flags(true, true, true), revStatus := ChunkBody, handlingChunk := Open(c.(
        boundaryAndParameters := c.boundaryAndParameters + CRLF, receivedLen := c.receivedLen + 2))), true)
  {
    var c := d.handlingChunk.chunk;
    var d1 := d.(handlingChunk := Open(c.(
        boundaryAndParameters := c.boundaryAndParameters + [CR], receivedLen := c.receivedLen + 1)));
    var d2 := d.(flags := Flags(true, true, true), revStatus := ChunkBody, handlingChunk := Open(c.(
        boundaryAndParameters := c.boundaryAndParameters + CRLF, receivedLen := c.receivedLen + 2)));
    assert c.boundaryAndParameters + [CR] + [LF] == c.boundaryAndParameters + CRLF;
    BlankLineSteps(d, d1, d2);
  }

  lemma {:induction false} BlankLineSteps(d: DecodeState, d1: DecodeState, d2: DecodeState)
    requires WellFormed(d) && d.revStatus == BoundaryParameters && d.flags == Flags(true, true, false)
    requires var c := d.handlingChunk.chunk; c.boundaryAndParameters != [] && c.receivedLen + 2 < c.len
    requires var c := d.handlingChunk.chunk; d1 == d.(handlingChunk := Open(c.(
        boundaryAndParameters := c.boundaryAndParameters + [CR], receivedLen := c.receivedLen + 1)))
    requires var c := d.handlingChunk.chunk;
      d2 == d.(flags := Flags(true, true, true), revStatus := ChunkBody, handlingChunk := Open(c.(
        boundaryAndParameters := c.boundaryAndParameters + [CR] + [LF], receivedLen := c.receivedLen + 2)))
    ensures Run(d, CRLF) == (d2, true)
  {
    assert Step(d, CR) == (d1, true);
    assert Step(d1, LF) == (d2, true);
    RunTwo(d, CR, d1, LF, d2);
  }

  /** One parameter line and its CRLF are stored and counted whole. */
  lemma {:induction false} SubHeaderLine(d: DecodeState, line: string)
    requires WellFormed(d) && d.revStatus == BoundaryParameters
    requires line != [] && NoLineEnd(line)
    requires var c := d.handlingChunk.chunk; c.boundaryAndParameters != [] && c.receivedLen + |line| + 2 < c.len
    ensures var c := d.handlingChunk.chunk;
      Run(d, line + CRLF) == (d.(flags := Flags(true, true, false), handlingChunk := Open(c.(
        boundaryAndParameters := c.boundaryAndParameters + line + CRLF, receivedLen := c.receivedLen + |line| + 2))), true)
  {
    var c := d.handlingChunk.chunk;
    var d1 := d.(flags := NoFlags, handlingChunk := Open(c.(
      boundaryAndParameters := c.boundaryAndParameters + line, receivedLen := c.receivedLen + |line|)));
    var c1 := d1.handlingChunk.chunk;
    assert d1.(flags := Flags(true, true, false), handlingChunk := Open(c1.(
        boundaryAndParameters := c1.boundaryAndParameters + CRLF, receivedLen := c1.receivedLen + 2))) ==
      d.(flags := Flags(true, true, false), handlingChunk := Open(c.(
        boundaryAndParameters := c.boundaryAndParameters + line + CRLF, receivedLen := c.receivedLen + |line| + 2)));
    SubHeaderText(d, line);
    RunThen(d, line, d1, CRLF);
    SubHeaderLineEnd(d1);
  }

  /** The state after `text` of the sub-header has been stored and counted. */
  function WithSubHeader(d: DecodeState, text: string): DecodeState
    requires d.handlingChunk.Open?
  {
    var c := d.handlingChunk.chunk;
    d.(handlingChunk := Open(c.(
      boundaryAndParameters := c.boundaryAndParameters + text, receivedLen := c.receivedLen + |text|)))
  }

  /** Parameter lines inside the sub-header are stored and counted whole. */
  lemma {:induction false} SubHeaderLines(d: DecodeState, lines: seq<string>)
    requires WellFormed(d) && d.revStatus == BoundaryParameters && d.flags == Flags(true, true, false)
    requires ProperLines(lines)
    requires var c := d.handlingChunk.chunk; c.boundaryAndParameters != [] && c.receivedLen + |LineBlock(lines)| < c.len
    ensures Run(d, LineBlock(lines)) == (WithSubHeader(d, LineBlock(lines)), true)
    decreases |lines|
  {
    if lines == [] {
      SubHeaderNoLines(d, lines);
    } else {
      var init := lines[..|lines| - 1];
      LastLine(lines, init, lines[|lines| - 1]);
      SubHeaderLines(d, init);
      SubHeaderMoreLines(d, lines);
    }
  }

  lemma {:induction false} SubHeaderNoLines(d: DecodeState, lines: seq<string>)
    requires d.handlingChunk.Open? && lines == []
    ensures Run(d, LineBlock(lines)) == (WithSubHeader(d, LineBlock(lines)), true)
  {
    var c := d.handlingChunk.chunk;
    assert LineBlock(lines) == [];
    assert c.boundaryAndParameters + [] == c.boundaryAndParameters;
  }

  /** The step of SubHeaderLines: one more line after the block of the others. */
  lemma {:induction false} SubHeaderMoreLines(d: DecodeState, lines: seq<string>)
    requires WellFormed(d) && d.revStatus == BoundaryParameters && d.flags == Flags(true, true, false)
    requires ProperLines(lines) && lines != []
    requires var c := d.handlingChunk.chunk; c.boundaryAndParameters != [] && c.receivedLen + |LineBlock(lines)| < c.len
    requires Run(d, LineBlock(lines[..|lines| - 1])) == (WithSubHeader(d, LineBlock(lines[..|lines| - 1])), true)
    ensures Run(d, LineBlock(lines)) == (WithSubHeader(d, LineBlock(lines)), true)
  {
    var init := lines[..|lines| - 1];
    var last := lines[|lines| - 1];
    LastLine(lines, init, last);
    SubHeaderLineAppended(d, LineBlock(init), last);
  }

  /** How a block of proper lines splits at its last line. */
  lemma {:induction false} LastLine(lines: seq<string>, init: seq<string>, last: string)
    requires ProperLines(lines) && lines != []
    requires init == lines[..|lines| - 1] && last == lines[|lines| - 1]
    ensures ProperLines(init) && last != [] && NoLineEnd(last)
    ensures LineBlock(lines) == LineBlock(init) + last + CRLF
    ensures |LineBlock(lines)| == |LineBlock(init)| + |last| + 2
  {
  }

  lemma {:induction false} SubHeaderLineAppended(d: DecodeState, done: string, last: string)
    requires WellFormed(d) && d.revStatus == BoundaryParameters && d.flags == Flags(true, true, false)
    requires last != [] && NoLineEnd(last)
    requires var c := d.handlingChunk.chunk; c.boundaryAndParameters != [] && c.receivedLen + |done + last + CRLF| < c.len
    requires Run(d, done) == (WithSubHeader(d, done), true)
    ensures Run(d, done + last + CRLF) == (WithSubHeader(d, done + last + CRLF), true)
  {
    var d1 := WithSubHeader(d, done);
    var c1 := d1.handlingChunk.chunk;
    var y := d1.(flags := Flags(true, true, false), handlingChunk := Open(c1.(
        boundaryAndParameters := c1.boundaryAndParameters + last + CRLF, receivedLen := c1.receivedLen + |last| + 2)));
    AppendedLine(d, d1, done, last, done + last + CRLF, y);
    assert y == WithSubHeader(d, done + last + CRLF);
    SubHeaderLine(d1, last);
    RunThenLine(d, done, d1, last, y);
  }

  /** The state arithmetic behind SubHeaderLineAppended, kept apart from the runs. */
  lemma {:induction false} AppendedLine(d: DecodeState, d1: DecodeState, done: string, last: string, block: string, y: DecodeState)
    requires WellFormed(d) && d.revStatus == BoundaryParameters && d.flags == Flags(true, true, false)
    requires last != [] && NoLineEnd(last) && block == done + last + CRLF
    requires var c := d.handlingChunk.chunk; c.boundaryAndParameters != [] && c.receivedLen + |block| < c.len
    requires var c := d.handlingChunk.chunk; d1 == d.(handlingChunk := Open(c.(
        boundaryAndParameters := c.boundaryAndParameters + done, receivedLen := c.receivedLen + |done|)))
    requires var c1 := d1.handlingChunk.chunk;
      y == d1.(flags := Flags(true, true, false), handlingChunk := Open(c1.(
        boundaryAndParameters := c1.boundaryAndParameters + last + CRLF, receivedLen := c1.receivedLen + |last| + 2)))
    ensures WellFormed(d1) && d1.revStatus == BoundaryParameters
    ensures var c1 := d1.handlingChunk.chunk; c1.boundaryAndParameters != [] && c1.receivedLen + |last| + 2 < c1.len
    ensures var c := d.handlingChunk.chunk;
      y == d.(handlingChunk := Open(c.(
        boundaryAndParameters := c.boundaryAndParameters + block, receivedLen := c.receivedLen + |block|)))
  {
    var c := d.handlingChunk.chunk;
    Assoc(c.boundaryAndParameters, done, last, CRLF);
  }

  /** A prefix that leaves the decoder going, then a line with its CRLF. */
  lemma {:induction false} RunThenLine(d: DecodeState, a: string, x: DecodeState, line: string, y: DecodeState)
    requires Run(d, a) == (x, true) && Run(x, line + CRLF) == (y, true)
    ensures Run(d, a + line + CRLF) == (y, true)
  {
    assert a + line + CRLF == a + (line + CRLF);
    RunThen(d, a, x, line + CRLF);
  }

  /** Every body byte is stored and counted while the declared length is not reached. */
  lemma {:induction false} BodyBytes(d: DecodeState, t: string)
    requires WellFormed(d) && d.revStatus == ChunkBody
    requires d.handlingChunk.chunk.receivedLen + |t| < d.handlingChunk.chunk.len
    ensures var c := d.handlingChunk.chunk;
      Run(d, t) == (d.(flags := ScanAll(d.flags, t), handlingChunk := Open(c.(
        body := c.body + t, receivedLen := c.receivedLen + |t|))), true)
    decreases |t|
  {
    var c := d.handlingChunk.chunk;
    if t == [] {
      assert c.body + t == c.body;
    } else {
      var p := t[..|t| - 1];
      BodyBytes(d, p);
      assert c.body + p + [t[|t| - 1]] == c.body + t;
    }
  }

  /** The byte that makes the count reach the declared length closes the chunk:
      it is dropped (not queued) and the next size line is awaited. */
  lemma {:induction false} ChunkCompletes(d: DecodeState, b: char)
    requires WellFormed(d) && (d.revStatus == ChunkBody || d.revStatus == BoundaryParameters)
    requires var c := d.handlingChunk.chunk;
      c.receivedLen + 1 == c.len && (d.revStatus == ChunkBody || b == '-' || c.boundaryAndParameters != [])
    ensures Step(d, b) == (d.(flags := HandleCRLF(d.flags, b), revStatus := ChunkLen, handlingChunk := Nil), true)
  {
  }

  // ---------------------------------------------------------------------------
  // Round trip: a segment framed by SendMultiPart, read back by the decoder

  /** The sub-header the decoder stores for a segment: the delimiter line, the
      parameter lines and the blank line. */
  function SubHeader(boundary: string, parameters: seq<string>): string {
    "--" + boundary + CRLF + LineBlock(parameters) + CRLF
  }

  lemma {:induction false} FrameParts(boundary: string, parameters: seq<string>, body: string)
    ensures var payload := MultiPartPayload(boundary, parameters, body);
      ChunkFrame(payload) ==
        (FormatHex(|payload|) + [CR] + [LF, CR, LF]) + SubHeader(boundary, parameters)
          + (body + [CR]) + [LF]
    ensures |MultiPartPayload(boundary, parameters, body)| == 2 + |SubHeader(boundary, parameters)| + |body|
  {
  }

  /** Decoding the frame of one multipart segment, from the chunk-size state:
      just before its last byte the open chunk holds the declared length, the
      sub-header (delimiter, parameter lines, blank line), and the body followed by
      the frame's CR (the payload's leading CRLF is not counted, so the frame's
      trailing CRLF is); the last byte then completes the chunk, which is dropped
      rather than queued, and the decoder waits for the next size line. */
  lemma {:induction false} SegmentDecodes(d: DecodeState, boundary: string, parameters: seq<string>, body: string)
    requires WellFormed(d) && d.revStatus == ChunkLen && Current(d).lenByte == []
    requires NoLineEnd(boundary) && ProperLines(parameters)
    requires |MultiPartPayload(boundary, parameters, body)| <= MaxInt64
    ensures var payload := MultiPartPayload(boundary, parameters, body);
      var frame := ChunkFrame(payload);
      var open := Run(d, frame[..|frame| - 1]);
      var done := Run(d, frame);
      && open.1 && open.0.revStatus == ChunkBody
      && open.0.handlingChunk ==
           Open(Chunk(FormatHex(|payload|), |payload|, SubHeader(boundary, parameters), body + [CR], |payload| - 1))
      && done.1 && done.0.revStatus == ChunkLen && done.0.handlingChunk.Nil?
      && done.0.receivedChunk == d.receivedChunk && done.0.headers == d.headers
  {
    var payload := MultiPartPayload(boundary, parameters, body);
    var n := |payload|;
    var size := FormatHex(n);
    var sub := SubHeader(boundary, parameters);
    var p1 := size + [CR] + [LF, CR, LF];
    var p3 := body + [CR];
    FramePieces(boundary, parameters, body, p1, p3);
    var d4 := d.(flags := ScanAll(Flags(true, true, true), p3), revStatus := ChunkBody,
                 handlingChunk := Open(Chunk(size, n, sub, p3, n - 1)));
    SegmentOpen(d, boundary, parameters, body, p1, p3, d4);
    var d5 := d4.(flags := HandleCRLF(d4.flags, LF), revStatus := ChunkLen, handlingChunk := Nil);
    ChunkCompletes(d4, LF);
    RunOne(d4, LF);
    RunThen(d, p1 + sub + p3, d4, [LF]);
  }

  /** How the frame of a segment splits into the parts the decoder sees. */
  lemma {:induction false} FramePieces(boundary: string, parameters: seq<string>, body: string, p1: string, p3: string)
    requires p1 == FormatHex(|MultiPartPayload(boundary, parameters, body)|) + [CR] + [LF, CR, LF]
    requires p3 == body + [CR]
    ensures var frame := ChunkFrame(MultiPartPayload(boundary, parameters, body));
      && frame == p1 + SubHeader(boundary, parameters) + p3 + [LF]
      && frame[..|frame| - 1] == p1 + SubHeader(boundary, parameters) + p3
    ensures |MultiPartPayload(boundary, parameters, body)| == 2 + |SubHeader(boundary, parameters)| + |body|
  {
    FrameParts(boundary, parameters, body);
  }

  /** Everything of a segment's frame but its last byte. */
  lemma {:induction false} SegmentOpen(d: DecodeState, boundary: string, parameters: seq<string>, body: string,
                                       p1: string, p3: string, d4: DecodeState)
    requires WellFormed(d) && d.revStatus == ChunkLen && Current(d).lenByte == []
    requires NoLineEnd(boundary) && ProperLines(parameters)
    requires var n := |MultiPartPayload(boundary, parameters, body)|;
      n <= MaxInt64 && n == 2 + |SubHeader(boundary, parameters)| + |body|
    requires p1 == FormatHex(|MultiPartPayload(boundary, parameters, body)|) + [CR] + [LF, CR, LF]
    requires p3 == body + [CR]
    requires var n := |MultiPartPayload(boundary, parameters, body)|;
      d4 == d.(flags := ScanAll(Flags(true, true, true), p3), revStatus := ChunkBody,
               handlingChunk := Open(Chunk(FormatHex(n), n, SubHeader(boundary, parameters), p3, n - 1)))
    ensures Run(d, p1 + SubHeader(boundary, parameters) + p3) == (d4, true)
    ensures WellFormed(d4) && d4.revStatus == ChunkBody
  {
    var n := |MultiPartPayload(boundary, parameters, body)|;
    var size := FormatHex(n);
    var sub := SubHeader(boundary, parameters);
    var d2 := d.(flags := Flags(true, true, true), revStatus := BoundaryParameters,
                 handlingChunk := Open(Chunk(size, n, [], [], 0)));
    SegmentSizeLine(d, n);
    var d3 := d2.(revStatus := ChunkBody, handlingChunk := Open(Chunk(size, n, sub, [], |sub|)));
    SegmentSubHeader(d2, boundary, parameters, size, n);
    BodyAfterSubHeader(d3, p3, d4);
    RunChain3(d, p1, d2, sub, d3, p3, d4);
  }

  lemma {:induction false} BodyAfterSubHeader(d3: DecodeState, p3: string, d4: DecodeState)
    requires WellFormed(d3) && d3.revStatus == ChunkBody
    requires var c := d3.handlingChunk.chunk; c.body == [] && c.receivedLen + |p3| + 1 == c.len
    requires var c := d3.handlingChunk.chunk;
      d4 == d3.(flags := ScanAll(d3.flags, p3), handlingChunk := Open(c.(body := p3, receivedLen := c.len - 1)))
    ensures Run(d3, p3) == (d4, true)
  {
    var c := d3.handlingChunk.chunk;
    assert c.body + p3 == p3;
    BodyBytes(d3, p3);
  }

  /** The size digits and the CR after them: the declared length is read. */
  lemma {:induction false} SizeLineOpens(d: DecodeState, n: nat)
    requires WellFormed(d) && d.revStatus == ChunkLen && Current(d).lenByte == []
    requires 0 < n <= MaxInt64
    ensures Run(d, FormatHex(n) + [CR]) ==
      (d.(flags := Flags(true, false, false), revStatus := BoundaryParameters,
          handlingChunk := Open(Chunk(FormatHex(n), n, [], [], 0))), true)
  {
    var size := FormatHex(n);
    HexRoundTrip(n);
    SizeDigits(d, size);
    var d0 := d.(flags := NoFlags, handlingChunk := Open(Chunk(size, 0, [], [], 0)));
    assert Current(d).(lenByte := Current(d).lenByte + size) == Chunk(size, 0, [], [], 0);
    RunThen(d, size, d0, [CR]);
    RunOne(d0, CR);
    SizeLineEnds(d0, CR);
  }

  /** The LF of the size line and the payload's leading CRLF are skipped. */
  lemma {:induction false} PayloadOpens(d: DecodeState)
    requires WellFormed(d) && d.revStatus == BoundaryParameters && d.flags == Flags(true, false, false)
    requires d.handlingChunk.chunk.boundaryAndParameters == [] && d.handlingChunk.chunk.len > 0
    ensures Run(d, [LF, CR, LF]) == (d.(flags := Flags(true, true, true)), true)
  {
    SubHeaderSkips(d, [LF, CR, LF]);
    assert [LF, CR, LF][..2] == [LF, CR];
    assert [LF, CR][..1] == [LF];
    assert [LF][..0] == [];
    assert ScanAll(d.flags, [LF]) == Flags(true, true, false);
    assert ScanAll(d.flags, [LF, CR]) == Flags(true, true, false);
  }

  /** The size line and the CRLF that opens the payload. */
  lemma {:induction false} SegmentSizeLine(d: DecodeState, n: nat)
    requires WellFormed(d) && d.revStatus == ChunkLen && Current(d).lenByte == []
    requires 0 < n <= MaxInt64
    ensures Run(d, FormatHex(n) + [CR] + [LF, CR, LF]) ==
      (d.(flags := Flags(true, true, true), revStatus := BoundaryParameters,
          handlingChunk := Open(Chunk(FormatHex(n), n, [], [], 0))), true)
  {
    SizeLineOpens(d, n);
    var d1 := d.(flags := Flags(true, false, false), revStatus := BoundaryParameters,
                 handlingChunk := Open(Chunk(FormatHex(n), n, [], [], 0)));
    RunThen(d, FormatHex(n) + [CR], d1, [LF, CR, LF]);
    PayloadOpens(d1);
  }

  /** The delimiter line opens the sub-header. */
  lemma {:induction false} DelimiterLine(d2: DecodeState, boundary: string, size: string, n: int)
    requires NoLineEnd(boundary) && n > |boundary| + 4
    requires WellFormed(d2) && d2.revStatus == BoundaryParameters
    requires d2.handlingChunk == Open(Chunk(size, n, [], [], 0))
    ensures Run(d2, "--" + boundary + CRLF) ==
      (d2.(flags := Flags(true, true, false), handlingChunk := Open(Chunk(size, n, "--" + boundary + CRLF, [], |boundary| + 4))), true)
  {
    var delim := "--" + boundary;
    var e1 := d2.(flags := NoFlags, handlingChunk := Open(Chunk(size, n, delim, [], |delim|)));
    var e2 := d2.(flags := Flags(true, true, false), handlingChunk := Open(Chunk(size, n, delim + CRLF, [], |delim| + 2)));
    DelimiterStates(d2, boundary, size, n, e1, e2);
    SubHeaderText(d2, delim);
    SubHeaderLineEnd(e1);
    RunThen(d2, delim, e1, CRLF);
  }

  /** The state arithmetic behind DelimiterLine, kept apart from the runs. */
  lemma {:induction false} DelimiterStates(d2: DecodeState, boundary: string, size: string, n: int, e1: DecodeState, e2: DecodeState)
    requires NoLineEnd(boundary) && n > |boundary| + 4
    requires WellFormed(d2) && d2.revStatus == BoundaryParameters
    requires d2.handlingChunk == Open(Chunk(size, n, [], [], 0))
    requires e1 == d2.(flags := NoFlags, handlingChunk := Open(Chunk(size, n, "--" + boundary, [], |boundary| + 2)))
    requires e2 == d2.(flags := Flags(true, true, false), handlingChunk := Open(Chunk(size, n, "--" + boundary + CRLF, [], |boundary| + 4)))
    ensures var delim := "--" + boundary; var c := d2.handlingChunk.chunk;
      && delim != [] && NoLineEnd(delim) && c.receivedLen + |delim| < c.len && delim[0] == '-'
      && e1 == d2.(flags := NoFlags, handlingChunk := Open(c.(
           boundaryAndParameters := c.boundaryAndParameters + delim, receivedLen := c.receivedLen + |delim|)))
    ensures WellFormed(e1) && e1.revStatus == BoundaryParameters && e1.flags == NoFlags
    ensures var c1 := e1.handlingChunk.chunk;
      && c1.boundaryAndParameters != [] && c1.receivedLen + 2 < c1.len
      && e2 == e1.(flags := Flags(true, true, false), handlingChunk := Open(c1.(
           boundaryAndParameters := c1.boundaryAndParameters + CRLF, receivedLen := c1.receivedLen + 2)))
  {
    var delim := "--" + boundary;
    assert forall i :: 2 <= i < |delim| ==> delim[i] == boundary[i - 2];
    assert [] + delim == delim;
  }

  /** The parameter lines and the blank line close the sub-header and open the body. */
  lemma {:induction false} ParametersAndBlankLine(e2: DecodeState, parameters: seq<string>, y: DecodeState)
    requires ProperLines(parameters)
    requires WellFormed(e2) && e2.revStatus == BoundaryParameters && e2.flags == Flags(true, true, false)
    requires var c := e2.handlingChunk.chunk;
      c.boundaryAndParameters != [] && c.receivedLen + |LineBlock(parameters)| + 2 < c.len
    requires var c := e2.handlingChunk.chunk;
      y == e2.(flags := Flags(true, true, true), revStatus := ChunkBody, handlingChunk := Open(c.(
          boundaryAndParameters := c.boundaryAndParameters + LineBlock(parameters) + CRLF,
          receivedLen := c.receivedLen + |LineBlock(parameters)| + 2)))
    ensures Run(e2, LineBlock(parameters) + CRLF) == (y, true)
  {
    var c := e2.handlingChunk.chunk;
    var x := e2.(handlingChunk := Open(c.(
        boundaryAndParameters := c.boundaryAndParameters + LineBlock(parameters),
        receivedLen := c.receivedLen + |LineBlock(parameters)|)));
    LinesThenBlankLine(e2, parameters, LineBlock(parameters), x, y);
  }

  lemma {:induction false} LinesThenBlankLine(e2: DecodeState, parameters: seq<string>, block: string, x: DecodeState, y: DecodeState)
    requires ProperLines(parameters) && block == LineBlock(parameters)
    requires WellFormed(e2) && e2.revStatus == BoundaryParameters && e2.flags == Flags(true, true, false)
    requires var c := e2.handlingChunk.chunk;
      c.boundaryAndParameters != [] && c.receivedLen + |block| + 2 < c.len
    requires var c := e2.handlingChunk.chunk; x == e2.(handlingChunk := Open(c.(
        boundaryAndParameters := c.boundaryAndParameters + block, receivedLen := c.receivedLen + |block|)))
    requires var c := e2.handlingChunk.chunk;
      y == e2.(flags := Flags(true, true, true), revStatus := ChunkBody, handlingChunk := Open(c.(
          boundaryAndParameters := c.boundaryAndParameters + block + CRLF, receivedLen := c.receivedLen + |block| + 2)))
    ensures Run(e2, block + CRLF) == (y, true)
  {
    LinesStored(e2, parameters, block, x);
    BlankLineAfter(e2, block, x, y);
  }

  lemma {:induction false} LinesStored(e2: DecodeState, parameters: seq<string>, block: string, x: DecodeState)
    requires ProperLines(parameters) && block == LineBlock(parameters)
    requires WellFormed(e2) && e2.revStatus == BoundaryParameters && e2.flags == Flags(true, true, false)
    requires var c := e2.handlingChunk.chunk;
      c.boundaryAndParameters != [] && c.receivedLen + |block| < c.len
    requires var c := e2.handlingChunk.chunk; x == e2.(handlingChunk := Open(c.(
        boundaryAndParameters := c.boundaryAndParameters + block, receivedLen := c.receivedLen + |block|)))
    ensures Run(e2, block) == (x, true)
  {
    SubHeaderLines(e2, parameters);
  }

  lemma {:induction false} BlankLineAfter(e2: DecodeState, block: string, x: DecodeState, y: DecodeState)
    requires WellFormed(e2) && e2.revStatus == BoundaryParameters && e2.flags == Flags(true, true, false)
    requires Run(e2, block) == (x, true)
    requires var c := e2.handlingChunk.chunk;
      c.boundaryAndParameters != [] && c.receivedLen + |block| + 2 < c.len
    requires var c := e2.handlingChunk.chunk; x == e2.(handlingChunk := Open(c.(
        boundaryAndParameters := c.boundaryAndParameters + block, receivedLen := c.receivedLen + |block|)))
    requires var c := e2.handlingChunk.chunk;
      y == e2.(flags := Flags(true, true, true), revStatus := ChunkBody, handlingChunk := Open(c.(
          boundaryAndParameters := c.boundaryAndParameters + block + CRLF, receivedLen := c.receivedLen + |block| + 2)))
    ensures Run(e2, block + CRLF) == (y, true)
  {
    BlankLineState(e2, block, x, y);
    SubHeaderBlankLine(x);
    RunThen(e2, block, x, CRLF);
  }

  lemma {:induction false} BlankLineState(e2: DecodeState, block: string, x: DecodeState, y: DecodeState)
    requires WellFormed(e2) && e2.revStatus == BoundaryParameters && e2.flags == Flags(true, true, false)
    requires var c := e2.handlingChunk.chunk;
      c.boundaryAndParameters != [] && c.receivedLen + |block| + 2 < c.len
    requires var c := e2.handlingChunk.chunk; x == e2.(handlingChunk := Open(c.(
        boundaryAndParameters := c.boundaryAndParameters + block, receivedLen := c.receivedLen + |block|)))
    requires var c := e2.handlingChunk.chunk;
      y == e2.(flags := Flags(true, true, true), revStatus := ChunkBody, handlingChunk := Open(c.(
          boundaryAndParameters := c.boundaryAndParameters + block + CRLF, receivedLen := c.receivedLen + |block| + 2)))
    ensures WellFormed(x) && x.revStatus == BoundaryParameters && x.flags == Flags(true, true, false)
    ensures var c := x.handlingChunk.chunk; c.boundaryAndParameters != [] && c.receivedLen + 2 < c.len
    ensures var c := x.handlingChunk.chunk;
      y == x.(flags := Flags(true, true, true), revStatus := ChunkBody, handlingChunk := Open(c.(
        boundaryAndParameters := c.boundaryAndParameters + CRLF, receivedLen := c.receivedLen + 2)))
  {
  }

  /** The sub-header: delimiter line, parameter lines and the closing blank line. */
  lemma {:induction false} SegmentSubHeader(d2: DecodeState, boundary: string, parameters: seq<string>, size: string, n: int)
    requires NoLineEnd(boundary) && ProperLines(parameters)
    requires n > |SubHeader(boundary, parameters)|
    requires WellFormed(d2) && d2.revStatus == BoundaryParameters && d2.flags == Flags(true, true, true)
    requires d2.handlingChunk == Open(Chunk(size, n, [], [], 0))
    ensures Run(d2, SubHeader(boundary, parameters)) ==
      (d2.(revStatus := ChunkBody, handlingChunk := Open(Chunk(size, n,
          SubHeader(boundary, parameters), [], |SubHeader(boundary, parameters)|))), true)
  {
    var delimiter := "--" + boundary + CRLF;
    var block := LineBlock(parameters);
    assert |SubHeader(boundary, parameters)| == |boundary| + 4 + |block| + 2;
    var e2 := d2.(flags := Flags(true, true, false), handlingChunk := Open(Chunk(size, n, delimiter, [], |delimiter|)));
    var e4 := e2.(flags := Flags(true, true, true), revStatus := ChunkBody, handlingChunk := Open(Chunk(size, n,
          delimiter + block + CRLF, [], |delimiter| + |block| + 2)));
    assert WellFormed(e2);
    assert SubHeader(boundary, parameters) == delimiter + block + CRLF;
    assert e4 == d2.(revStatus := ChunkBody, handlingChunk := Open(Chunk(size, n,
          SubHeader(boundary, parameters), [], |SubHeader(boundary, parameters)|)));
    ParametersAndBlankLine(e2, parameters, e4);
    DelimiterLine(d2, boundary, size, n);
    calc {
      Run(d2, SubHeader(boundary, parameters));
      Run(d2, delimiter + block + CRLF);
      { RunThenBlock(d2, delimiter, e2, block); }
      Run(e2, block + CRLF);
      (e4, true);
    }
  }

  lemma {:induction false} RunThenBlock(d: DecodeState, a: string, x: DecodeState, b: string)
    requires WellFormed(d) && Run(d, a) == (x, true)
    ensures Run(d, a + b + CRLF) == Run(x, b + CRLF)
  {
    assert a + b + CRLF == a + (b + CRLF);
    RunThen(d, a, x, b + CRLF);
  }

  // ---------------------------------------------------------------------------
  // Fragmentation

  /** A cut between batches right after a byte that is neither CR nor LF. */
  predicate CleanCut(s: string) {
    s == [] || !IsLineEnd(s[|s| - 1])
  }

  /** When every cut between batches falls right after a byte that is neither CR nor
      LF, the per-batch flag reset is harmless: draining the batches one by one is
      draining their concatenation at once. */
  lemma {:induction false} DrainAllFlatten(d: DecodeState, batches: seq<string>)
    requires WellFormed(d) && batches != []
    requires forall i :: 0 < i < |batches| ==> CleanCut(Flatten(batches[..i]))
    ensures DrainAll(d, batches) == Drain(d, Flatten(batches))
    decreases |batches|
  {
    var init := batches[..|batches| - 1];
    var last := batches[|batches| - 1];
    if init == [] {
      assert Flatten(batches) == Flatten(init) + last;
      assert DrainAll(d, init) == (d, true);
      assert Flatten(batches) == last;
    } else {
      assert forall i :: 0 < i < |init| ==> init[..i] == batches[..i];
      DrainAllFlatten(d, init);
      var f := Flatten(init);
      assert batches[..|init|] == init;
      assert CleanCut(f);
      DrainJoin(d, f, last);
    }
  }

  /** Draining a batch that ends in a byte other than CR or LF leaves clear
      flags, so the reset before the next batch changes nothing. */
  lemma {:induction false} DrainJoin(d: DecodeState, f: string, last: string)
    requires WellFormed(d) && CleanCut(f)
    ensures Drain(d, f + last) == if Drain(d, f).1 then Drain(Drain(d, f).0, last) else Drain(d, f)
  {
    RunAppend(ResetCRLF(d), f, last);
    RunFlags(ResetCRLF(d), f);
    if f != [] && Run(ResetCRLF(d), f).1 {
      ScanForgetsBeforeOther(NoFlags, f[..|f| - 1], f[|f| - 1], []);
      assert f[..|f| - 1] + [f[|f| - 1]] + [] == f;
    }
  }

  /** Across a cut right after a CRLF the flags are lost: a blank line split between
      two batches is not recognised, so the header never ends, while the same bytes
      in one batch end it. */
  lemma {:induction false} BlankLineSplitAcrossBatches(line: string, x: char)
    requires line != [] && NoLineEnd(line) && !IsLineEnd(x)
    ensures DrainAll(Initial, [line + CRLF, CRLF + [x]]).0.revStatus == Header
    ensures Drain(Initial, line + CRLF + CRLF + [x]).0.revStatus == ChunkLen
  {
    HeaderLine(Initial, line);
    var d1 := Initial.(flags := Flags(true, true, false), headers := line + CRLF);
    assert Initial.headers + line + CRLF == line + CRLF;
    assert DrainAll(Initial, [line + CRLF]) == (d1, true) by {
      assert [line + CRLF][..0] == [];
    }
    assert [line + CRLF, CRLF + [x]][..1] == [line + CRLF];
    var r := ResetCRLF(d1);
    var r1 := r.(flags := Flags(true, false, false), headers := r.headers + [CR]);
    var r2 := r.(flags := Flags(true, true, false), headers := r.headers + [CR] + [LF]);
    RunOne(r, CR);
    RunAppend(r, [CR], [LF]);
    RunOne(r1, LF);
    assert [CR] + [LF] == CRLF;
    RunAppend(r, CRLF, [x]);
    RunOne(r2, x);
    assert LineBlock([line]) == line + CRLF;
    HeaderBlock(ResetCRLF(Initial), [line]);
    RunAppend(ResetCRLF(Initial), line + CRLF + CRLF, [x]);
  }
}
