/** The receiving half of http_v2_client/http_v2_client.go: the `result` record
    whose handlers update it byte by byte, and handleResponse, which drains one
    batch of received bytes at a time until the zero-length chunk arrives. Each
    handler is proved to do exactly what the matching function of Decoding
    computes, so everything proved there holds of this class. */
module StreamClient {
  import opened Strings
  import opened Strconv
  import opened Decoding

  /** The decoder fields of `result`. */
  class Result {
    var revStatus: RevStatus
    var getCR: bool
    var getLF: bool
    var doubleCRLF: bool
    var headers: string
    var handlingChunk: ChunkRef
    var receivedChunk: seq<Chunk>

    /** The fields as one decoder state. */
    function State(): DecodeState
      reads this
    {
      DecodeState(revStatus, Flags(getCR, getLF, doubleCRLF), headers, handlingChunk, receivedChunk)
    }

    /** What NewHttpV2Client sets up: the header state, empty buffers, no chunk. */
    constructor ()
      ensures State() == Initial
    {
      revStatus := Header;
      getCR, getLF, doubleCRLF := false, false, false;
      headers := [];
      handlingChunk := Nil;
      receivedChunk := [];
    }

    method ResetCRLF()
      modifies this
      ensures State() == Decoding.ResetCRLF(old(State()))
    {
      getCR, getLF, doubleCRLF := false, false, false;
    }

    method HandleCRLF(b: char)
      modifies this
      ensures State() == old(State()).(flags := Decoding.HandleCRLF(old(State()).flags, b))
    {
      if b == CR {
        getCR := true;
      } else if b == LF {
        if getCR && getLF {
          doubleCRLF := true;
        } else {
          getLF := true;
        }
      } else {
        getLF, getCR, doubleCRLF := false, false, false;
      }
    }

    method HandleHeader(b: char)
      modifies this
      ensures State() == Decoding.HandleHeader(old(State()), b)
    {
      if doubleCRLF {
        revStatus := ChunkLen;
      } else {
        headers := headers + [b];
      }
    }

    method HandleChunkLen(b: char) returns (goOn: bool)
      modifies this
      ensures (State(), goOn) == Decoding.HandleChunkLen(old(State()), b)
    {
      if handlingChunk.Nil? {
        handlingChunk := Open(NewChunk());
      }
      var c := handlingChunk.chunk;
      if !getLF && !getCR {
        handlingChunk := Open(c.(lenByte := c.lenByte + [b]));
        return true;
      }
      if |c.lenByte| == 0 {
        return true;
      }
      handlingChunk := Open(c.(len := ParseInt(c.lenByte).value));
      revStatus := BoundaryParameters;
      if handlingChunk.chunk.len == 0 {
        receivedChunk := receivedChunk + [handlingChunk.chunk];
        handlingChunk := Nil;
        return false;
      }
      return true;
    }

    method ShouldHandleNext()
      requires handlingChunk.Open?
      modifies this
      ensures State() == Decoding.ShouldHandleNext(old(State()))
    {
      if handlingChunk.chunk.receivedLen >= handlingChunk.chunk.len {
        handlingChunk := Nil;
        revStatus := ChunkLen;
      }
    }

    method HandleBoundaryParameters(b: char)
      requires handlingChunk.Open?
      modifies this
      ensures State() == Decoding.HandleBoundaryParameters(old(State()), b)
    {
      var c := handlingChunk.chunk;
      if b == '-' || |c.boundaryAndParameters| != 0 {
        handlingChunk := Open(c.(receivedLen := c.receivedLen + 1, boundaryAndParameters := c.boundaryAndParameters + [b]));
      }
      if doubleCRLF && |handlingChunk.chunk.boundaryAndParameters| != 0 {
        revStatus := ChunkBody;
      }
      ShouldHandleNext();
    }

    method HandleChunkBody(b: char)
      requires handlingChunk.Open?
      modifies this
      ensures State() == Decoding.HandleChunkBody(old(State()), b)
    {
      var c := handlingChunk.chunk;
      handlingChunk := Open(c.(receivedLen := c.receivedLen + 1, body := c.body + [b]));
      ShouldHandleNext();
    }

    /** The body of the inner loop of handleResponse for one byte: handleCRLF,
        then the handler of the current state; false when handleChunkLen asks
        to stop. */
    method HandleByte(b: char) returns (goOn: bool)
      requires Safe(State())
      modifies this
      ensures (State(), goOn) == Step(old(State()), b)
      ensures goOn ==> Safe(State())
    {
      StepSafe(State(), b);
      HandleCRLF(b);
      goOn := true;
      match revStatus {
        case Header =>
          HandleHeader(b);
        case ChunkLen =>
          goOn := HandleChunkLen(b);
        case BoundaryParameters =>
          HandleBoundaryParameters(b);
        case ChunkBody =>
          HandleChunkBody(b);
      }
    }

    /** The inner loop of handleResponse over a drained batch; false once
        handleChunkLen asked to stop. */
    method HandleBatch(data: string) returns (goOn: bool)
      requires Safe(State())
      modifies this
      ensures (State(), goOn) == Run(old(State()), data)
      ensures goOn ==> Safe(State())
    {
      ghost var d0 := State();
      var i := 0;
      while i < |data|
        invariant 0 <= i <= |data|
        invariant Run(d0, data[..i]) == (State(), true)
        invariant Safe(State())
      {
        ghost var d := State();
        var more := HandleByte(data[i]);
        RunStep(d0, data, i, d);
        if !more {
          RunAppend(d0, data[..i + 1], data[i + 1..]);
          assert data[..i + 1] + data[i + 1..] == data;
          return false;
        }
        i := i + 1;
      }
      assert data[..i] == data;
      return true;
    }

    /** The loop of handleResponse over the batches drained from revBuf: each
        batch starts with resetCRLF, and the zero-length chunk ends the loop
        (`ended`). */
    method HandleResponse(batches: seq<string>) returns (ended: bool)
      requires Safe(State())
      modifies this
      ensures (State(), !ended) == DrainAll(old(State()), batches)
    {
      ghost var d0 := State();
      var i := 0;
      while i < |batches|
        invariant 0 <= i <= |batches|
        invariant DrainAll(d0, batches[..i]) == (State(), true)
        invariant Safe(State())
      {
        assert batches[..i + 1][..i] == batches[..i];
        ResetCRLF();
        var goOn := HandleBatch(batches[i]);
        if !goOn {
          DrainAllStops(d0, batches[..i + 1], batches[i + 1..]);
          assert batches[..i + 1] + batches[i + 1..] == batches;
          return true;
        }
        i := i + 1;
      }
      assert batches[..i] == batches;
      return false;
    }
  }

  /** Once the decoder has stopped, later batches are not looked at. */
  lemma {:induction false} DrainAllStops(d: DecodeState, done: seq<string>, later: seq<string>)
    requires !DrainAll(d, done).1
    ensures DrainAll(d, done + later) == DrainAll(d, done)
    decreases |later|
  {
    if later == [] {
      assert done + later == done;
    } else {
      assert (done + later)[..|done + later| - 1] == done + later[..|later| - 1];
      DrainAllStops(d, done, later[..|later| - 1]);
    }
  }

  /** The byte at i is decoded from the state the bytes before it left. */
  lemma {:induction false} RunStep(d0: DecodeState, data: string, i: nat, d: DecodeState)
    requires i < |data| && Run(d0, data[..i]) == (d, true)
    ensures Run(d0, data[..i + 1]) == Step(d, data[i])
  {
    assert data[..i + 1][..i] == data[..i];
  }
}
