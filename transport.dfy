/** The TCP (or TLS) connection both clients write to and read from, reduced to
    what the codec observes: the bytes that went out, and the fragments that
    come in. Dialing, deadlines and closing are not part of this model. */
module Transport {
  import opened Strings

  /** A connected net.Conn. `written` is everything sent so far; `incoming` is
      what successive Reads will return, one fragment each. */
  class Conn {
    ghost var written: string
    var incoming: seq<string>

    constructor (incoming: seq<string>)
      ensures this.written == [] && this.incoming == incoming
    {
      this.written := [];
      this.incoming := incoming;
    }

    /** conn.Write: either every byte goes out, or the write fails after some
        prefix of them went out. Which one happens is outside the client's
        control. */
    method Write(data: string) returns (ok: bool)
      modifies this
      ensures incoming == old(incoming)
      ensures Appended(old(written), written, data)
      ensures ok ==> written == old(written) + data
    {
      ok :| true;
      if ok {
        written := written + data;
      } else {
        ghost var k :| 0 <= k <= |data|;
        written := written + data[..k];
        assert written[|old(written)|..] == data[..k];
      }
    }

    /** conn.Read: the next fragment, or nothing once the peer has no more. */
    method Read() returns (data: string)
      modifies this
      ensures written == old(written)
      ensures old(incoming) == [] ==> data == [] && incoming == []
      ensures old(incoming) != [] ==> data == old(incoming)[0] && incoming == old(incoming)[1..]
    {
      if incoming == [] {
        data := [];
      } else {
        data := incoming[0];
        incoming := incoming[1..];
      }
    }
  }

  /** `after` is `before` followed by some prefix of `data`: what a sequence of
      writes of `data`'s pieces leaves behind when it may stop at a failure. */
  predicate Appended(before: string, after: string, data: string) {
    |before| <= |after| && after[..|before|] == before && HasPrefix(data, after[|before|..])
  }

  /** Everything written is one way of writing a prefix. */
  lemma {:induction false} AppendedAll(before: string, data: string)
    ensures Appended(before, before + data, data)
  {
    assert (before + data)[|before|..] == data;
  }

  /** After `done` went out whole, a partial write of `next` leaves a prefix of
      everything that starts with `done + next`. */
  lemma {:induction false} AppendedStep(before: string, mid: string, after: string, done: string, next: string, frame: string)
    requires mid == before + done && Appended(mid, after, next)
    requires HasPrefix(frame, done + next)
    ensures Appended(before, after, frame)
  {
    var tail := after[|mid|..];
    assert after == mid + tail;
    assert after[|before|..] == done + tail;
    assert frame[..|done| + |tail|] == (done + next)[..|done| + |tail|];
    assert (done + next)[..|done| + |tail|] == done + next[..|tail|];
  }
}
