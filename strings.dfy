/** The few functions of Go's `strings` package that the client relies on,
    over Go byte strings (one Dafny char per byte). */
module Strings {

  const CR: char := '\r'
  const LF: char := '\n'
  const CRLF: string := "\r\n"

  predicate IsLineEnd(b: char) {
    b == CR || b == LF
  }

  predicate NoLineEnd(s: string) {
    forall i :: 0 <= i < |s| ==> !IsLineEnd(s[i])
  }

  predicate OnlyLineEnds(s: string) {
    forall i :: 0 <= i < |s| ==> IsLineEnd(s[i])
  }

  /** strings.HasPrefix */
  predicate HasPrefix(s: string, prefix: string) {
    |prefix| <= |s| && s[..|prefix|] == prefix
  }

  /** strings.Contains: `sub` occurs somewhere in `s` (the empty string occurs everywhere). */
  predicate Contains(s: string, sub: string)
    decreases |s|
  {
    HasPrefix(s, sub) || (s != [] && Contains(s[1..], sub))
  }

  /** strings.Index: the offset of the first occurrence of `sub`, or -1. */
  function Index(s: string, sub: string): (i: int)
    ensures -1 <= i && (0 <= i ==> i <= |s| - |sub|)
    ensures 0 <= i ==> s[i..i + |sub|] == sub
    ensures 0 <= i ==> forall j :: 0 <= j < i ==> !HasPrefix(s[j..], sub)
    ensures i == -1 ==> forall j :: 0 <= j <= |s| ==> !HasPrefix(s[j..], sub)
    decreases |s|
  {
    if HasPrefix(s, sub) then 0
    else if s == [] then -1
    else
      var k := Index(s[1..], sub);
      assert forall j :: 1 <= j <= |s| ==> s[j..] == s[1..][j - 1..];
      if k < 0 then -1 else k + 1
  }

  /** strings.Replace(s, pat, rep, 1): the first occurrence replaced, if any. */
  function ReplaceFirst(s: string, pat: string, rep: string): string
    requires pat != []
  {
    var i := Index(s, pat);
    if i < 0 then s else s[..i] + rep + s[i + |pat|..]
  }

  /** Replacing a (non-empty) prefix of `s` by nothing leaves the text after it. */
  lemma {:induction false} ReplacePrefix(s: string, pat: string)
    requires pat != [] && HasPrefix(s, pat)
    ensures ReplaceFirst(s, pat, "") == s[|pat|..]
  {
  }

  /** strings.Split(s, sep) for a non-empty separator: the pieces between the
      non-overlapping occurrences of `sep`, found from left to right; `cur` is the
      piece built so far. */
  function SplitFrom(s: string, sep: string, cur: string): (pieces: seq<string>)
    requires sep != []
    ensures |pieces| >= 1
    decreases |s|
  {
    if s == [] then [cur]
    else if HasPrefix(s, sep) then [cur] + SplitFrom(s[|sep|..], sep, [])
    else SplitFrom(s[1..], sep, cur + [s[0]])
  }

  function Split(s: string, sep: string): (pieces: seq<string>)
    requires sep != []
  {
    SplitFrom(s, sep, [])
  }

  /** strings.TrimLeft(s, "\r") */
  function TrimLeftCR(s: string): (r: string)
    decreases |s|
  {
    if s != [] && s[0] == CR then TrimLeftCR(s[1..]) else s
  }

  /** strings.TrimRight(s, "\r") */
  function TrimRightCR(s: string): (r: string)
    decreases |s|
  {
    if s != [] && s[|s| - 1] == CR then TrimRightCR(s[..|s| - 1]) else s
  }

  /** strings.Trim(s, "\r"): every leading and trailing CR removed. */
  function TrimCR(s: string): string {
    TrimRightCR(TrimLeftCR(s))
  }

  predicate AllCR(s: string) {
    forall i :: 0 <= i < |s| ==> s[i] == CR
  }

  lemma {:induction false} TrimLeftCRIsSuffix(s: string)
    ensures |TrimLeftCR(s)| <= |s| && TrimLeftCR(s) == s[|s| - |TrimLeftCR(s)|..]
    ensures AllCR(s[..|s| - |TrimLeftCR(s)|])
    ensures TrimLeftCR(s) != [] ==> TrimLeftCR(s)[0] != CR
    decreases |s|
  {
    if s != [] && s[0] == CR {
      TrimLeftCRIsSuffix(s[1..]);
      var k := |s| - |TrimLeftCR(s)|;
      assert forall i :: 1 <= i < k ==> s[..k][i] == s[1..][..k - 1][i - 1];
    }
  }

  lemma {:induction false} TrimRightCREmpty(s: string)
    ensures TrimRightCR(s) == [] <==> AllCR(s)
    decreases |s|
  {
    if s != [] && s[|s| - 1] == CR {
      TrimRightCREmpty(s[..|s| - 1]);
      if AllCR(s[..|s| - 1]) {
        assert forall i :: 0 <= i < |s| - 1 ==> s[i] == s[..|s| - 1][i];
      }
    }
  }

  /** Trimming CRs leaves nothing exactly when the piece is made of CRs only
      (the empty piece included). */
  lemma {:induction false} TrimCREmpty(s: string)
    ensures TrimCR(s) == [] <==> AllCR(s)
  {
    TrimLeftCRIsSuffix(s);
    var t := TrimLeftCR(s);
    TrimRightCREmpty(t);
    if t == [] {
      assert s[..|s|] == s;
    } else {
      var k := |s| - |t|;
      assert t[0] == s[k] && t[0] != CR;
    }
  }
}
