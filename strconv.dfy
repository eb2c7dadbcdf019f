/** The two number conversions the codec uses: `fmt.Sprintf("%x", n)` for the
    chunk-size line it writes and `strconv.ParseInt(s, 16, 64)` for the one it reads. */
module Strconv {
  import opened Wrappers

  const MaxUint64: nat := 0xFFFF_FFFF_FFFF_FFFF
  const MaxInt64: int := 0x7FFF_FFFF_FFFF_FFFF
  const MinInt64: int := -0x8000_0000_0000_0000

  /** The two failures strconv reports: a malformed string, or a value out of range. */
  datatype NumError = ErrSyntax | ErrRange

  /** What ParseInt returns: the value and the (possibly ignored) error. */
  datatype Parsed = Parsed(value: int, err: Option<NumError>)

  predicate IsHexDigit(c: char) {
    '0' <= c <= '9' || 'a' <= c <= 'f' || 'A' <= c <= 'F'
  }

  predicate IsLowerHexDigit(c: char) {
    '0' <= c <= '9' || 'a' <= c <= 'f'
  }

  function DigitValue(c: char): (d: nat)
    requires IsHexDigit(c)
    ensures d < 16
  {
    if '0' <= c <= '9' then c as int - '0' as int
    else if 'a' <= c <= 'f' then c as int - 'a' as int + 10
    else c as int - 'A' as int + 10
  }

  /** The lower-case hex digit of a value below 16. */
  function HexChar(d: nat): (c: char)
    requires d < 16
    ensures IsLowerHexDigit(c) && IsHexDigit(c) && DigitValue(c) == d
  {
    if d < 10 then ('0' as int + d) as char else ('a' as int + d - 10) as char
  }

  /** The number a string of hex digits denotes, without any width limit. */
  function HexValue(s: string): nat
    requires forall i :: 0 <= i < |s| ==> IsHexDigit(s[i])
  {
    if s == [] then 0 else HexValue(s[..|s| - 1]) * 16 + DigitValue(s[|s| - 1])
  }

  /** fmt.Sprintf("%x", n): lower-case hex, no leading zero, "0" for zero. */
  function FormatHex(n: nat): (s: string)
    ensures |s| >= 1
    ensures forall i :: 0 <= i < |s| ==> IsLowerHexDigit(s[i]) && IsHexDigit(s[i])
    ensures n > 0 ==> s[0] != '0'
    ensures n == 0 ==> s == "0"
    decreases n
  {
    if n < 16 then [HexChar(n)] else FormatHex(n / 16) + [HexChar(n % 16)]
  }

  /** Formatting and then reading back the digits loses nothing. */
  lemma {:induction false} FormatHexValue(n: nat)
    ensures HexValue(FormatHex(n)) == n
    decreases n
  {
    if n >= 16 {
      FormatHexValue(n / 16);
      var s := FormatHex(n);
      assert s[..|s| - 1] == FormatHex(n / 16);
    }
  }

  /** The digit loop of strconv.ParseUint for base 16 and 64 bits: digits are read
      from the left; a non-digit is a syntax error, and the first digit that takes
      the value past 2^64-1 stops the loop with a range error. Written as a fold
      over the prefix read so far: once a prefix has failed, nothing after it is
      looked at. */
  function ParseDigits(s: string): Result<nat, NumError>
    decreases |s|
  {
    if s == [] then Success(0)
    else
      match ParseDigits(s[..|s| - 1])
      case Failure(e) => Failure(e)
      case Success(v) =>
        var c := s[|s| - 1];
        if !IsHexDigit(c) then Failure(ErrSyntax)
        else if v * 16 + DigitValue(c) > MaxUint64 then Failure(ErrRange)
        else Success(v * 16 + DigitValue(c))
  }

  /** strconv.ParseUint(s, 16, 64): the empty string is a syntax error. */
  function ParseUint(s: string): Result<nat, NumError> {
    if s == [] then Failure(ErrSyntax) else ParseDigits(s)
  }

  /** strconv.ParseInt(s, 16, 64): an optional sign, then ParseUint; a syntax error
      gives 0, a range error gives the bound on that side. */
  function ParseInt(s: string): (r: Parsed)
    ensures r.err == Some(ErrSyntax) ==> r.value == 0
    ensures MinInt64 <= r.value <= MaxInt64
  {
    if s == [] then Parsed(0, Some(ErrSyntax))
    else
      var neg := s[0] == '-';
      var digits := if s[0] == '+' || s[0] == '-' then s[1..] else s;
      match ParseUint(digits)
      case Failure(ErrSyntax) => Parsed(0, Some(ErrSyntax))
      case Failure(ErrRange) => Parsed(if neg then MinInt64 else MaxInt64, Some(ErrRange))
      case Success(u) =>
        if !neg && u > MaxInt64 then Parsed(MaxInt64, Some(ErrRange))
        else if neg && u > -MinInt64 then Parsed(MinInt64, Some(ErrRange))
        else Parsed(if neg then 0 - u as int else u as int, None)
  }

  /** On a string of digits only, the loop yields the value, or a range error
      exactly when the value does not fit in 64 bits. */
  lemma {:induction false} ParseDigitsValue(s: string)
    requires forall i :: 0 <= i < |s| ==> IsHexDigit(s[i])
    ensures ParseDigits(s) == if HexValue(s) <= MaxUint64 then Success(HexValue(s)) else Failure(ErrRange)
    decreases |s|
  {
    if s != [] {
      ParseDigitsValue(s[..|s| - 1]);
    }
  }

  /** A non-empty string of hex digits parses to its value, clamped to the
      largest int64 when it is too large. */
  lemma {:induction false} ParseIntDigits(s: string)
    requires s != [] && forall i :: 0 <= i < |s| ==> IsHexDigit(s[i])
    ensures ParseInt(s).value == if HexValue(s) <= MaxInt64 then HexValue(s) else MaxInt64
    ensures ParseInt(s).err.None? <==> HexValue(s) <= MaxInt64
  {
    ParseDigitsValue(s);
  }

  /** The first character that is not a hex digit, reached before the value
      overflows, makes the parse fail with value 0. */
  lemma {:induction false} ParseIntSyntaxError(p: string, c: char, q: string)
    requires p == [] || (p[0] != '+' && p[0] != '-')
    requires forall i :: 0 <= i < |p| ==> IsHexDigit(p[i])
    requires HexValue(p) <= MaxUint64
    requires !IsHexDigit(c) && (p != [] || (c != '+' && c != '-'))
    ensures ParseInt(p + [c] + q) == Parsed(0, Some(ErrSyntax))
  {
    ParseDigitsValue(p);
    assert (p + [c])[..|p|] == p;
    ParseDigitsPrefixFailure(p + [c], q);
    assert (p + [c] + q)[0] == (p + [c])[0];
  }

  /** A prefix that fails decides the result, whatever follows it. */
  lemma {:induction false} ParseDigitsPrefixFailure(p: string, q: string)
    requires ParseDigits(p).Failure?
    ensures ParseDigits(p + q) == ParseDigits(p)
    decreases |q|
  {
    if q == [] {
      assert p + q == p;
    } else {
      assert (p + q)[..|p + q| - 1] == p + q[..|q| - 1];
      ParseDigitsPrefixFailure(p, q[..|q| - 1]);
    }
  }

  /** What `%x` writes for a Go int is read back exactly by ParseInt(_, 16, 64). */
  lemma {:induction false} HexRoundTrip(n: nat)
    requires n <= MaxInt64
    ensures ParseInt(FormatHex(n)) == Parsed(n, None)
  {
    FormatHexValue(n);
    ParseDigitsValue(FormatHex(n));
  }
}
