/**
  The part of Go's `strconv.Atoi` that the phone-number check relies on:
  strings shorter than 19 bytes, for which a 64-bit `int` takes Atoi's fast
  path, and the empty string, which the slow path rejects.
 */
module Strconv {
  import opened Wrappers
  import opened GoString

  /** Atoi takes its fast path when 0 < len(s) < 19 (64-bit `int`). */
  const FastPathLimit: nat := 19

  /** Go's int64 range. */
  const MaxInt64: int := 0x7fff_ffff_ffff_ffff

  /** The only error reachable below FastPathLimit: `strconv.ErrSyntax`. */
  datatype NumError = ErrSyntax

  predicate IsSign(b: Byte) {
    b == '+' || b == '-'
  }

  function Pow10(n: nat): (p: nat)
    ensures p >= 1
  {
    if n == 0 then 1 else 10 * Pow10(n - 1)
  }

  function DigitValue(b: Byte): (d: nat)
    requires IsDigit(b)
    ensures d < 10
  {
    b as int - '0' as int
  }

  /** The value of a string of decimal digits, most significant first; it is below 10^|s|, so it has at most |s| decimal digits. */
  function DecimalValue(s: Bytes): (v: nat)
    requires AllDigits(s)
    ensures v < Pow10(|s|)
  {
    if s == [] then 0 else DecimalValue(s[..|s| - 1]) * 10 + DigitValue(s[|s| - 1])
  }

  /** The bytes Atoi reads as digits: all of `s` after an optional leading sign. */
  function Unsigned(s: Bytes): (d: Bytes)
    requires |s| > 0
    ensures |d| == |s| || (|d| == |s| - 1 && IsSign(s[0]))
  {
    if IsSign(s[0]) then s[1..] else s
  }

  /** An optional '+' or '-', then at least one digit, and nothing else. */
  predicate SignedDecimal(s: Bytes) {
    |s| > 0 && |Unsigned(s)| > 0 && AllDigits(Unsigned(s))
  }

  /**
    What `strconv.Atoi(s)` returns for a string shorter than FastPathLimit:
    the signed decimal value, or a syntax error for anything else.
   */
  function ParseDecimal(s: Bytes): (r: Result<int, NumError>)
    requires |s| < FastPathLimit
    ensures r.Success? ==> |s| > 0 && -(Pow10(|s|) as int) < r.value < Pow10(|s|)
    ensures r.Success? && s[0] == '-' ==> r.value <= 0
    ensures r.Success? && s[0] != '-' ==> r.value >= 0
  {
    if SignedDecimal(s) then
      var v: int := DecimalValue(Unsigned(s));
      Success(if s[0] == '-' then -v else v)
    else
      Failure(ErrSyntax)
  }

  /** Below FastPathLimit no accepted string leaves Go's int64 range, which is why Atoi can skip its overflow checks there. */
  lemma ParseDecimalFitsInt64(s: Bytes)
    requires |s| < FastPathLimit && ParseDecimal(s).Success?
    ensures -MaxInt64 <= ParseDecimal(s).value <= MaxInt64
  {
    Pow10Monotone(|s|, 18);
    Pow10Add(9, 9);
    Pow10Add(3, 6);
    Pow10Add(3, 3);
    assert Pow10(3) == 1000;
  }

  lemma {:induction false} Pow10Monotone(m: nat, n: nat)
    requires m <= n
    ensures Pow10(m) <= Pow10(n)
  {
    if m < n {
      Pow10Monotone(m, n - 1);
    }
  }

  lemma {:induction false} Pow10Add(m: nat, n: nat)
    ensures Pow10(m + n) == Pow10(m) * Pow10(n)
  {
    if m > 0 {
      Pow10Add(m - 1, n);
    }
  }

  /** ParseDecimal accepts exactly: a digit or a sign followed by at least one more byte, and digits everywhere after the first byte. */
  lemma ParseDecimalAcceptsExactly(s: Bytes)
    requires |s| < FastPathLimit
    ensures ParseDecimal(s).Success? <==>
              |s| > 0 && (IsDigit(s[0]) || (IsSign(s[0]) && |s| >= 2)) &&
              forall i :: 1 <= i < |s| ==> IsDigit(s[i])
  {
    if |s| > 0 && IsSign(s[0]) {
      assert forall i :: 1 <= i < |s| ==> s[i] == Unsigned(s)[i - 1];
    }
  }

  /**
    Go's fast path, byte by byte. `ch -= '0'` is uint8 arithmetic, so a byte
    below '0' wraps around to a value above 9 and is rejected like any other
    non-digit.
   */
  method Atoi(s: Bytes) returns (n: int, err: Option<NumError>)
    requires |s| < FastPathLimit
    ensures ParseDecimal(s).Success? ==> err.None? && n == ParseDecimal(s).value
    ensures ParseDecimal(s).Failure? ==> err == Some(ParseDecimal(s).error) && n == 0
  {
    if |s| == 0 {
      // the slow path, ParseInt, reports a syntax error for ""
      return 0, Some(ErrSyntax);
    }
    var digits := s;
    if s[0] == '-' || s[0] == '+' {
      digits := s[1..];
      if |digits| < 1 {
        return 0, Some(ErrSyntax);
      }
    }
    assert digits == Unsigned(s);
    n := 0;
    var i := 0;
    while i < |digits|
      invariant 0 <= i <= |digits|
      invariant AllDigits(digits[..i])
      invariant n == DecimalValue(digits[..i])
    {
      var ch := (digits[i] as int - '0' as int) % 256;
      if ch > 9 {
        assert !AllDigits(digits);
        return 0, Some(ErrSyntax);
      }
      assert digits[..i + 1][..i] == digits[..i];
      n := n * 10 + ch;
      i := i + 1;
    }
    assert digits[..i] == digits;
    if s[0] == '-' {
      n := -n;
    }
    err := None;
  }
}
