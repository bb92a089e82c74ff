/** Base-10 signed 64-bit integer parsing as Go's `strconv.ParseInt(s, 10, 64)`
    performs it (used for `status` and `body_bytes_sent`), together with the
    positional value of a digit string as an independent reference and
    decimal formatting as its inverse. */
module Strconv {
  import opened Wrappers
  import opened ByteStrings

  const MinInt64: int := -0x8000_0000_0000_0000
  const MaxInt64: int := 0x7FFF_FFFF_FFFF_FFFF
  const MaxUint64: int := 0xFFFF_FFFF_FFFF_FFFF

  const Plus: byte := 43
  const Minus: byte := 45
  const Zero: byte := 48

  /** The two ways a Go `*strconv.NumError` can fail. */
  datatype NumError = ErrSyntax | ErrRange

  predicate IsDigit(c: byte) {
    48 <= c <= 57
  }

  function DigitValue(c: byte): (d: nat)
    requires IsDigit(c)
    ensures d < 10
  {
    (c - Zero) as nat
  }

  predicate AllDigits(s: Bytes) {
    forall k :: 0 <= k < |s| ==> IsDigit(s[k])
  }

  /** Reference meaning of a digit string: most significant digit first. */
  function DigitsValue(s: Bytes): nat
    requires AllDigits(s)
  {
    if s == [] then 0 else DigitsValue(s[..|s| - 1]) * 10 + DigitValue(s[|s| - 1])
  }

  /** The digits after an optional leading sign. */
  function Unsigned(s: Bytes): Bytes
    requires s != []
  {
    if s[0] == Plus || s[0] == Minus then s[1..] else s
  }

  /** The shape ParseInt accepts: an optional sign, then at least one digit. */
  predicate WellFormedInt(s: Bytes) {
    s != [] && Unsigned(s) != [] && AllDigits(Unsigned(s))
  }

  function IntValue(s: Bytes): int
    requires WellFormedInt(s)
  {
    var magnitude: int := DigitsValue(Unsigned(s));
    if s[0] == Minus then -magnitude else magnitude
  }

  /** ParseUint's digit loop: `n` is the value of `s[..i]`. A byte that is not
      a digit is a syntax error; a value beyond 2^64-1 is a range error,
      reported as soon as it happens, before later bytes are looked at. */
  function ScanDigits(s: Bytes, i: nat, n: nat): (r: Result<nat, NumError>)
    requires i <= |s|
    requires n <= MaxUint64
    ensures r.Ok? ==> n <= r.value <= MaxUint64
    ensures i < |s| && !IsDigit(s[i]) ==> r == Err(ErrSyntax)
    decreases |s| - i
  {
    if i == |s| then Ok(n)
    else if !IsDigit(s[i]) then Err(ErrSyntax)
    else if n * 10 + DigitValue(s[i]) > MaxUint64 then Err(ErrRange)
    else ScanDigits(s, i + 1, n * 10 + DigitValue(s[i]))
  }

  /** `strconv.ParseUint(s, 10, 64)`: base 10 admits no prefix and no `_`. */
  function ParseUint64(s: Bytes): (r: Result<nat, NumError>)
    ensures r.Ok? ==> s != [] && r.value <= MaxUint64
  {
    if s == [] then Err(ErrSyntax) else ScanDigits(s, 0, 0)
  }

  /** `strconv.ParseInt(s, 10, 64)`. */
  function ParseInt64(s: Bytes): (r: Result<int, NumError>)
    ensures r.Ok? ==> MinInt64 <= r.value <= MaxInt64
  {
    if s == [] then Err(ErrSyntax)
    else
      var neg := s[0] == Minus;
      match ParseUint64(Unsigned(s))
      case Err(e) => Err(e)
      case Ok(magnitude) =>
        var un: int := magnitude;
        if !neg && un > MaxInt64 then Err(ErrRange)
        else if neg && un > -MinInt64 then Err(ErrRange)
        else Ok(if neg then -un else un)
  }

  lemma {:induction false} DigitsValuePrefix(s: Bytes, j: nat)
    requires AllDigits(s) && j <= |s|
    ensures AllDigits(s[..j]) && DigitsValue(s[..j]) <= DigitsValue(s)
    decreases |s| - j
  {
    if j < |s| {
      DigitsValuePrefix(s, j + 1);
      assert s[..j + 1][..j] == s[..j];
    } else {
      assert s[..j] == s;
    }
  }

  /** The scan computes the reference value, and fails exactly on a non-digit
      or on a value that does not fit in 64 unsigned bits. */
  lemma {:induction false} ScanDigitsCorrect(s: Bytes, i: nat, n: nat)
    requires i <= |s| && AllDigits(s[..i]) && n == DigitsValue(s[..i]) && n <= MaxUint64
    ensures ScanDigits(s, i, n).Ok? <==> AllDigits(s) && DigitsValue(s) <= MaxUint64
    ensures ScanDigits(s, i, n).Ok? ==> ScanDigits(s, i, n).value == DigitsValue(s)
    ensures AllDigits(s) && DigitsValue(s) > MaxUint64 ==> ScanDigits(s, i, n) == Err(ErrRange)
    decreases |s| - i
  {
    if i == |s| {
      assert s[..i] == s;
    } else if IsDigit(s[i]) {
      var n1 := n * 10 + DigitValue(s[i]);
      assert s[..i + 1][..i] == s[..i];
      assert AllDigits(s[..i + 1]);
      assert DigitsValue(s[..i + 1]) == n1;
      if n1 <= MaxUint64 {
        ScanDigitsCorrect(s, i + 1, n1);
      } else if AllDigits(s) {
        DigitsValuePrefix(s, i + 1);
      }
    } else {
      assert !AllDigits(s);
    }
  }

  /** ParseInt succeeds exactly on an optionally signed digit string whose
      value lies in the int64 range, and then yields that value; a
      well-formed string outside the range is a range error. */
  lemma ParseInt64Correct(s: Bytes)
    ensures ParseInt64(s).Ok? <==> WellFormedInt(s) && MinInt64 <= IntValue(s) <= MaxInt64
    ensures ParseInt64(s).Ok? ==> ParseInt64(s).value == IntValue(s)
    ensures WellFormedInt(s) && !(MinInt64 <= IntValue(s) <= MaxInt64) ==> ParseInt64(s) == Err(ErrRange)
  {
    if s != [] && Unsigned(s) != [] {
      assert Unsigned(s)[..0] == [];
      ScanDigitsCorrect(Unsigned(s), 0, 0);
    }
  }

  function DigitByte(d: nat): (c: byte)
    requires d < 10
    ensures IsDigit(c) && DigitValue(c) == d
  {
    (d + 48) as byte
  }

  /** Canonical decimal rendering of a natural number. */
  function FormatNat(n: nat): Bytes
  {
    if n < 10 then [DigitByte(n)] else FormatNat(n / 10) + [DigitByte(n % 10)]
  }

  /** Go's `strconv.FormatInt(n, 10)`: a leading `-` for negative values. */
  function FormatInt(n: int): Bytes
  {
    if n < 0 then [Minus] + FormatNat(-n) else FormatNat(n)
  }

  lemma {:induction false} FormatNatDigits(n: nat)
    ensures FormatNat(n) != [] && AllDigits(FormatNat(n)) && DigitsValue(FormatNat(n)) == n
  {
    if n >= 10 {
      FormatNatDigits(n / 10);
      var s := FormatNat(n);
      assert s[..|s| - 1] == FormatNat(n / 10);
    }
  }

  /** Parsing the decimal rendering of any int64 gives the number back. */
  lemma FormatIntRoundTrip(n: int)
    requires MinInt64 <= n <= MaxInt64
    ensures ParseInt64(FormatInt(n)) == Ok(n)
  {
    var s := FormatInt(n);
    FormatNatDigits(if n < 0 then -n else n);
    if n < 0 {
      assert Unsigned(s) == FormatNat(-n);
    } else {
      assert s[0] != Plus && s[0] != Minus;
    }
    ParseInt64Correct(s);
  }

  /** A value such as "abc" is a syntax error. */
  lemma NonNumericIsSyntaxError()
    ensures ParseInt64(Ascii("abc")) == Err(ErrSyntax)
  {
    var s := Ascii("abc");
    assert s[0] == 97;
    assert ScanDigits(s, 0, 0) == Err(ErrSyntax);
  }
}
