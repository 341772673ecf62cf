// atol as read_metadata_line uses it for the numeric keys: leading white space, an
// optional sign, then the longest run of decimal digits; no digits gives 0.

module Numeric {
  import opened Bytes

  const PLUS: byte := 43
  const MINUS: byte := 45
  const ZERO: byte := 48

  /** isspace in the C locale: space, '\t', '\n', '\v', '\f', '\r'. */
  predicate IsSpace(b: byte)
  {
    b == SP || 9 <= b <= 13
  }

  predicate IsDigit(b: byte)
  {
    ZERO <= b <= ZERO + 9
  }

  predicate AllDigits(d: Bytes)
  {
    forall i :: 0 <= i < |d| ==> IsDigit(d[i])
  }

  /** What is left after the leading white space. */
  function SkipSpace(s: Bytes): (r: Bytes)
    ensures |r| <= |s| && r == s[|s| - |r|..]
    ensures forall i :: 0 <= i < |s| - |r| ==> IsSpace(s[i])
    ensures r != [] ==> !IsSpace(r[0])
  {
    if s != [] && IsSpace(s[0]) then SkipSpace(s[1..]) else s
  }

  /** The length of the run of digits that starts `s`. */
  function DigitRun(s: Bytes): (n: nat)
    ensures n <= |s| && AllDigits(s[..n])
    ensures n < |s| ==> !IsDigit(s[n])
  {
    if s != [] && IsDigit(s[0]) then
      var n := 1 + DigitRun(s[1..]);
      assert s[..n] == [s[0]] + s[1..][..n - 1];
      n
    else 0
  }

  function DigitValue(b: byte): (v: nat)
    requires IsDigit(b)
    ensures v < 10
  {
    (b - ZERO) as nat
  }

  /** The value of a string of digits, most significant first. */
  function Value(d: Bytes): (v: nat)
    requires AllDigits(d)
    ensures d == [] ==> v == 0
  {
    if d == [] then 0 else Value(d[..|d| - 1]) * 10 + DigitValue(d[|d| - 1])
  }

  /** atol: the sign and digit run after the leading white space. A string of digits is
      read as its value; a negative result needs a '-' in front of the digits. */
  function Atol(s: Bytes): (v: int)
    ensures AllDigits(s) ==> v == Value(s)
    ensures v < 0 ==> SkipSpace(s) != [] && SkipSpace(s)[0] == MINUS
  {
    DigitsWhole(s);
    var t := SkipSpace(s);
    if t != [] && (t[0] == MINUS || t[0] == PLUS) then
      var u := t[1..];
      var v: int := Value(u[..DigitRun(u)]);
      if t[0] == MINUS then -v else v
    else Value(t[..DigitRun(t)])
  }

  /** A string of digits has no white space to skip and is one digit run. */
  lemma DigitsWhole(s: Bytes)
    ensures AllDigits(s) ==> SkipSpace(s) == s && DigitRun(s) == |s| && s[..DigitRun(s)] == s
  {
    if AllDigits(s) && s != [] {
      assert IsDigit(s[0]) && !IsSpace(s[0]);
    }
  }

  /** The decimal digits of `n`, without leading zeros. */
  function Decimal(n: nat): (d: Bytes)
    ensures d != [] && AllDigits(d)
    ensures |d| > 1 ==> d[0] != ZERO
  {
    if n < 10 then [ZERO + n as byte]
    else
      var h := Decimal(n / 10);
      assert (h + [ZERO + (n % 10) as byte])[0] == h[0];
      h + [ZERO + (n % 10) as byte]
  }

  /** Reading back the digits of a number gives the number. */
  lemma {:induction false} ValueDecimal(n: nat)
    ensures Value(Decimal(n)) == n
  {
    if n >= 10 {
      var d := Decimal(n);
      assert d[..|d| - 1] == Decimal(n / 10);
      ValueDecimal(n / 10);
    }
  }

  /** The digit run of digits followed by a non-digit is exactly those digits. */
  lemma {:induction false} DigitRunOf(d: Bytes, suffix: Bytes)
    requires AllDigits(d) && (suffix == [] || !IsDigit(suffix[0]))
    ensures DigitRun(d + suffix) == |d|
  {
    if d != [] {
      assert (d + suffix)[1..] == d[1..] + suffix;
      DigitRunOf(d[1..], suffix);
    } else {
      assert d + suffix == suffix;
    }
  }

  /** atol reads back a number written in decimal, whatever follows the digits. */
  lemma AtolDecimal(n: nat, suffix: Bytes)
    requires suffix == [] || !IsDigit(suffix[0])
    ensures Atol(Decimal(n) + suffix) == n
  {
    DigitsBack(n, suffix);
  }

  /** ... and with a sign in front. */
  lemma AtolSigned(sign: byte, n: nat, suffix: Bytes)
    requires sign == MINUS || sign == PLUS
    requires suffix == [] || !IsDigit(suffix[0])
    ensures Atol([sign] + Decimal(n) + suffix) == if sign == MINUS then -(n as int) else n
  {
    var u := Decimal(n) + suffix;
    assert [sign] + Decimal(n) + suffix == [sign] + u;
    AtolSign(sign, u);
    DigitsBack(n, suffix);
  }

  /** A sign in front negates, or keeps, the value of the digit run after it. */
  lemma AtolSign(sign: byte, u: Bytes)
    requires sign == MINUS || sign == PLUS
    ensures var v: int := Value(u[..DigitRun(u)]); Atol([sign] + u) == if sign == MINUS then -v else v
  {
    var s := [sign] + u;
    assert SkipSpace(s) == s;
    assert s[1..] == u;
  }

  /** The value of the digit run of a decimal numeral followed by a non-digit. */
  lemma DigitsBack(n: nat, suffix: Bytes)
    requires suffix == [] || !IsDigit(suffix[0])
    ensures var s := Decimal(n) + suffix; Value(s[..DigitRun(s)]) == n
  {
    var d := Decimal(n);
    ValueDecimal(n);
    DigitRunOf(d, suffix);
    assert (d + suffix)[..|d|] == d;
  }

  /** Leading white space does not change the value. */
  lemma AtolSkipsSpace(b: byte, s: Bytes)
    requires IsSpace(b)
    ensures Atol([b] + s) == Atol(s)
  {
    assert ([b] + s)[1..] == s;
  }

  /** No digits after the white space and the sign gives 0. */
  lemma AtolNoDigits(s: Bytes)
    requires var t := SkipSpace(s);
      t == [] || (!IsDigit(t[0]) && (t[0] == MINUS || t[0] == PLUS ==> |t| == 1 || !IsDigit(t[1])))
    ensures Atol(s) == 0
  {
  }
}
