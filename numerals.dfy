/**
 * Decimal text of numbers as the scripts produce and read it: Python's
 * `format(x, '.Nf')`, `format(n, '0Nd')`, `round(x, 8)`, `repr` of a float
 * and `float(text)`. Numbers are exact reals here; where Python works on the
 * binary value of a double, this model works on the exact value.
 */
module Numerals {
  import opened Wrappers
  import opened Text

  function Abs(x: real): (r: real)
    ensures r >= 0.0 && (r == x || r == -x)
  {
    if x < 0.0 then -x else x
  }

  predicate IsDigit(c: char) {
    '0' <= c <= '9'
  }

  predicate AllDigits(s: string) {
    forall i :: 0 <= i < |s| ==> IsDigit(s[i])
  }

  function DigitChar(d: nat): (c: char)
    requires d < 10
    ensures IsDigit(c)
  {
    (48 + d) as char
  }

  function DigitValue(c: char): (d: nat)
    requires IsDigit(c)
    ensures d < 10
  {
    (c as int) - 48
  }

  function Pow10(k: nat): (p: nat)
    ensures p >= 1
  {
    if k == 0 then 1 else 10 * Pow10(k - 1)
  }

  lemma {:induction false} Pow10Add(a: nat, b: nat)
    ensures Pow10(a + b) == Pow10(a) * Pow10(b)
    decreases b
  {
    if b > 0 {
      Pow10Add(a, b - 1);
      calc {
        Pow10(a + b);
        10 * Pow10(a + b - 1);
        10 * (Pow10(a) * Pow10(b - 1));
        Pow10(a) * (10 * Pow10(b - 1));
      }
    }
  }

  /** Decimal digits of a natural number, most significant first, no leading zeros. */
  function NatToString(n: nat): (s: string)
    ensures s != [] && AllDigits(s)
    decreases n
  {
    if n < 10 then [DigitChar(n)] else NatToString(n / 10) + [DigitChar(n % 10)]
  }

  /** The number a string of decimal digits denotes. */
  function DigitsValue(s: string): nat
    requires AllDigits(s)
  {
    if s == [] then 0 else DigitsValue(s[..|s| - 1]) * 10 + DigitValue(s[|s| - 1])
  }

  lemma {:induction false} NatToStringValue(n: nat)
    ensures DigitsValue(NatToString(n)) == n
    decreases n
  {
    if n >= 10 {
      NatToStringValue(n / 10);
      var s := NatToString(n);
      assert s[..|s| - 1] == NatToString(n / 10);
    }
  }

  /** The digit strings of a number below 10^k have at most k digits. */
  lemma {:induction false} NatToStringLength(n: nat, k: nat)
    requires n < Pow10(k)
    ensures |NatToString(n)| <= k || (n == 0 && k == 0)
    decreases n
  {
    if n >= 10 {
      assert k > 0;
      NatToStringLength(n / 10, k - 1);
    } else if k == 0 {
      assert n == 0;
    }
  }

  lemma AllDigitsConcat(a: string, b: string)
    requires AllDigits(a) && AllDigits(b)
    ensures AllDigits(a + b)
  {
    forall i | 0 <= i < |a + b|
      ensures IsDigit((a + b)[i])
    {
      if i < |a| { assert (a + b)[i] == a[i]; } else { assert (a + b)[i] == b[i - |a|]; }
    }
  }

  lemma {:induction false} DigitsValueConcat(a: string, b: string)
    requires AllDigits(a) && AllDigits(b)
    ensures AllDigits(a + b)
    ensures DigitsValue(a + b) == DigitsValue(a) * Pow10(|b|) + DigitsValue(b)
    decreases |b|
  {
    AllDigitsConcat(a, b);
    if b == [] {
      assert a + b == a;
    } else {
      var b' := b[..|b| - 1];
      var ab := a + b;
      assert ab[..|ab| - 1] == a + b';
      assert ab[|ab| - 1] == b[|b| - 1];
      DigitsValueConcat(a, b');
      ShiftDigit(DigitsValue(a), Pow10(|b'|), DigitsValue(b'), DigitValue(b[|b| - 1]));
    }
  }

  /** Appending a digit to `x` shifted left by `p` places. */
  lemma ShiftDigit(x: nat, p: nat, y: nat, d: nat)
    ensures (x * p + y) * 10 + d == x * (10 * p) + (y * 10 + d)
  {
  }

  function Zeros(k: nat): (s: string)
    ensures |s| == k && AllDigits(s)
    ensures forall i :: 0 <= i < k ==> s[i] == '0'
  {
    seq(k, _ => '0')
  }

  lemma {:induction false} ZerosValue(k: nat)
    ensures DigitsValue(Zeros(k)) == 0
    decreases k
  {
    if k > 0 {
      assert Zeros(k)[..k - 1] == Zeros(k - 1);
      ZerosValue(k - 1);
    }
  }

  /** Python `format(n, '0{width}d')` for a natural number. */
  function ZeroPad(n: nat, width: nat): (s: string)
    ensures AllDigits(s) && |s| >= width
  {
    var d := NatToString(n);
    if |d| >= width then d else Zeros(width - |d|) + d
  }

  /** Zero padding keeps the value. */
  lemma ZeroPadValue(n: nat, width: nat)
    ensures DigitsValue(ZeroPad(n, width)) == n
  {
    var d := NatToString(n);
    NatToStringValue(n);
    if |d| < width {
      var z := Zeros(width - |d|);
      DigitsValueConcat(z, d);
      ZerosValue(width - |d|);
      assert ZeroPad(n, width) == z + d;
    } else {
      assert ZeroPad(n, width) == d;
    }
  }

  /** Below 10^width, zero padding gives exactly `width` digits. */
  lemma ZeroPadLength(n: nat, width: nat)
    requires 0 < width && n < Pow10(width)
    ensures |ZeroPad(n, width)| == width
  {
    NatToStringLength(n, width);
  }

  /** Round to the nearest integer, ties to the even one (Python's rounding rule). */
  function RoundHalfEven(v: real): (r: int)
    ensures Abs(v - r as real) <= 0.5
    ensures v >= 0.0 ==> r >= 0
  {
    var f := v.Floor;
    var frac := v - f as real;
    if frac < 0.5 then f
    else if frac > 0.5 then f + 1
    else if f % 2 == 0 then f else f + 1
  }

  lemma MulNonNegative(a: real, b: real)
    requires a >= 0.0 && b >= 0.0
    ensures a * b >= 0.0
  {
  }

  lemma DivModNonNegative(n: nat, p: nat)
    requires p >= 1
    ensures n / p >= 0 && 0 <= n % p < p
  {
  }

  const Scale8: real := 100000000.0

  /** Python `round(v, 8)`, taken on the exact value. */
  function Round8(v: real): (r: real)
    ensures Abs(v - r) <= 0.000000005
  {
    RoundHalfEven(v * Scale8) as real / Scale8
  }

  /** `|x| * 10^digits` rounded half to even. */
  function RoundedScaled(x: real, digits: nat): nat {
    var scaled := Abs(x) * Pow10(digits) as real;
    MulNonNegative(Abs(x), Pow10(digits) as real);
    RoundHalfEven(scaled)
  }

  /**
   * Python `format(x, '.{digits}f')`: sign, integer part, and `digits`
   * decimals of the value rounded half to even.
   */
  function Fixed(x: real, digits: nat): (s: string)
    ensures s != []
  {
    var n := RoundedScaled(x, digits);
    var p := Pow10(digits);
    DivModNonNegative(n, p);
    var ip: nat := n / p;
    var fp: nat := n % p;
    (if x < 0.0 then "-" else "") + NatToString(ip) + (if digits == 0 then "" else "." + ZeroPad(fp, digits))
  }

  /** `Fixed` writes only digits, a dot and a leading minus sign; a non-negative value starts with a digit. */
  lemma FixedShape(x: real, digits: nat)
    ensures forall c :: c in Fixed(x, digits) ==> IsDigit(c) || c == '.' || c == '-'
    ensures x >= 0.0 ==> IsDigit(Fixed(x, digits)[0])
    ensures x < 0.0 ==> Fixed(x, digits)[0] == '-' && IsDigit(Fixed(x, digits)[1])
  {
  }

  // ---------------------------------------------------------------------
  // repr of a float that is a multiple of 10^-8 (what round(v, 8) returns)
  // ---------------------------------------------------------------------

  /** `m == k * 10^t` with `k` not divisible by ten. */
  function StripTrailingZeros(m: nat): (r: (nat, nat))
    requires m > 0
    ensures r.0 > 0 && r.0 % 10 != 0 && m == r.0 * Pow10(r.1)
    decreases m
  {
    if m % 10 != 0 then (m, 0)
    else
      var r := StripTrailingZeros(m / 10);
      (r.0, r.1 + 1)
  }

  /** Positional notation of `digits * 10^e`, with at least one decimal (".0" added when none). */
  function Positional(digits: string, e: int): string
    requires digits != []
  {
    if e >= 0 then digits + Zeros(e) + ".0"
    else if |digits| + e > 0 then digits[..|digits| + e] + "." + digits[|digits| + e..]
    else "0." + Zeros(-(|digits| + e)) + digits
  }

  /** The leading digit, then the point and the other digits if there are any. */
  function LeadingMantissa(digits: string): string
    requires digits != []
  {
    if |digits| > 1 then [digits[0]] + "." + digits[1..] else digits
  }

  /** The exponent `repr` writes after 'e': a sign and at least two digits. */
  function ExponentDigits(x: int): string {
    (if x < 0 then "-" else "+") + ZeroPad(if x < 0 then -x else x, 2)
  }

  /** Scientific notation `d[.ddd]e±XX` with the decimal exponent `x` of the leading digit. */
  function Scientific(digits: string, x: int): string
    requires digits != []
  {
    LeadingMantissa(digits) + "e" + ExponentDigits(x)
  }

  /** Python `repr` of the positive float `m / 10^8`. */
  function ReprPositive(m: nat): string
    requires m > 0
  {
    var r := StripTrailingZeros(m);
    ReprDigits(r.0, r.1 as int - 8)
  }

  /**
   * The text of `k * 10^e` for significant digits `k`: positional when the
   * decimal exponent of the leading digit lies in [-4, 16), scientific otherwise.
   */
  function ReprDigits(k: nat, e: int): string
    requires k > 0
  {
    var d := NatToString(k);
    var x := |d| - 1 + e;
    if -4 <= x < 16 then Positional(d, e) else Scientific(d, x)
  }

  /** Python `repr` (and `str`) of the float `n / 10^8`. */
  function ReprScaled(n: int): string {
    if n == 0 then "0.0"
    else if n < 0 then "-" + ReprPositive(-n)
    else ReprPositive(n)
  }

  // ---------------------------------------------------------------------
  // str of an int
  // ---------------------------------------------------------------------

  /** Python `str` (and `repr`) of an int: its digits, after '-' when it is negative. */
  function IntToString(i: int): string {
    if i < 0 then "-" + NatToString(-i) else NatToString(i)
  }

  // ---------------------------------------------------------------------
  // float(text)
  // ---------------------------------------------------------------------

  /** First 'e' or 'E', or -1. */
  function IndexOfExponent(s: string): (i: int)
    ensures -1 <= i < |s|
    ensures 0 <= i ==> (s[i] == 'e' || s[i] == 'E') && 'e' !in s[..i] && 'E' !in s[..i]
    ensures i == -1 ==> 'e' !in s && 'E' !in s
  {
    var a := IndexOf(s, 'e');
    var b := IndexOf(s, 'E');
    if a < 0 then b
    else if b < 0 then a
    else if a < b then (assert s[..a] == s[..b][..a]; a) else (assert s[..b] == s[..a][..b]; b)
  }

  /** The digits before and after the decimal point of a mantissa such as "12", "1.5", "5." or ".5". */
  function ParseMantissa(s: string): (r: Option<(string, string)>)
    ensures r.Some? ==> AllDigits(r.value.0) && AllDigits(r.value.1)
  {
    var dot := IndexOf(s, '.');
    var ip := if dot < 0 then s else s[..dot];
    var fp := if dot < 0 then [] else s[dot + 1..];
    if AllDigits(ip) && AllDigits(fp) && (ip != [] || fp != []) then Some((ip, fp)) else None
  }

  /** The exponent after 'e': an optional sign and at least one digit. */
  function ParseExponent(s: string): Option<int> {
    var neg := s != [] && s[0] == '-';
    var body := if s != [] && (s[0] == '-' || s[0] == '+') then s[1..] else s;
    if body != [] && AllDigits(body) then
      var v: int := DigitsValue(body);
      Some(if neg then -v else v)
    else None
  }

  /** An exact decimal number as read from text: `digits * 10^exponent`. */
  datatype Scaled = Scaled(digits: nat, exponent: int)

  /** The number `digits * 10^e`. */
  function Decimal(digits: nat, e: int): real {
    if e >= 0 then (digits * Pow10(e)) as real else digits as real / Pow10(-e) as real
  }

  /** An unsigned decimal literal: mantissa and optional exponent. */
  function ParseDecimal(body: string): Option<Scaled> {
    var ePos := IndexOfExponent(body);
    if ePos < 0 then Combine(ParseMantissa(body), Some(0))
    else Combine(ParseMantissa(body[..ePos]), ParseExponent(body[ePos + 1..]))
  }

  /** The number a mantissa and an exponent denote together. */
  function Combine(mant: Option<(string, string)>, exp: Option<int>): Option<Scaled>
    requires mant.Some? ==> AllDigits(mant.value.0) && AllDigits(mant.value.1)
  {
    if mant.None? || exp.None? then None
    else Some(Scaled(MantissaValue(mant.value.0, mant.value.1), exp.value - |mant.value.1|))
  }

  /** The integer the mantissa digits denote once the point is dropped. */
  function MantissaValue(ip: string, fp: string): nat
    requires AllDigits(ip) && AllDigits(fp)
  {
    DigitsValueConcat(ip, fp);
    DigitsValue(ip + fp)
  }

  /** The value of an unsigned decimal literal. */
  function ParseUnsigned(body: string): Option<real> {
    var p := ParseDecimal(body);
    if p.None? then None else Some(Decimal(p.value.digits, p.value.exponent))
  }

  /**
   * Python `float(text)` for decimal literals: surrounding white space, an
   * optional sign, a mantissa with an optional point and an optional
   * exponent. Anything else is a ValueError (None).
   */
  function ParseFloat(text: string): Option<real> {
    var t := Strip(text);
    if t != [] && t[0] == '-' then
      var u := ParseUnsigned(t[1..]);
      if u.None? then None else Some(-u.value)
    else
      ParseUnsigned(if t != [] && t[0] == '+' then t[1..] else t)
  }

  // ---------------------------------------------------------------------
  // float(repr(x)) == x
  // ---------------------------------------------------------------------

  lemma MulAssociative(x: int, y: int, z: int)
    ensures x * (y * z) == x * y * z
  {
  }

  lemma CancelNat(x: nat, y: nat)
    requires y > 0
    ensures (x * y) as real / y as real == x as real
  {
  }

  lemma CancelCommonNat(x: nat, y: nat, z: nat)
    requires y > 0 && z > 0
    ensures (x * y) as real / (y * z) as real == x as real / z as real
  {
    assert (x * y) as real == x as real * y as real;
    assert (y * z) as real == y as real * z as real;
  }

  lemma DecimalScaleWhole(d: nat, j: nat, e: int)
    requires e - j >= 0
    ensures Decimal(d * Pow10(j), e - j) == Decimal(d, e)
  {
    Pow10Add(j, e - j);
    MulAssociative(d, Pow10(j), Pow10(e - j));
  }

  lemma DecimalScaleCrossing(d: nat, j: nat, e: int)
    requires e - j < 0 && e >= 0
    ensures Decimal(d * Pow10(j), e - j) == Decimal(d, e)
  {
    var a, b := Pow10(e), Pow10(j - e);
    Pow10Add(e, j - e);
    assert Pow10(j) == a * b;
    var x := d * a;
    MulAssociative(d, a, b);
    assert d * Pow10(j) == x * b;
    CancelNat(x, b);
    assert Decimal(d * Pow10(j), e - j) == (x * b) as real / b as real;
    assert Decimal(d, e) == x as real;
  }

  lemma DecimalScaleFraction(d: nat, j: nat, e: int)
    requires e < 0
    ensures Decimal(d * Pow10(j), e - j) == Decimal(d, e)
  {
    Pow10Add(j, -e);
    CancelCommonNat(d, Pow10(j), Pow10(-e));
  }

  /** Appending `j` zeros to the digits and moving the exponent down by `j` keeps the value. */
  lemma DecimalScale(d: nat, j: nat, e: int)
    ensures Decimal(d * Pow10(j), e - j) == Decimal(d, e)
  {
    if e - j >= 0 {
      DecimalScaleWhole(d, j, e);
    } else if e >= 0 {
      DecimalScaleCrossing(d, j, e);
    } else {
      DecimalScaleFraction(d, j, e);
    }
  }

  /** `k * 10^t / 10^8 == k * 10^(t - 8)`. */
  lemma ScaledValue(k: nat, t: nat)
    ensures (k * Pow10(t)) as real / Scale8 == Decimal(k, t - 8)
  {
    assert Pow10(8) == 100000000;
    DecimalScale(k, t, t - 8);
  }

  lemma DigitsHaveNoMarks(s: string)
    requires AllDigits(s)
    ensures '.' !in s && 'e' !in s && 'E' !in s && '-' !in s && '+' !in s
  {
  }

  lemma MantissaWithPoint(ip: string, fp: string)
    requires AllDigits(ip) && AllDigits(fp) && (ip != [] || fp != [])
    ensures ParseMantissa(ip + "." + fp).Some? && ParseMantissa(ip + "." + fp).value == (ip, fp)
    ensures 'e' !in ip + "." + fp && 'E' !in ip + "." + fp
  {
    var s := ip + "." + fp;
    DigitsHaveNoMarks(ip);
    DigitsHaveNoMarks(fp);
    assert s[..|ip|] == ip;
    assert s[|ip|] == '.';
    assert IndexOf(s, '.') == |ip|;
    assert s[|ip| + 1..] == fp;
  }

  lemma MantissaWithoutPoint(ip: string)
    requires AllDigits(ip) && ip != []
    ensures ParseMantissa(ip).Some? && ParseMantissa(ip).value == (ip, [])
  {
    DigitsHaveNoMarks(ip);
  }

  /** A mantissa without exponent. */
  lemma ParsePlain(m: string, ip: string, fp: string)
    requires ParseMantissa(m).Some? && ParseMantissa(m).value == (ip, fp) && 'e' !in m && 'E' !in m
    ensures AllDigits(ip + fp)
    ensures ParseDecimal(m).Some? && ParseDecimal(m).value == Scaled(MantissaValue(ip, fp), -|fp|)
  {
    DigitsValueConcat(ip, fp);
  }

  /** A mantissa followed by 'e' and an exponent. */
  lemma ParseWithExponent(m: string, ip: string, fp: string, x: string, xv: int)
    requires ParseMantissa(m).Some? && ParseMantissa(m).value == (ip, fp) && 'e' !in m && 'E' !in m
    requires ParseExponent(x).Some? && ParseExponent(x).value == xv
    ensures AllDigits(ip + fp)
    ensures ParseDecimal(m + "e" + x).Some?
    ensures ParseDecimal(m + "e" + x).value == Scaled(MantissaValue(ip, fp), xv - |fp|)
  {
    DigitsValueConcat(ip, fp);
    ExponentSplit(m, x);
    ParseDecimalParts(m + "e" + x, |m|, ip, fp, xv);
  }

  /** Where the exponent of `m + "e" + x` starts. */
  lemma ExponentSplit(m: string, x: string)
    requires 'e' !in m && 'E' !in m && ParseExponent(x).Some?
    ensures var s := m + "e" + x;
      IndexOfExponent(s) == |m| && s[..|m|] == m && s[|m| + 1..] == x
  {
    var s := m + "e" + x;
    assert s == m + ['e'] + x;
    IndexOfFirst(m, 'e', x);
    assert 'E' !in x by {
      var body := if x != [] && (x[0] == '-' || x[0] == '+') then x[1..] else x;
      assert AllDigits(body);
      DigitsHaveNoMarks(body);
    }
    assert 'E' !in s;
    assert s[..|m|] == m;
    assert s[|m| + 1..] == x;
  }

  lemma ParseDecimalParts(s: string, k: int, ip: string, fp: string, xv: int)
    requires 0 <= k < |s| && IndexOfExponent(s) == k
    requires ParseMantissa(s[..k]).Some? && ParseMantissa(s[..k]).value == (ip, fp)
    requires ParseExponent(s[k + 1..]).Some? && ParseExponent(s[k + 1..]).value == xv
    ensures ParseDecimal(s).Some? && ParseDecimal(s).value == Scaled(MantissaValue(ip, fp), xv - |fp|)
  {
    var mant := ParseMantissa(s[..k]);
    var exp := ParseExponent(s[k + 1..]);
    assert ParseDecimal(s) == Combine(mant, exp);
  }

  lemma ExponentText(x: int)
    ensures ParseExponent(ExponentDigits(x)).Some? && ParseExponent(ExponentDigits(x)).value == x
  {
    var a: nat := if x < 0 then -x else x;
    var s := (if x < 0 then "-" else "+") + ZeroPad(a, 2);
    ZeroPadValue(a, 2);
    assert s[1..] == ZeroPad(a, 2);
  }

  lemma ParsePositionalWhole(k: nat, e: nat)
    requires k > 0
    ensures var s := Positional(NatToString(k), e);
      ParseDecimal(s).Some? && ParseDecimal(s).value == Scaled(Shift(k, e + 1), -1)
  {
    var d := NatToString(k);
    var ip := d + Zeros(e);
    var s := Positional(d, e);
    assert s == ip + "." + "0";
    PaddedValue(k, e);
    MantissaWithPoint(ip, "0");
    ParsePlain(s, ip, "0");
  }

  /** The number `k` with `j` zeros appended. */
  function Shift(k: nat, j: nat): nat {
    k * Pow10(j)
  }

  /** The digits of `k` followed by `e + 1` zeros. */
  lemma PaddedValue(k: nat, e: nat)
    ensures AllDigits(NatToString(k) + Zeros(e) + "0")
    ensures DigitsValue(NatToString(k) + Zeros(e) + "0") == k * Pow10(e + 1)
  {
    var d := NatToString(k);
    NatToStringValue(k);
    var ip := d + Zeros(e);
    DigitsValueConcat(d, Zeros(e));
    ZerosValue(e);
    assert DigitsValue(ip) == k * Pow10(e);
    DigitsValueConcat(ip, "0");
    assert DigitsValue("0") == 0;
    assert DigitsValue(ip + "0") == k * Pow10(e) * 10;
    MulAssociative(k, Pow10(e), 10);
  }

  lemma ParsePositionalSplit(k: nat, e: int)
    requires k > 0 && e < 0 && |NatToString(k)| + e > 0
    ensures ParseDecimal(Positional(NatToString(k), e)).Some? && ParseDecimal(Positional(NatToString(k), e)).value == Scaled(k, e)
  {
    var d := NatToString(k);
    NatToStringValue(k);
    var p := |d| + e;
    var ip, fp := d[..p], d[p..];
    assert ip + fp == d;
    MantissaWithPoint(ip, fp);
    ParsePlain(ip + "." + fp, ip, fp);
  }

  lemma ParsePositionalSmall(k: nat, e: int)
    requires k > 0 && e < 0 && |NatToString(k)| + e <= 0
    ensures ParseDecimal(Positional(NatToString(k), e)).Some? && ParseDecimal(Positional(NatToString(k), e)).value == Scaled(k, e)
  {
    var d := NatToString(k);
    var q := -(|d| + e);
    var fp := Zeros(q) + d;
    var s := Positional(d, e);
    assert s == "0" + "." + fp;
    LeadingZerosValue(k, q);
    assert "0" + fp == "0" + Zeros(q) + d;
    MantissaWithPoint("0", fp);
    ParsePlain(s, "0", fp);
  }

  /** Zeros in front of the digits of `k` leave its value alone. */
  lemma LeadingZerosValue(k: nat, q: nat)
    ensures AllDigits(Zeros(q) + NatToString(k))
    ensures AllDigits("0" + Zeros(q) + NatToString(k))
    ensures DigitsValue("0" + Zeros(q) + NatToString(k)) == k
  {
    var d := NatToString(k);
    NatToStringValue(k);
    ZerosPrefixValue(q, d);
    ZerosPrefixValue(1, Zeros(q) + d);
    assert Zeros(1) + (Zeros(q) + d) == "0" + Zeros(q) + d;
  }

  /** Leading zeros do not change the value of a digit string. */
  lemma ZerosPrefixValue(q: nat, s: string)
    requires AllDigits(s)
    ensures AllDigits(Zeros(q) + s) && DigitsValue(Zeros(q) + s) == DigitsValue(s)
  {
    DigitsValueConcat(Zeros(q), s);
    ZerosValue(q);
  }

  /** The digits of `k * 10^e` read back through the positional form. */
  lemma ParsePositional(k: nat, e: int)
    requires k > 0
    ensures ParseUnsigned(Positional(NatToString(k), e)).Some? && ParseUnsigned(Positional(NatToString(k), e)).value == Decimal(k, e)
  {
    if e >= 0 {
      ParsePositionalWhole(k, e);
      DecimalScale(k, e + 1, e);
    } else if |NatToString(k)| + e > 0 {
      ParsePositionalSplit(k, e);
    } else {
      ParsePositionalSmall(k, e);
    }
  }

  lemma ParseScientificLong(k: nat, x: int)
    requires k > 0 && |NatToString(k)| > 1
    ensures var d := NatToString(k);
      ParseDecimal(Scientific(d, x)).Some? && ParseDecimal(Scientific(d, x)).value == Scaled(k, x - (|d| - 1))
  {
    NatToStringValue(k);
    ParseScientificDigits(NatToString(k), x);
  }

  /** Scientific notation of at least two digits reads back as those digits, scaled. */
  lemma ParseScientificDigits(d: string, x: int)
    requires AllDigits(d) && |d| > 1
    ensures ParseDecimal(Scientific(d, x)).Some? && ParseDecimal(Scientific(d, x)).value == Scaled(DigitsValue(d), x - (|d| - 1))
  {
    ExponentText(x);
    MantissaWithPoint([d[0]], d[1..]);
    ScientificSplit(d, x);
    ParseWithExponent([d[0]] + "." + d[1..], [d[0]], d[1..], ExponentDigits(x), x);
  }

  /** The scientific text is the leading digit, a point, the other digits, 'e' and the exponent. */
  lemma ScientificSplit(d: string, x: int)
    requires |d| > 1
    ensures Scientific(d, x) == ([d[0]] + "." + d[1..]) + "e" + ExponentDigits(x)
    ensures [d[0]] + d[1..] == d
  {
  }

  lemma ParseScientificShort(k: nat, x: int)
    requires k > 0 && |NatToString(k)| == 1
    ensures var d := NatToString(k);
      ParseDecimal(Scientific(d, x)).Some? && ParseDecimal(Scientific(d, x)).value == Scaled(k, x - (|d| - 1))
  {
    var d := NatToString(k);
    NatToStringValue(k);
    var xs := ExponentDigits(x);
    ExponentText(x);
    MantissaWithoutPoint(d);
    DigitsHaveNoMarks(d);
    assert d + [] == d;
    ParseWithExponent(d, d, [], xs, x);
  }

  /** The digits of `k * 10^(x - |digits| + 1)` read back through the scientific form. */
  lemma ParseScientific(k: nat, x: int)
    requires k > 0
    ensures var d := NatToString(k);
      ParseDecimal(Scientific(d, x)).Some? && ParseDecimal(Scientific(d, x)).value == Scaled(k, x - (|d| - 1))
  {
    if |NatToString(k)| > 1 {
      ParseScientificLong(k, x);
    } else {
      ParseScientificShort(k, x);
    }
  }

  lemma ParseReprDigits(k: nat, e: int)
    requires k > 0
    ensures ParseUnsigned(ReprDigits(k, e)).Some? && ParseUnsigned(ReprDigits(k, e)).value == Decimal(k, e)
  {
    var d := NatToString(k);
    var x := |d| - 1 + e;
    if -4 <= x < 16 {
      ParseReprPositional(k, e);
    } else {
      ParseReprScientific(k, e);
    }
  }

  lemma ParseReprPositional(k: nat, e: int)
    requires k > 0 && -4 <= |NatToString(k)| - 1 + e < 16
    ensures ParseUnsigned(ReprDigits(k, e)).Some? && ParseUnsigned(ReprDigits(k, e)).value == Decimal(k, e)
  {
    var s := ReprDigits(k, e);
    assert s == Positional(NatToString(k), e);
    ParsePositional(k, e);
  }

  lemma ParseReprScientific(k: nat, e: int)
    requires k > 0 && !(-4 <= |NatToString(k)| - 1 + e < 16)
    ensures ParseUnsigned(ReprDigits(k, e)).Some? && ParseUnsigned(ReprDigits(k, e)).value == Decimal(k, e)
  {
    var d := NatToString(k);
    var x := |d| - 1 + e;
    var s := ReprDigits(k, e);
    assert s == Scientific(d, x);
    ParseScientific(k, x);
    assert ParseDecimal(s).value == Scaled(k, e);
  }

  lemma ParseReprPositive(m: nat)
    requires m > 0
    ensures ParseUnsigned(ReprPositive(m)).Some? && ParseUnsigned(ReprPositive(m)).value == m as real / Scale8
  {
    var r := StripTrailingZeros(m);
    assert ReprPositive(m) == ReprDigits(r.0, r.1 as int - 8);
    ParseReprDigits(r.0, r.1 as int - 8);
    ScaledValue(r.0, r.1);
    assert m as real / Scale8 == (r.0 * Pow10(r.1)) as real / Scale8;
  }

  /** The characters `repr` writes: digits, '.', 'e' and signs; it starts and ends with a digit. */
  predicate ReprText(s: string) {
    s != [] && IsDigit(s[0]) && IsDigit(s[|s| - 1])
    && forall i :: 0 <= i < |s| ==> IsDigit(s[i]) || s[i] in ".e+-"
  }

  lemma PositionalShape(d: string, e: int)
    requires d != [] && AllDigits(d)
    ensures ReprText(Positional(d, e))
  {
    var s := Positional(d, e);
    if e >= 0 {
      assert s == d + Zeros(e) + ".0";
    } else if |d| + e > 0 {
      assert s == d[..|d| + e] + "." + d[|d| + e..];
    } else {
      assert s == "0." + Zeros(-(|d| + e)) + d;
    }
  }

  lemma ScientificShape(d: string, x: int)
    requires d != [] && AllDigits(d)
    ensures ReprText(Scientific(d, x))
  {
    MantissaShape(d);
    ExponentShape(x);
    ReprJoin(LeadingMantissa(d), ExponentDigits(x));
  }

  lemma MantissaShape(d: string)
    requires d != [] && AllDigits(d)
    ensures var m := LeadingMantissa(d);
      m != [] && IsDigit(m[0]) && forall i :: 0 <= i < |m| ==> IsDigit(m[i]) || m[i] == '.'
  {
    if |d| > 1 {
      var m := [d[0]] + "." + d[1..];
      assert forall i :: 2 <= i < |m| ==> m[i] == d[i - 1];
    }
  }

  lemma ExponentShape(x: int)
    ensures var s := ExponentDigits(x);
      s != [] && IsDigit(s[|s| - 1]) && forall i :: 0 <= i < |s| ==> IsDigit(s[i]) || s[i] == '-' || s[i] == '+'
  {
    var z := ZeroPad(if x < 0 then -x else x, 2);
    var s := ExponentDigits(x);
    assert forall i :: 1 <= i < |s| ==> s[i] == z[i - 1];
  }

  /** A mantissa and an exponent of `repr`'s characters, joined by 'e'. */
  lemma ReprJoin(m: string, x: string)
    requires m != [] && IsDigit(m[0]) && forall i :: 0 <= i < |m| ==> IsDigit(m[i]) || m[i] == '.'
    requires x != [] && IsDigit(x[|x| - 1]) && forall i :: 0 <= i < |x| ==> IsDigit(x[i]) || x[i] == '-' || x[i] == '+'
    ensures ReprText(m + "e" + x)
  {
    var s := m + "e" + x;
    forall i | 0 <= i < |s|
      ensures IsDigit(s[i]) || s[i] in ".e+-"
    {
      if i < |m| {
        assert s[i] == m[i];
      } else if i > |m| {
        assert s[i] == x[i - |m| - 1];
      }
    }
    assert s[0] == m[0] && s[|s| - 1] == x[|x| - 1];
  }

  lemma ReprPositiveShape(m: nat)
    requires m > 0
    ensures ReprText(ReprPositive(m))
  {
    var r := StripTrailingZeros(m);
    var d := NatToString(r.0);
    var e := r.1 as int - 8;
    var x := |d| - 1 + e;
    if -4 <= x < 16 {
      PositionalShape(d, e);
    } else {
      ScientificShape(d, x);
    }
  }

  /** Text without surrounding space that starts with a digit is read as unsigned. */
  lemma ParseFloatUnsigned(s: string)
    requires s != [] && IsDigit(s[0]) && IsDigit(s[|s| - 1])
    ensures ParseFloat(s) == ParseUnsigned(s)
  {
    StripUnchanged(s);
  }

  /** Text without surrounding space that starts with '-' is read as the negated rest. */
  lemma ParseFloatNegative(s: string)
    requires |s| > 1 && s[0] == '-' && IsDigit(s[|s| - 1])
    ensures ParseUnsigned(s[1..]).Some? ==>
      ParseFloat(s).Some? && ParseFloat(s).value == -ParseUnsigned(s[1..]).value
  {
    StripUnchanged(s);
  }

  lemma ParseUnsignedZero()
    ensures ParseUnsigned("0.0").Some? && ParseUnsigned("0.0").value == 0.0
  {
    MantissaWithPoint("0", "0");
    ParsePlain("0" + "." + "0", "0", "0");
    DoubleZeroValue();
    assert "0" + "." + "0" == "0.0";
  }

  lemma DoubleZeroValue()
    ensures MantissaValue("0", "0") == 0
  {
    assert "0" + "0" == "00";
    assert DigitsValue("00") == DigitsValue("0") * 10 + DigitValue('0');
  }

  lemma ParseReprZero()
    ensures ParseFloat(ReprScaled(0)).Some? && ParseFloat(ReprScaled(0)).value == 0.0
  {
    ParseUnsignedZero();
    ParseFloatUnsigned("0.0");
  }

  lemma ParseReprAbove(n: int)
    requires n > 0
    ensures ParseFloat(ReprScaled(n)).Some? && ParseFloat(ReprScaled(n)).value == n as real / Scale8
  {
    ReprPositiveShape(n);
    ParseFloatUnsigned(ReprPositive(n));
    ParseReprPositive(n);
  }

  lemma ParseReprBelow(n: int)
    requires n < 0
    ensures ParseFloat(ReprScaled(n)).Some? && ParseFloat(ReprScaled(n)).value == n as real / Scale8
  {
    var m := -n;
    var r := ReprPositive(m);
    assert ReprScaled(n) == "-" + r;
    assert ReprText(r) && ParseUnsigned(r).Some? && ParseUnsigned(r).value == m as real / Scale8 by {
      ReprPositiveShape(m);
      ParseReprPositive(m);
    }
    ParseNegatedText(r, m as real / Scale8);
  }

  /** A minus sign before a positive `repr` text negates what it reads as. */
  lemma ParseNegatedText(r: string, v: real)
    requires ReprText(r) && ParseUnsigned(r).Some? && ParseUnsigned(r).value == v
    ensures ParseFloat("-" + r).Some? && ParseFloat("-" + r).value == -v
  {
    var s := "-" + r;
    assert s[1..] == r && s[|s| - 1] == r[|r| - 1];
    ParseFloatNegative(s);
  }

  /** The text of a float reads back as the same number: `float(repr(x)) == x`. */
  lemma ParseRepr(n: int)
    ensures ParseFloat(ReprScaled(n)).Some? && ParseFloat(ReprScaled(n)).value == n as real / Scale8
  {
    if n == 0 {
      ParseReprZero();
    } else if n > 0 {
      ParseReprAbove(n);
    } else {
      ParseReprBelow(n);
    }
  }

  /** A number as `repr` writes it: a digit or a minus sign and a digit first, no white space at either end, no '*'. */
  predicate SignedNumberText(s: string) {
    s != [] && (IsDigit(s[0]) || (s[0] == '-' && |s| > 1 && IsDigit(s[1])))
    && !IsSpace(s[0]) && !IsSpace(s[|s| - 1]) && '*' !in s
  }

  /** `repr` writes neither white space nor '*', and starts with a digit or a minus sign followed by a digit. */
  lemma ReprShape(n: int)
    ensures SignedNumberText(ReprScaled(n))
  {
    if n > 0 {
      ReprShapeAbove(n);
    } else if n < 0 {
      ReprShapeBelow(n);
    }
  }

  lemma ReprShapeAbove(n: int)
    requires n > 0
    ensures SignedNumberText(ReprScaled(n))
  {
    PositiveReprShape(n, ReprScaled(n));
  }

  lemma ReprShapeBelow(n: int)
    requires n < 0
    ensures SignedNumberText(ReprScaled(n))
  {
    NegativeReprShape(-n, ReprScaled(n));
  }

  lemma PositiveReprShape(m: nat, s: string)
    requires m > 0 && s == ReprPositive(m)
    ensures SignedNumberText(s)
  {
    ReprPositiveShape(m);
    PlainShape(s);
  }

  lemma NegativeReprShape(m: nat, s: string)
    requires m > 0 && s == "-" + ReprPositive(m)
    ensures SignedNumberText(s)
  {
    ReprPositiveShape(m);
    NegatedShape(ReprPositive(m));
  }

  lemma PlainShape(r: string)
    requires ReprText(r)
    ensures SignedNumberText(r)
  {
  }

  lemma NegatedShape(r: string)
    requires ReprText(r)
    ensures SignedNumberText("-" + r)
  {
    var s := "-" + r;
    assert s[1] == r[0] && s[|s| - 1] == r[|r| - 1];
    assert forall i :: 1 <= i < |s| ==> s[i] == r[i - 1];
  }

  // ---------------------------------------------------------------------
  // whole numbers: str of an int against repr of the same value as a float
  // ---------------------------------------------------------------------

  lemma Pow10Sixteen()
    ensures Pow10(16) == 10000000000000000
  {
    assert Pow10(8) == 100000000;
    Pow10Add(8, 8);
  }

  /** One more power of ten is one more factor ten. */
  lemma TimesPow10Succ(k: nat, j: nat)
    requires j > 0
    ensures k * Pow10(j) == (k * Pow10(j - 1)) * 10
  {
    MulAssociative(k, 10, Pow10(j - 1));
  }

  /** The digits of `k * 10^j` are those of `k` followed by `j` zeros. */
  lemma {:induction false} NatToStringShift(k: nat, j: nat)
    requires k > 0
    ensures NatToString(k * Pow10(j)) == NatToString(k) + Zeros(j)
    decreases j
  {
    if j > 0 {
      var m := k * Pow10(j - 1);
      NatToStringShift(k, j - 1);
      TimesPow10Succ(k, j);
      NatToStringTimesTen(m);
      assert Zeros(j) == Zeros(j - 1) + "0";
    }
  }

  lemma NatToStringTimesTen(m: nat)
    requires m > 0
    ensures NatToString(m * 10) == NatToString(m) + "0"
  {
    assert (m * 10) / 10 == m && (m * 10) % 10 == 0;
  }

  /** The trailing zeros of `k * 10^j` are those of `k` and `j` more. */
  lemma {:induction false} StripTrailingZerosShift(k: nat, j: nat)
    requires k > 0
    ensures k * Pow10(j) > 0
    ensures StripTrailingZeros(k * Pow10(j)) == (StripTrailingZeros(k).0, StripTrailingZeros(k).1 + j)
    decreases j
  {
    if j > 0 {
      var m := k * Pow10(j - 1);
      StripTrailingZerosShift(k, j - 1);
      TimesPow10Succ(k, j);
      StripTrailingZerosTimesTen(m);
    }
  }

  lemma StripTrailingZerosTimesTen(m: nat)
    requires m > 0
    ensures StripTrailingZeros(m * 10) == (StripTrailingZeros(m).0, StripTrailingZeros(m).1 + 1)
  {
    assert (m * 10) % 10 == 0 && (m * 10) / 10 == m;
  }

  /** `repr` of a positive whole float below 10^16 is the int's digits followed by ".0". */
  lemma ReprPositiveWhole(n: nat)
    requires 0 < n < Pow10(16)
    ensures n * Pow10(8) > 0
    ensures ReprPositive(n * Pow10(8)) == NatToString(n) + ".0"
  {
    var r := StripTrailingZeros(n);
    StripTrailingZerosShift(n, 8);
    var d := NatToString(r.0);
    NatToStringShift(r.0, r.1);
    NatToStringLength(n, 16);
    assert ReprDigits(r.0, r.1 as int) == d + Zeros(r.1) + ".0";
  }

  /**
   * `repr` of a whole float of magnitude below 10^16 is `str` of the int
   * with the same value followed by ".0".
   */
  lemma ReprOfWhole(i: int)
    requires -(Pow10(16) as int) < i < Pow10(16)
    ensures ReprScaled(i * Pow10(8)) == IntToString(i) + ".0"
  {
    if i > 0 {
      ReprPositiveWhole(i);
    } else if i < 0 {
      NegatedProduct(i, Pow10(8));
      ReprNegativeWhole(-i, i * Pow10(8));
      assert IntToString(i) == "-" + NatToString(-i);
    }
  }

  lemma ReprNegativeWhole(n: nat, m: int)
    requires 0 < n < Pow10(16) && m == -(n * Pow10(8))
    ensures ReprScaled(m) == "-" + NatToString(n) + ".0"
  {
    ReprPositiveWhole(n);
    assert ReprScaled(m) == "-" + ReprPositive(n * Pow10(8));
  }

  lemma NegatedProduct(a: int, b: int)
    ensures a * b == -((-a) * b)
  {
  }

  /** `float(str(i))` is `i`. */
  lemma ParseIntText(i: int)
    ensures ParseFloat(IntToString(i)).Some? && ParseFloat(IntToString(i)).value == i as real
  {
    if i < 0 {
      ParseNegativeIntText(i);
    } else {
      ParseNatText(i);
      ParseFloatUnsigned(NatToString(i));
    }
  }

  lemma ParseNegativeIntText(i: int)
    requires i < 0
    ensures ParseFloat(IntToString(i)).Some? && ParseFloat(IntToString(i)).value == i as real
  {
    var m: nat := -i;
    var r := NatToString(m);
    assert IntToString(i) == "-" + r;
    assert ReprText(r) && ParseUnsigned(r).Some? && ParseUnsigned(r).value == m as real by {
      ParseNatText(m);
    }
    ParseNegatedText(r, m as real);
  }

  lemma ParseNatText(n: nat)
    ensures ParseUnsigned(NatToString(n)) == Some(n as real)
  {
    var d := NatToString(n);
    DigitsHaveNoMarks(d);
    MantissaWithoutPoint(d);
    ParsePlain(d, d, []);
    assert d + [] == d;
    NatToStringValue(n);
    assert ParseDecimal(d) == Some(Scaled(n, 0));
  }

  /** `str` of an int is a signed number text, as `repr` of a float is. */
  lemma IntTextShape(i: int)
    ensures SignedNumberText(IntToString(i))
  {
    var d := NatToString(if i < 0 then -i else i);
    assert ReprText(d);
    if i < 0 {
      NegatedShape(d);
    } else {
      PlainShape(d);
    }
  }
}
