/** `System.Decimal` as a 96-bit magnitude with a sign and a power-of-ten
    scale between 0 and 28, and the few operations on it that the wallet
    uses: parsing an integer's text, dividing and multiplying by a power of
    ten, and formatting with `ToString()` and `ToString("G29")`. */
module Decimals {
  import opened Wrappers
  import opened Exceptions
  import opened Numerals

  /** 2^96 - 1: the largest magnitude a decimal holds. */
  const MaxMagnitude: int := 79228162514264337593543950335
  const MaxScale: nat := 28

  /** The number `mantissa / 10^scale`. The scale is part of the value's
      identity in .NET: 1.0 and 1 are equal numbers printed differently. */
  datatype Decimal = Decimal(mantissa: int, scale: nat)

  predicate Valid(d: Decimal) {
    -MaxMagnitude <= d.mantissa <= MaxMagnitude && d.scale <= MaxScale
  }

  function Value(d: Decimal): real {
    Scaled(d.mantissa as real, d.scale)
  }

  /** `x / 10^s`, one digit at a time. */
  function Scaled(x: real, s: nat): real {
    if s == 0 then x else Scaled(x, s - 1) / 10.0
  }

  /** `x * 10^k`, one digit at a time. */
  function Shifted(x: real, k: nat): real {
    if k == 0 then x else Shifted(x, k - 1) * 10.0
  }

  function Abs(x: int): nat { if x < 0 then -x else x }

  /** Within the magnitude a decimal can hold. */
  predicate InRange(x: real) {
    -(MaxMagnitude as real) <= x <= MaxMagnitude as real
  }

  predicate IsIntegral(x: real) { x.Floor as real == x }

  /** No trailing zero digit can be dropped from the mantissa. */
  predicate IsNormal(d: Decimal) { d.scale == 0 || d.mantissa % 10 != 0 }

  lemma {:induction false} ScaledTimesTen(x: real, s: nat)
    ensures Scaled(10.0 * x, s) == 10.0 * Scaled(x, s)
  {
    if s > 0 {
      ScaledTimesTen(x, s - 1);
    }
  }

  lemma {:induction false} ShiftedOverTen(x: real, k: nat)
    ensures Shifted(x / 10.0, k) == Shifted(x, k) / 10.0
  {
    if k > 0 {
      ShiftedOverTen(x, k - 1);
    }
  }

  /** Shifting undoes scaling. */
  lemma {:induction false} ShiftedScaled(x: real, s: nat)
    ensures Shifted(Scaled(x, s), s) == x
  {
    if s > 0 {
      ShiftedScaled(x, s - 1);
      ShiftedOverTen(Scaled(x, s - 1), s - 1);
    }
  }

  /** Scaling undoes shifting. */
  lemma {:induction false} ScaledShifted(x: real, k: nat)
    ensures Scaled(Shifted(x, k), k) == x
  {
    if k > 0 {
      ScaledShifted(x, k - 1);
      ScaledTimesTen(Shifted(x, k - 1), k - 1);
      assert Shifted(x, k) == 10.0 * Shifted(x, k - 1);
    }
  }

  /** Scaling by `a + b` digits is scaling by `b` digits, then by `a`. */
  lemma {:induction false} ScaledAdd(x: real, a: nat, b: nat)
    ensures Scaled(x, a + b) == Scaled(Scaled(x, b), a)
  {
    if a > 0 {
      ScaledAdd(x, a - 1, b);
      assert a + b - 1 == (a - 1) + b;
    }
  }

  /** Scaling commutes with shifting. */
  lemma {:induction false} ScaledOfShifted(x: real, s: nat, k: nat)
    ensures Scaled(Shifted(x, k), s) == Shifted(Scaled(x, s), k)
  {
    if k > 0 {
      ScaledOfShifted(x, s, k - 1);
      ScaledTimesTen(Shifted(x, k - 1), s);
      assert Shifted(x, k) == 10.0 * Shifted(x, k - 1);
    }
  }

  /** `Shifted` on an integer is multiplication by a power of ten. */
  lemma {:induction false} ShiftedInteger(m: int, k: nat)
    ensures Shifted(m as real, k) == (m * Pow10(k)) as real
  {
    if k > 0 {
      ShiftedInteger(m, k - 1);
      ShiftPow10(m, k - 1);
    }
  }

  lemma {:induction false} ScaledBounds(x: real, s: nat)
    ensures x > 0.0 ==> 0.0 < Scaled(x, s) <= x
    ensures x == 0.0 ==> Scaled(x, s) == 0.0
    ensures x < 0.0 ==> x <= Scaled(x, s) < 0.0
  {
    if s > 0 {
      ScaledBounds(x, s - 1);
    }
  }

  lemma {:induction false} ShiftedSign(x: real, k: nat)
    ensures x < 0.0 ==> Shifted(x, k) < 0.0
    ensures x == 0.0 ==> Shifted(x, k) == 0.0
    ensures x > 0.0 ==> Shifted(x, k) > 0.0
  {
    if k > 0 {
      ShiftedSign(x, k - 1);
    }
  }

  lemma ValueTimesScale(m: int, k: nat)
    ensures Shifted(Value(Decimal(m, k)), k) == m as real
  {
    ShiftedScaled(m as real, k);
  }

  lemma ScaleStepValue(q: int, s: nat)
    ensures Value(Decimal(10 * q, s + 1)) == Value(Decimal(q, s))
  {
    ScaledTimesTen(q as real, s);
  }

  lemma MagnitudeBoundsValue(m: int, s: nat)
    requires Abs(m) <= MaxMagnitude
    ensures InRange(Value(Decimal(m, s)))
  {
    ScaledBounds(m as real, s);
  }

  lemma ValueScaleZero(d: Decimal)
    ensures d.scale == 0 ==> Value(d) == d.mantissa as real
  {
  }

  /** The sign of a decimal is the sign of its mantissa. */
  lemma ValueSign(d: Decimal)
    ensures d.mantissa < 0 ==> Value(d) < 0.0
    ensures d.mantissa == 0 ==> Value(d) == 0.0
    ensures d.mantissa > 0 ==> Value(d) > 0.0
  {
    ScaledBounds(d.mantissa as real, d.scale);
  }

  /** Appending `k` zeros to the mantissa multiplies the number by `10^k`. */
  lemma ValueOfShifted(d: Decimal, k: nat)
    ensures Value(Decimal(d.mantissa * Pow10(k), d.scale)) == Shifted(Value(d), k)
  {
    ShiftedInteger(d.mantissa, k);
    ScaledOfShifted(d.mantissa as real, d.scale, k);
  }

  /** Shifting a number of scale `s` by `k <= s` digits lowers its scale by `k`. */
  lemma ShiftedValue(m: int, s: nat, k: nat)
    requires k <= s
    ensures Shifted(Value(Decimal(m, s)), k) == Value(Decimal(m, s - k))
  {
    var j := s - k;
    ScaledAdd(m as real, k, j);
    assert k + j == s;
    ShiftedScaled(Scaled(m as real, j), k);
  }

  /** A whole number at a positive scale has a mantissa ending in zero. */
  lemma IntegralMantissaEndsInZero(m: int, s: nat)
    requires s > 0 && IsIntegral(Value(Decimal(m, s)))
    ensures m % 10 == 0
  {
    var n := Value(Decimal(m, s)).Floor;
    ShiftedScaled(m as real, s);
    ShiftedInteger(n, s);
    assert n * Pow10(s) == m;
    ShiftPow10(n, s - 1);
    assert m == 10 * (n * Pow10(s - 1));
  }

  /** A mantissa with a nonzero last digit and a positive scale denotes a
      number with a fractional part. */
  lemma NotIntegralWhenLastDigitNonzero(m: int, s: nat)
    requires s > 0 && m % 10 != 0
    ensures !IsIntegral(Value(Decimal(m, s)))
  {
    if IsIntegral(Value(Decimal(m, s))) {
      IntegralMantissaEndsInZero(m, s);
    }
  }

  /** If `10^k` times a number of scale `s > k` is whole, the mantissa ends
      in zero: the number has at most `k` significant fractional digits. */
  lemma ShiftedIntegralEndsInZero(m: int, s: nat, k: nat)
    requires k < s && IsIntegral(Shifted(Value(Decimal(m, s)), k))
    ensures m % 10 == 0
  {
    ShiftedValue(m, s, k);
    IntegralMantissaEndsInZero(m, s - k);
  }

  /** Shifting by `a + b` digits is shifting by `a`, then by `b`. */
  lemma {:induction false} ShiftedAdd(x: real, a: nat, b: nat)
    ensures Shifted(x, a + b) == Shifted(Shifted(x, a), b)
  {
    if b > 0 {
      ShiftedAdd(x, a, b - 1);
      assert a + b - 1 == a + (b - 1);
    }
  }

  /** Trailing zeros do not change the number: `m * 10^k` at scale `s + k`
      is `m` at scale `s`. */
  lemma {:induction false} ValueOfPadded(m: int, s: nat, k: nat)
    ensures Value(Decimal(m * Pow10(k), s + k)) == Value(Decimal(m, s))
  {
    if k > 0 {
      ValueOfPadded(m, s, k - 1);
      ShiftPow10(m, k - 1);
      ScaleStepValue(m * Pow10(k - 1), s + k - 1);
    }
  }

  /** Of two decimals with the same number, the one with the larger scale
      has a trailing zero. */
  lemma LargerScaleEndsInZero(a: Decimal, b: Decimal)
    requires a.scale < b.scale && Value(a) == Value(b)
    ensures b.mantissa % 10 == 0
  {
    var k := b.scale - a.scale;
    ValueTimesScale(b.mantissa, b.scale);
    ValueTimesScale(a.mantissa, a.scale);
    ShiftedAdd(Value(a), a.scale, k);
    assert a.scale + k == b.scale;
    ShiftedInteger(a.mantissa, k);
    assert b.mantissa == a.mantissa * Pow10(k);
    ShiftPow10(a.mantissa, k - 1);
    assert b.mantissa == 10 * (a.mantissa * Pow10(k - 1));
  }

  /** A number has one normal representation. */
  lemma NormalUnique(a: Decimal, b: Decimal)
    requires IsNormal(a) && IsNormal(b) && Value(a) == Value(b)
    ensures a == b
  {
    if a.scale < b.scale {
      LargerScaleEndsInZero(a, b);
    } else if b.scale < a.scale {
      LargerScaleEndsInZero(b, a);
    } else {
      ValueTimesScale(a.mantissa, a.scale);
      ValueTimesScale(b.mantissa, b.scale);
    }
  }

  /** A normal decimal is an integer exactly when its scale is zero. */
  lemma NormalIntegral(d: Decimal)
    requires IsNormal(d)
    ensures IsIntegral(Value(d)) <==> d.scale == 0
  {
    if d.scale > 0 {
      NotIntegralWhenLastDigitNonzero(d.mantissa, d.scale);
    }
  }

  /** Drops trailing zero digits, keeping the number. */
  function Normalize(d: Decimal): (r: Decimal)
    decreases d.scale
    ensures Value(r) == Value(d) && IsNormal(r)
    ensures r.scale <= d.scale && Abs(r.mantissa) <= Abs(d.mantissa)
    ensures d.scale == 0 ==> r == d
  {
    if d.scale > 0 && d.mantissa % 10 == 0 then
      var q := d.mantissa / 10;
      ScaleStepValue(q, d.scale - 1);
      Normalize(Decimal(q, d.scale - 1))
    else
      d
  }

  /** `k` digits of `n`, with leading zeros: the fractional digits of a
      decimal with scale `k`. */
  function FractionDigits(n: nat, k: nat): (s: string)
    ensures |s| == k && AllDigits(s)
  {
    if k == 0 then "" else FractionDigits(n / 10, k - 1) + [DigitChar(n % 10)]
  }

  /** `Decimal.ToString()` in the invariant culture: the integer digits and,
      when the scale is positive, a point and exactly `scale` fractional
      digits, trailing zeros included. */
  function ToText(d: Decimal): (s: string)
    ensures |s| > 0 && (s[0] == '-' <==> d.mantissa < 0)
  {
    if d.scale == 0 then
      IntegerText(d.mantissa)
    else
      var a := Abs(d.mantissa);
      var p := Pow10(d.scale);
      DivModNonnegative(a, p);
      PointText(d.mantissa < 0, a / p, a % p, d.scale)
  }

  /** An optional minus sign, the integer digits of `whole`, a point and `k`
      fractional digits of `fraction`. */
  function PointText(negative: bool, whole: nat, fraction: nat, k: nat): string {
    (if negative then "-" else "") + NatText(whole) + "." + FractionDigits(fraction, k)
  }

  /** `Decimal.ToString("G29")`: the same digits with trailing fractional
      zeros dropped. */
  function ToTextG29(d: Decimal): (s: string)
    ensures IsNormal(d) ==> s == ToText(d)
  {
    ToText(Normalize(d))
  }

  /** `BigInteger.Parse` of a decimal's text succeeds exactly when the text
      has no fractional part, and then yields the mantissa. */
  lemma ParseDecimalText(d: Decimal)
    ensures d.scale == 0 ==> ParseInteger(ToText(d)) == Some(d.mantissa)
    ensures d.scale > 0 ==> ParseInteger(ToText(d)) == None
  {
    if d.scale == 0 {
      ParseIntegerText(d.mantissa);
    } else {
      FractionalTextRejected(d);
    }
  }

  /** The text of a decimal with a positive scale has a point in it. */
  lemma FractionalTextRejected(d: Decimal)
    requires d.scale > 0
    ensures ParseInteger(ToText(d)) == None
  {
    var a := Abs(d.mantissa);
    var p := Pow10(d.scale);
    DivModNonnegative(a, p);
    PointRejected(d.mantissa < 0, a / p, a % p, d.scale);
  }

  /** Text with a decimal point after the integer digits is not an integer. */
  lemma PointRejected(negative: bool, whole: nat, fraction: nat, k: nat)
    ensures ParseInteger(PointText(negative, whole, fraction, k)) == None
  {
    var t := PointText(negative, whole, fraction, k);
    var i := (if negative then 1 else 0) + |NatText(whole)|;
    assert t[i] == '.';
    ParseRejectsNonDigit(t, i);
  }

  /** `BigInteger.Parse` of the G29 text succeeds exactly when the decimal
      is a whole number, and then yields that number. */
  lemma ParseDecimalTextG29(d: Decimal)
    ensures ParseInteger(ToTextG29(d)).Some? <==> IsIntegral(Value(d))
    ensures ParseInteger(ToTextG29(d)).Some? ==> ParseInteger(ToTextG29(d)).value as real == Value(d)
  {
    var n := Normalize(d);
    ParseDecimalText(n);
    NormalIntegral(n);
    ValueScaleZero(n);
  }

  /** `decimal.Parse` of the text of an integer: the integer at scale 0, or
      an `OverflowException` beyond 96 bits. */
  function ParseWholeDecimal(s: string): (r: Result<Decimal, Exception>)
    ensures r.Success? <==> ParseInteger(s).Some? && Abs(ParseInteger(s).value) <= MaxMagnitude
    ensures r.Success? ==> Valid(r.value) && r.value.scale == 0 && r.value.mantissa == ParseInteger(s).value
    ensures r.Failure? ==> (r.error == Format <==> ParseInteger(s).None?)
    ensures r.Failure? ==> r.error == Format || r.error == Overflow
  {
    match ParseInteger(s)
    case None => Failure(Format)
    case Some(v) => if Abs(v) <= MaxMagnitude then Success(Decimal(v, 0)) else Failure(Overflow)
  }

  /** Division of an integral decimal (scale 0, mantissa `m`) by `10^k`
      (`1E18M` for `k = 18`): the quotient is exact, and .NET returns it
      without trailing zeros. */
  function DivideByPow10(m: int, k: nat): (r: Decimal)
    requires Abs(m) <= MaxMagnitude && k <= MaxScale
    ensures Valid(r) && IsNormal(r)
    ensures Value(r) == Value(Decimal(m, k))
  {
    Normalize(Decimal(m, k))
  }

  /** The exact product `q * 10^z` at scale `s`, brought into range the way
      .NET does it: while the mantissa exceeds 96 bits, divide it by ten and
      lower the scale; with no scale left, the product overflows. Every
      division is exact here because the mantissa still ends in `z` zeros. */
  function Rescale(q: int, z: nat, s: nat): (r: Result<Decimal, Exception>)
    requires Abs(q) <= MaxMagnitude && s <= MaxScale
    decreases z
    ensures r.Success? ==> Valid(r.value) && Value(r.value) == Value(Decimal(q * Pow10(z), s))
    ensures r.Success? <==> InRange(Value(Decimal(q * Pow10(z), s)))
    ensures r.Success? ==> r.value.scale <= s
    ensures r.Failure? ==> r.error == Overflow
  {
    var m := q * Pow10(z);
    if Abs(m) <= MaxMagnitude then
      MagnitudeBoundsValue(m, s);
      Success(Decimal(m, s))
    else if s == 0 then
      Failure(Overflow)
    else
      ShiftPow10(q, z - 1);
      ScaleStepValue(q * Pow10(z - 1), s - 1);
      Rescale(q, z - 1, s - 1)
  }

  /** `d * 10^k`, where `10^k` is a decimal literal of scale 0 such as
      `1E18M`: the exact product, or an `OverflowException`. */
  function MultiplyByPow10(d: Decimal, k: nat): (r: Result<Decimal, Exception>)
    requires Valid(d)
    ensures r.Success? ==> Valid(r.value) && Value(r.value) == Shifted(Value(d), k)
    ensures r.Success? <==> InRange(Shifted(Value(d), k))
    ensures r.Success? ==> r.value.scale <= d.scale
    ensures r.Failure? ==> r.error == Overflow
  {
    ValueOfShifted(d, k);
    Rescale(d.mantissa, k, d.scale)
  }
}
