/** Unit conversions of the current revision
    (src/convenience/BigIntegerExtensions.cs and DecimalExtensions.cs):
    wei is the integer base unit, gwei is 10^9 wei and ether is 10^18 wei. */
module Units {
  import opened Wrappers
  import opened Exceptions
  import opened Numerals
  import opened Decimals

  /** A gwei is 10^9 wei, an ether 10^18 wei (`Pow10Values` gives the literals). */
  const GweiDecimals: nat := 9
  const EthDecimals: nat := 18

  /** The number of ether in `v` wei: `v / 10^18`. */
  function EtherOf(v: int): real {
    Value(Decimal(v, EthDecimals))
  }

  /** The number of wei in `x` ether: `x * 10^18`. */
  function WeiOf(x: real): real {
    Shifted(x, EthDecimals)
  }

  /** The text `GweiToWei` parses: the digits of `v` with nine zeros appended. */
  function GweiText(v: int): string {
    IntegerText(v) + "000000000"
  }

  lemma NineZeros()
    ensures Zeros(GweiDecimals) == "000000000"
  {
  }

  /** `GweiToWei`: `BigInteger.Parse(string.Format("{0}000000000", v))`.
      The parse never fails, and the result is exactly `v * 10^9`, for
      negative `v` and zero too. */
  function GweiToWei(v: int): (r: int)
    ensures r == v * Pow10(GweiDecimals)
  {
    NineZeros();
    ParseWithZeros(v, GweiDecimals);
    ParseInteger(GweiText(v)).value
  }

  /** `WeiToEth`: `decimal.Parse(v.ToString()) / 1E18M`. The parse throws an
      `OverflowException` beyond 96 bits; otherwise the quotient is exact. */
  function WeiToEth(v: int): (r: Result<Decimal, Exception>)
    ensures r.Success? <==> Abs(v) <= MaxMagnitude
    ensures r.Success? ==> Valid(r.value) && Value(r.value) == EtherOf(v)
    ensures r.Success? ==> IsNormal(r.value)
    ensures r.Failure? ==> r.error == Overflow
  {
    ParseIntegerText(v);
    var d :- ParseWholeDecimal(IntegerText(v));
    Success(DivideByPow10(d.mantissa, EthDecimals))
  }

  /** `EthToWei`: `BigInteger.Parse((x * 1E18M).ToString("G29"))`. It
      succeeds exactly when `x * 10^18` is a whole number a decimal can
      hold, and then returns that number; a product beyond 96 bits is an
      `OverflowException`, a fractional one a `FormatException`. */
  function EthToWei(x: Decimal): (r: Result<int, Exception>)
    requires Valid(x)
    ensures r.Success? <==> InRange(WeiOf(Value(x))) && IsIntegral(WeiOf(Value(x)))
    ensures r.Success? ==> r.value as real == WeiOf(Value(x))
    ensures r.Failure? ==> (r.error == Overflow <==> !InRange(WeiOf(Value(x))))
    ensures r.Failure? ==> r.error == Overflow || r.error == Format
  {
    var product :- MultiplyByPow10(x, EthDecimals);
    ParseDecimalTextG29(product);
    match ParseInteger(ToTextG29(product))
    case None => Failure(Format)
    case Some(n) => Success(n)
  }

  /** The ether amount of `v` wei, converted back, is `v` wei. */
  lemma WeiOfEtherOf(v: int)
    ensures WeiOf(EtherOf(v)) == v as real
  {
    ValueTimesScale(v, EthDecimals);
  }

  /** Ether to wei inverts wei to ether on the whole decimal range. */
  lemma EthToWeiOfWeiToEth(w: int)
    requires Abs(w) <= MaxMagnitude
    ensures WeiToEth(w).Success?
    ensures EthToWei(WeiToEth(w).value) == Success(w)
  {
    var e := WeiToEth(w).value;
    WeiOfEtherOf(w);
    assert WeiOf(Value(e)) == w as real;
  }

  /** A gwei price converted to wei and shown in ether is the price divided
      by 10^9. */
  lemma WeiToEthOfGweiToWei(g: int)
    requires Abs(g * Pow10(GweiDecimals)) <= MaxMagnitude
    ensures WeiToEth(GweiToWei(g)).Success?
    ensures Shifted(Value(WeiToEth(GweiToWei(g)).value), GweiDecimals) == g as real
  {
    var w := GweiToWei(g);
    ShiftedValue(w, EthDecimals, GweiDecimals);
    ShiftedInteger(g, GweiDecimals);
    ScaledShifted(g as real, GweiDecimals);
  }

  /** A negative amount of ether converts to a negative amount of wei. */
  lemma EthToWeiPreservesSign(x: Decimal)
    requires Valid(x) && EthToWei(x).Success?
    ensures x.mantissa < 0 ==> EthToWei(x).value < 0
    ensures x.mantissa == 0 ==> EthToWei(x).value == 0
    ensures x.mantissa > 0 ==> EthToWei(x).value > 0
  {
    ValueSign(x);
    ShiftedSign(Value(x), EthDecimals);
  }

  /** More than 18 significant fractional digits: the product keeps a
      fractional part, so `BigInteger.Parse` throws. */
  lemma EthToWeiRejectsExcessPrecision(x: Decimal)
    requires Valid(x) && IsNormal(x) && x.scale > EthDecimals
    ensures EthToWei(x) == Failure(Format)
  {
    ShiftedValue(x.mantissa, x.scale, EthDecimals);
    MagnitudeBoundsValue(x.mantissa, x.scale - EthDecimals);
    assert InRange(WeiOf(Value(x)));
    if IsIntegral(WeiOf(Value(x))) {
      ShiftedIntegralEndsInZero(x.mantissa, x.scale, EthDecimals);
    }
  }

  /** 1.5 ether is 1500000000000000000 wei; 10^-19 ether cannot be converted. */
  lemma EthToWeiExamples()
    ensures EthToWei(Decimal(15, 1)) == Success(1_500_000_000_000_000_000)
    ensures EthToWei(Decimal(1, 19)) == Failure(Format)
  {
    Pow10Values();
    ValueOfShifted(Decimal(15, 1), EthDecimals);
    assert 15 * Pow10(18) == 15_000_000_000_000_000_000;
    assert Scaled(15_000_000_000_000_000_000.0, 1) == 1_500_000_000_000_000_000.0;
    EthToWeiRejectsExcessPrecision(Decimal(1, 19));
  }
}
