/** Unit conversions of the earlier revision (BigIntegerExtensions.cs and
    DecimalExtensions.cs at the repository root). `WeiToEth` and
    `GweiToWei` there are the same expressions as in the current revision
    and are `Units.WeiToEth` and `Units.GweiToWei`; `EthToWei` differs: it
    prints the product with `ToString()` rather than `ToString("G29")`. */
module EarlierUnits {
  import opened Wrappers
  import opened Exceptions
  import opened Numerals
  import opened Decimals
  import Units

  /** `EthToWei`: `BigInteger.Parse((x * 1E18M).ToString())`. `ToString()`
      keeps every fractional digit of the product's scale, trailing zeros
      included, and `BigInteger.Parse` rejects the decimal point. */
  function EthToWei(x: Decimal): (r: Result<int, Exception>)
    requires Valid(x)
    ensures r.Success? ==> r.value as real == Units.WeiOf(Value(x))
    ensures !InRange(Units.WeiOf(Value(x))) ==> r == Failure(Overflow)
    ensures r.Failure? ==> r.error == Overflow || r.error == Format
  {
    var product :- MultiplyByPow10(x, Units.EthDecimals);
    ParseDecimalText(product);
    ValueScaleZero(product);
    match ParseInteger(ToText(product))
    case None => Failure(Format)
    case Some(n) => Success(n)
  }

  /** On amounts of scale 0 the two revisions agree. */
  lemma AgreesOnScaleZero(x: Decimal)
    requires Valid(x) && x.scale == 0
    ensures EthToWei(x) == Units.EthToWei(x)
  {
    var p := MultiplyByPow10(x, Units.EthDecimals);
    if p.Success? {
      assert Normalize(p.value) == p.value;
    }
  }

  /** A whole amount of scale 0 converts to exactly `x * 10^18` wei. */
  lemma ScaleZeroIsExact(x: Decimal)
    requires Valid(x) && x.scale == 0
    requires Abs(x.mantissa * Pow10(Units.EthDecimals)) <= MaxMagnitude
    ensures EthToWei(x) == Success(x.mantissa * Pow10(Units.EthDecimals))
  {
    var m := x.mantissa * Pow10(Units.EthDecimals);
    assert MultiplyByPow10(x, Units.EthDecimals) == Success(Decimal(m, 0));
    ParseDecimalText(Decimal(m, 0));
    ValueScaleZero(Decimal(m, 0));
  }

  /** On scale-0 amounts the sign of the ether amount is kept. */
  lemma PreservesSignOnScaleZero(x: Decimal)
    requires Valid(x) && x.scale == 0 && EthToWei(x).Success?
    ensures x.mantissa < 0 ==> EthToWei(x).value < 0
    ensures x.mantissa == 0 ==> EthToWei(x).value == 0
    ensures x.mantissa > 0 ==> EthToWei(x).value > 0
  {
    AgreesOnScaleZero(x);
    Units.EthToWeiPreservesSign(x);
  }

  /** Any amount with a fractional digit is rejected, whether or not the
      fraction is zero, as long as the product needs no rescaling. */
  lemma RejectsFractionalScale(x: Decimal)
    requires Valid(x) && x.scale > 0
    requires Abs(x.mantissa * Pow10(Units.EthDecimals)) <= MaxMagnitude
    ensures EthToWei(x) == Failure(Format)
  {
    var m := x.mantissa * Pow10(Units.EthDecimals);
    assert MultiplyByPow10(x, Units.EthDecimals) == Success(Decimal(m, x.scale));
    ParseDecimalText(Decimal(m, x.scale));
  }

  /** 1.5 ether leaves `Units.WeiToEth` as the normal decimal 1.5. */
  lemma OneAndAHalfEther()
    ensures Units.WeiToEth(1_500_000_000_000_000_000) == Success(Decimal(15, 1))
  {
    Pow10Values();
    var e := Units.WeiToEth(1_500_000_000_000_000_000).value;
    assert 15 * Pow10(17) == 1_500_000_000_000_000_000;
    ValueOfPadded(15, 1, 17);
    NormalUnique(e, Decimal(15, 1));
  }

  /** Wei to ether and back fails in this revision for 1.5 ether, where the
      current revision returns the amount. */
  lemma RoundTripFails()
    ensures EthToWei(Units.WeiToEth(1_500_000_000_000_000_000).value) == Failure(Format)
    ensures Units.EthToWei(Units.WeiToEth(1_500_000_000_000_000_000).value) == Success(1_500_000_000_000_000_000)
  {
    OneAndAHalfEther();
    Pow10Values();
    RejectsFractionalScale(Decimal(15, 1));
    Units.EthToWeiOfWeiToEth(1_500_000_000_000_000_000);
  }

  /** Even a whole amount written with a fractional zero, such as `1.0M`,
      is rejected. */
  lemma RejectsOnePointZero()
    ensures EthToWei(Decimal(10, 1)) == Failure(Format)
    ensures Units.EthToWei(Decimal(10, 1)) == Success(1_000_000_000_000_000_000)
  {
    Pow10Values();
    RejectsFractionalScale(Decimal(10, 1));
    ValueOfPadded(1, 0, 1);
    assert Value(Decimal(10, 1)) == 1.0;
    ShiftedInteger(1, Units.EthDecimals);
  }
}
