/** Decimal text of `System.Numerics.BigInteger`: `ToString()` and
    `BigInteger.Parse` with the default (integer) number style. */
module Numerals {
  import opened Wrappers

  function Pow10(k: nat): (r: nat)
    ensures r >= 1
  {
    if k == 0 then 1 else 10 * Pow10(k - 1)
  }

  lemma DivModNonnegative(a: nat, p: nat)
    requires p >= 1
    ensures a / p >= 0 && 0 <= a % p < p
  {
  }

  /** `q * 10^(k+1)` is ten times `q * 10^k`. */
  lemma ShiftPow10(q: int, k: nat)
    ensures q * Pow10(k + 1) == 10 * (q * Pow10(k))
  {
    var p := Pow10(k);
    assert Pow10(k + 1) == 10 * p;
    assert q * (10 * p) == 10 * (q * p);
  }

  lemma {:induction false} Pow10Add(a: nat, b: nat)
    ensures Pow10(a + b) == Pow10(a) * Pow10(b)
  {
    if b > 0 {
      Pow10Add(a, b - 1);
      var p, q := Pow10(a), Pow10(b - 1);
      assert Pow10(a + b) == 10 * (p * q);
      assert p * (10 * q) == 10 * (p * q);
    }
  }

  lemma Pow10Values()
    ensures Pow10(9) == 1_000_000_000
    ensures Pow10(18) == 1_000_000_000_000_000_000
  {
    assert Pow10(0) == 1;
    assert Pow10(1) == 10;
    assert Pow10(2) == 100;
    assert Pow10(3) == 1000;
    assert Pow10(4) == 10000;
    assert Pow10(5) == 100000;
    assert Pow10(6) == 1000000;
    assert Pow10(7) == 10000000;
    assert Pow10(8) == 100000000;
    assert Pow10(9) == 1000000000;
    assert Pow10(10) == 10000000000;
    assert Pow10(11) == 100000000000;
    assert Pow10(12) == 1000000000000;
    assert Pow10(13) == 10000000000000;
    assert Pow10(14) == 100000000000000;
    assert Pow10(15) == 1000000000000000;
    assert Pow10(16) == 10000000000000000;
    assert Pow10(17) == 100000000000000000;
  }

  predicate IsDigit(c: char) { '0' <= c <= '9' }

  predicate AllDigits(s: string) {
    forall i :: 0 <= i < |s| ==> IsDigit(s[i])
  }

  function DigitChar(d: nat): (c: char)
    requires d < 10
    ensures IsDigit(c)
  {
    ('0' as int + d) as char
  }

  function DigitValue(c: char): (d: nat)
    requires IsDigit(c)
    ensures d < 10
  {
    c as int - '0' as int
  }

  /** `n` written in base ten without leading zeros. */
  function NatText(n: nat): (s: string)
    ensures |s| > 0 && AllDigits(s)
  {
    if n < 10 then [DigitChar(n)] else NatText(n / 10) + [DigitChar(n % 10)]
  }

  /** `BigInteger.ToString()`: a minus sign for negative values, then the digits. */
  function IntegerText(v: int): (s: string)
    ensures |s| > 0 && (s[0] == '-' <==> v < 0)
  {
    if v < 0 then "-" + NatText(-v) else NatText(v)
  }

  /** The value of a string of digits, read left to right. */
  function DigitsValue(s: string): nat
    requires AllDigits(s)
  {
    if s == [] then 0 else 10 * DigitsValue(s[..|s| - 1]) + DigitValue(s[|s| - 1])
  }

  /** `k` zero digits. */
  function Zeros(k: nat): (z: string)
    ensures |z| == k && AllDigits(z)
  {
    if k == 0 then "" else Zeros(k - 1) + "0"
  }

  /** `BigInteger.Parse`: an optional sign and at least one digit; anything
      else (a decimal point, an exponent, a stray character) is a
      `FormatException`, here `None`. */
  function ParseInteger(s: string): (r: Option<int>)
    ensures r.Some? ==> |s| > 0 && (r.value < 0 ==> s[0] == '-') && (s[0] == '-' ==> r.value <= 0)
    ensures |s| == 0 || s == "-" || s == "+" ==> r.None?
  {
    if |s| > 1 && (s[0] == '-' || s[0] == '+') && AllDigits(s[1..]) then
      var magnitude: int := DigitsValue(s[1..]);
      Some(if s[0] == '-' then -magnitude else magnitude)
    else if |s| > 0 && AllDigits(s) then
      Some(DigitsValue(s))
    else
      None
  }

  lemma {:induction false} NatTextValue(n: nat)
    ensures DigitsValue(NatText(n)) == n
  {
    if n >= 10 {
      var s := NatText(n);
      assert s[..|s| - 1] == NatText(n / 10);
      NatTextValue(n / 10);
    }
  }

  lemma NatTextStartsWithDigit(n: nat)
    ensures NatText(n)[0] != '-' && NatText(n)[0] != '+'
  {
  }

  /** Parsing inverts printing: `BigInteger.Parse(v.ToString()) == v`. */
  lemma ParseIntegerText(v: int)
    ensures ParseInteger(IntegerText(v)) == Some(v)
  {
    var s := IntegerText(v);
    if v < 0 {
      assert s[1..] == NatText(-v);
      NatTextValue(-v);
      assert s[0] == '-' && |s| > 1 && AllDigits(s[1..]);
    } else {
      NatTextValue(v);
      NatTextStartsWithDigit(v);
      assert s == NatText(v);
    }
  }

  /** Appending `k` zero digits multiplies by ten to the `k`. */
  lemma {:induction false} AppendZerosValue(s: string, k: nat)
    requires AllDigits(s)
    ensures AllDigits(s + Zeros(k))
    ensures DigitsValue(s + Zeros(k)) == DigitsValue(s) * Pow10(k)
  {
    if k > 0 {
      AppendZerosValue(s, k - 1);
      var t := s + Zeros(k);
      assert t[..|t| - 1] == s + Zeros(k - 1);
      assert t[|t| - 1] == '0';
      assert DigitsValue(t) == 10 * DigitsValue(s + Zeros(k - 1));
      ShiftPow10(DigitsValue(s), k - 1);
    } else {
      assert s + Zeros(k) == s;
    }
  }

  /** `BigInteger.Parse` of an integer's text with `k` zeros appended is
      the integer times ten to the `k`. */
  lemma {:induction false} ParseWithZeros(v: int, k: nat)
    ensures ParseInteger(IntegerText(v) + Zeros(k)) == Some(v * Pow10(k))
  {
    var t := IntegerText(v) + Zeros(k);
    if v < 0 {
      var digits := NatText(-v);
      AppendZerosValue(digits, k);
      NatTextValue(-v);
      assert t == "-" + (digits + Zeros(k));
      assert t[1..] == digits + Zeros(k);
      assert -((-v) * Pow10(k)) == v * Pow10(k);
    } else {
      var digits := NatText(v);
      AppendZerosValue(digits, k);
      NatTextValue(v);
      NatTextStartsWithDigit(v);
      assert t == digits + Zeros(k);
      assert t[0] == digits[0];
    }
  }

  /** A character other than a digit after the first position makes the
      text unparseable, wherever it sits. */
  lemma ParseRejectsNonDigit(s: string, i: nat)
    requires 0 < i < |s| && !IsDigit(s[i])
    ensures ParseInteger(s) == None
  {
    assert !AllDigits(s);
    if |s| > 1 {
      assert s[1..][i - 1] == s[i];
    }
  }
}
