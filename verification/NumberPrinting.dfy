/** How std::ostream writes a double at its default precision. */
module NumberPrinting {
  // Six significant digits, in fixed or scientific notation, without trailing zeros.

  import opened Text
  import opened Decimal
  import opened Grammar

  /** n / d to the nearest integer, a tie to the even one. */
  function RoundHalfEven(n: nat, d: nat): nat
    requires d > 0
  {
    if 2 * (n % d) < d || (2 * (n % d) == d && n / d % 2 == 0) then n / d else n / d + 1
  }

  lemma {:induction false} RoundNearest(n: nat, d: nat)
    requires d > 0
    ensures 2 * Abs(n - RoundHalfEven(n, d) * d) <= d
    ensures 2 * Abs(n - RoundHalfEven(n, d) * d) == d ==> RoundHalfEven(n, d) % 2 == 0
  {
    var q, r := n / d, n % d;
    assert n == q * d + r;
    assert (q + 1) * d == q * d + d;
    if RoundHalfEven(n, d) == q {
      assert Abs(n - q * d) == r;
    } else {
      assert Abs(n - (q + 1) * d) == d - r;
    }
  }

  /** The number itself if it has at most six significant digits, otherwise the nearest that has. */
  function Rounded(x: Numeric): Numeric {
    var digits := |NatText(Abs(x.m))|;
    if digits <= 6 then x
    else
      var cut := digits - 6;
      Norm(Signed(x.m < 0, RoundHalfEven(Abs(x.m), Pow10(cut))), x.e + cut)
  }

  predicate SixDigits(x: Numeric) {
    Abs(x.m) < 1000000
  }

  /** Two digits at least, with the sign always written. */
  function PrintedExponent(e: int): Exponent {
    var t := NatText(Abs(e));
    Exponent('e', if e < 0 then "-" else "+", if |t| < 2 then "0" + t else t)
  }

  /** The notation %g chooses for a number that already has at most six digits. */
  function Notation(x: Numeric): Numeral {
    var t := NatText(Abs(x.m));
    var exponent := |t| - 1 + x.e;
    if -4 <= exponent < 6 then
      if x.e >= 0 then Numeral(x.m < 0, t + Repeat('0', x.e), None, None)
      else if exponent >= 0 then Numeral(x.m < 0, t[..exponent + 1], Some(t[exponent + 1..]), None)
      else Numeral(x.m < 0, "0", Some(Repeat('0', -exponent - 1) + t), None)
    else Numeral(x.m < 0, t[..1], if |t| == 1 then None else Some(t[1..]), Some(PrintedExponent(exponent)))
  }

  function Printed(x: Numeric): Numeral {
    Notation(Rounded(x))
  }

  /** oss << val.asNumber() */
  function NumberText(x: Numeric): string {
    NumeralText(Printed(x))
  }

  // ---- the text denotes the rounded number ------------------------------------------------

  lemma {:induction false} SignedAbs(m: int)
    ensures Signed(m < 0, Abs(m)) == m
  {
  }

  lemma {:induction false} NormOfNormal(x: Numeric)
    ensures Norm(x.m, x.e) == x
  {
  }

  lemma {:induction false} SignedShift(m: int, k: nat)
    ensures Signed(m < 0, Abs(m) * Pow10(k)) == m * Pow10(k)
  {
  }

  lemma {:induction false} NotationScanned(x: Numeric)
    ensures AdmittedNumeral(Notation(x))
  {
    hide NatText, Repeat, PrintedExponent;
    var t := NatText(Abs(x.m));
    var exponent := |t| - 1 + x.e;
    ExponentScanned(exponent);
    if -4 <= exponent < 6 {
      if x.e >= 0 {
        assert AllDigits(t + Repeat('0', x.e));
      } else if exponent >= 0 {
        assert AllDigits(t[..exponent + 1]) && AllDigits(t[exponent + 1..]);
      } else {
        assert AllDigits(Repeat('0', -exponent - 1) + t);
      }
    } else {
      assert AllDigits(t[..1]) && AllDigits(t[1..]);
    }
  }

  lemma {:induction false} ExponentScanned(e: int)
    ensures AdmittedExponent(PrintedExponent(e))
  {
    hide NatText;
    assert AllDigits(NatText(Abs(e)));
  }

  lemma {:induction false} PrintedExponentValue(e: int)
    ensures ExponentValue(Some(PrintedExponent(e))) == e
  {
    var t := NatText(Abs(e));
    DigitsValueConcat("0", t);
    assert DigitsValue("0") == 0 by {
      assert "0"[..0] == "";
    }
  }

  lemma {:induction false} NotationValue(x: Numeric)
    ensures NumeralValue(Notation(x)) == x
  {
    hide NatText, Repeat, Norm, DigitsValue, Pow10;
    var t := NatText(Abs(x.m));
    var exponent := |t| - 1 + x.e;
    SignedAbs(x.m);
    NormOfNormal(x);
    if -4 <= exponent < 6 {
      if x.e >= 0 {
        DigitsValueConcat(t, Repeat('0', x.e));
        DigitsValueZeros(x.e);
        SignedShift(x.m, x.e);
        NormShift(x.m, x.e, 0);
        assert t + Repeat('0', x.e) + "" == t + Repeat('0', x.e);
      } else if exponent >= 0 {
        assert t[..exponent + 1] + t[exponent + 1..] == t;
      } else {
        LeadingZeros(-exponent - 1, t);
      }
    } else {
      PrintedExponentValue(exponent);
      assert |t| > 1 ==> t[..1] + t[1..] == t;
      assert |t| == 1 ==> t[..1] + "" == t;
    }
  }

  lemma {:induction false} LeadingZeros(n: nat, t: string)
    ensures DigitsValue("0" + (Repeat('0', n) + t)) == DigitsValue(t)
  {
    assert "0" + (Repeat('0', n) + t) == Repeat('0', n + 1) + t;
    DigitsValueConcat(Repeat('0', n + 1), t);
    DigitsValueZeros(n + 1);
  }

  /** What is printed reads back as the number rounded to six significant digits. */
  lemma {:induction false} NumberTextValue(x: Numeric)
    ensures AdmittedNumeral(Printed(x)) && NumeralValue(Printed(x)) == Rounded(x)
  {
    NotationScanned(Rounded(x));
    NotationValue(Rounded(x));
  }

  // ---- which numbers survive --------------------------------------------------------------

  lemma {:induction false} DigitCount(n: nat, k: nat)
    requires k > 0
    ensures |NatText(n)| <= k <==> n < Pow10(k)
  {
    if n > 0 {
      NatTextLength(n);
      if |NatText(n)| <= k {
        Pow10Monotone(|NatText(n)|, k);
      } else {
        Pow10Monotone(k, |NatText(n)| - 1);
      }
    }
  }

  lemma {:induction false} Pow10Monotone(a: nat, b: nat)
    requires a <= b
    ensures Pow10(a) <= Pow10(b)
    decreases b - a
  {
    if a < b {
      Pow10Monotone(a + 1, b);
      assert Pow10(a + 1) == 10 * Pow10(a);
    }
  }

  lemma {:induction false} Million()
    ensures Pow10(6) == 1000000
  {
    assert Pow10(1) == 10;
    assert Pow10(2) == 100;
    assert Pow10(3) == 1000;
    assert Pow10(4) == 10000;
    assert Pow10(5) == 100000;
  }

  /** Normalising never lengthens the mantissa. */
  lemma {:induction false} NormShrinks(m: int, e: int)
    ensures Abs(Norm(m, e).m) <= Abs(m)
    decreases Abs(m)
  {
    if m != 0 && m % 10 == 0 {
      NormShrinks(m / 10, e + 1);
    }
  }

  lemma {:induction false} RoundBound(n: nat, d: nat)
    requires d > 0 && n < 1000000 * d
    ensures RoundHalfEven(n, d) <= 1000000
  {
    hide RoundHalfEven;
    RoundNearest(n, d);
    ScaledOrder(RoundHalfEven(n, d), 1000001, d);
  }

  lemma {:induction false} ScaledOrder(a: nat, b: nat, d: nat)
    ensures a >= b ==> a * d >= b * d
  {
    if a >= b {
      assert (a - b) * d >= 0;
    }
  }

  lemma {:induction false} NormMillion(m: int, e: int)
    requires Abs(m) <= 1000000
    ensures Abs(Norm(m, e).m) < 1000000
  {
    NormShrinks(m, e);
    if Abs(m) == 1000000 {
      NormShrinks(m / 10, e + 1);
      assert Norm(m, e) == DropZeros(m, e) == Norm(m / 10, e + 1);
    }
  }

  lemma {:induction false} RoundedSixDigits(x: Numeric)
    ensures SixDigits(Rounded(x))
  {
    hide NatText, RoundHalfEven, Norm, Pow10;
    var n := Abs(x.m);
    var digits := |NatText(n)|;
    Million();
    DigitCount(n, 6);
    if digits > 6 {
      NatTextLength(n);
      Pow10Add(6, digits - 6);
      RoundBound(n, Pow10(digits - 6));
      NormMillion(Signed(x.m < 0, RoundHalfEven(n, Pow10(digits - 6))), x.e + (digits - 6));
    }
  }

  /** Exactly the numbers of at most six significant digits are printed without loss, and
      printing what was read back changes nothing any more. */
  lemma {:induction false} RoundedFixed(x: Numeric)
    ensures Rounded(x) == x <==> SixDigits(x)
    ensures Rounded(Rounded(x)) == Rounded(x)
  {
    Million();
    DigitCount(Abs(x.m), 6);
    RoundedSixDigits(x);
    DigitCount(Abs(Rounded(x).m), 6);
  }

  // ---- integers ---------------------------------------------------------------------------

  /** static_cast<double> of an int. */
  function OfInt(n: int): Numeric {
    Norm(n, 0)
  }

  lemma {:induction false} NatTextTen(n: nat)
    requires n > 0
    ensures NatText(10 * n) == NatText(n) + "0"
  {
    assert (10 * n) / 10 == n && (10 * n) % 10 == 0;
    assert [DigitChar(0)] == "0";
  }

  lemma {:induction false} NatTextShift(m: nat, k: nat)
    requires m > 0
    ensures m * Pow10(k) > 0 && NatText(m * Pow10(k)) == NatText(m) + Repeat('0', k)
  {
    hide NatText;
    if k == 0 {
      assert NatText(m) + Repeat('0', 0) == NatText(m);
    } else {
      NatTextShift(m, k - 1);
      assert m * Pow10(k) == 10 * (m * Pow10(k - 1));
      NatTextTen(m * Pow10(k - 1));
      assert Repeat('0', k) == Repeat('0', k - 1) + "0";
    }
  }

  /** A number without a fraction and below 10^6 is written in full. */
  lemma {:induction false} WholeNotation(x: Numeric, n: nat)
    requires x.m != 0 && x.e >= 0 && n == Abs(x.m) * Pow10(x.e) && n < 1000000
    ensures Notation(x) == Numeral(x.m < 0, NatText(n), None, None)
  {
    hide NatText, Pow10;
    NatTextShift(Abs(x.m), x.e);
    Million();
    DigitCount(n, 6);
  }

  /** Integers of magnitude below 10^6 are printed exactly, digit by digit. */
  lemma {:induction false} SmallIntegerText(n: int)
    requires -1000000 < n < 1000000
    ensures NumberText(OfInt(n)) == IntText(n) && Rounded(OfInt(n)) == OfInt(n)
  {
    hide NatText, Pow10, Rounded, Norm;
    var x := OfInt(n);
    NormShrinks(n, 0);
    RoundedFixed(x);
    NormValue(n, 0);
    if n == 0 {
      ZeroText();
    } else {
      assert Signed(n < 0, Abs(n)) == n;
      MagnitudeOf(x, n);
      WholeNotation(x, Abs(n));
      assert NumberText(x) == (if n < 0 then "-" else "") + NatText(Abs(n)) + "" + "";
    }
  }

  lemma {:induction false} ZeroText()
    ensures NumberText(OfInt(0)) == IntText(0) == NatText(0) == "0"
  {
    assert NatText(0) == "0";
    assert "0" + Repeat('0', 0) == "0";
  }

  lemma {:induction false} MagnitudeOf(x: Numeric, n: int)
    requires n != 0 && x.e >= 0 && n == x.m * Pow10(x.e)
    ensures Abs(n) == Abs(x.m) * Pow10(x.e) && (n < 0 <==> x.m < 0) && x.m != 0
  {
  }
}
