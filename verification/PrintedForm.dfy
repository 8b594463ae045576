module PrintedForm {
  // The form of a printed number: which notation, how many digits, and no zero too many.

  import opened Text
  import opened Decimal
  import opened Grammar
  import opened NumberPrinting
  import opened Meaning

  /** 10^exponent <= |x| < 10^(exponent + 1) */
  predicate HasExponent(x: Numeric, exponent: int) {
    var size := if x.m < 0 then -RealOf(x) else RealOf(x);
    Scaled(1.0, exponent) <= size < Scaled(1.0, exponent + 1)
  }

  /** Two digits at least, no zero in front of three or more. */
  predicate ExponentForm(x: Exponent, exponent: int) {
    && x.mark == 'e' && x.sign == (if exponent < 0 then "-" else "+") && AllDigits(x.digits)
    && |x.digits| >= 2 && (|x.digits| > 2 ==> x.digits[0] != '0')
    && Weighed(x.digits) == if exponent < 0 then -exponent else exponent
  }

  /** Fixed notation from 10^-4 to below 10^6, with as many digits before the point as the number has and
      a single zero if it has none; otherwise scientific, with one digit other than zero before the point.
      A fraction is written only if it does not end in zero. */
  predicate NumeralForm(n: Numeral, negative: bool, exponent: int) {
    && n.minus == negative
    && (n.frac.Some? ==> n.frac.value != "" && n.frac.value[|n.frac.value| - 1] != '0')
    && (if -4 <= exponent < 6 then
          && n.exp.None?
          && (if exponent >= 0 then |n.whole| == exponent + 1 && n.whole[0] != '0' else n.whole == "0")
        else
          && n.exp.Some? && ExponentForm(n.exp.value, exponent)
          && |n.whole| == 1 && n.whole != "0")
  }

  lemma {:induction false} ScaledOrder(a: nat, b: nat, e: int)
    ensures a < b ==> Scaled(a as real, e) < Scaled(b as real, e)
    ensures a <= b ==> Scaled(a as real, e) <= Scaled(b as real, e)
  {
    var p := Tens(if e >= 0 then e else -e);
    TensPositive(if e >= 0 then e else -e);
    ProductOrder(a as real, b as real, p);
  }

  lemma {:induction false} ProductOrder(a: real, b: real, p: real)
    requires p >= 1.0
    ensures a < b ==> a * p < b * p && a / p < b / p
  {
    if a < b {
      assert (b - a) * p > 0.0;
      var x, y := a / p, b / p;
      assert x * p == a && y * p == b;
      assert x >= y ==> x * p >= y * p;
    }
  }

  lemma {:induction false} Unit(k: nat, e: int)
    ensures Scaled(Pow10(k) as real, e) == Scaled(1.0, e + k)
  {
    hide Scaled, Pow10;
    ScaledShift(1.0, k, e);
    UnitTens(k);
  }

  lemma {:induction false} UnitTens(k: nat)
    ensures Mul(1.0, Tens(k)) == Pow10(k) as real
  {
  }

  lemma {:induction false} NegatedScale(m: real, e: int)
    ensures Scaled(-m, e) == -Scaled(m, e)
  {
    var p := Tens(if e >= 0 then e else -e);
    TensPositive(if e >= 0 then e else -e);
    NegatedParts(m, p);
  }

  lemma {:induction false} NegatedParts(m: real, p: real)
    requires p >= 1.0
    ensures (-m) * p == -(m * p) && (-m) / p == -(m / p)
  {
  }

  lemma {:induction false} DigitsExponent(x: Numeric)
    requires x.m != 0
    ensures HasExponent(x, |NatText(Abs(x.m))| - 1 + x.e)
  {
    hide NatText, Pow10, Scaled;
    var n := Abs(x.m);
    var d := |NatText(n)|;
    NatTextLength(n);
    ScaledOrder(Pow10(d - 1), n, x.e);
    ScaledOrder(n, Pow10(d), x.e);
    Unit(d - 1, x.e);
    Unit(d, x.e);
    NegatedScale(x.m as real, x.e);
    assert (0 - x.m) as real == -(x.m as real);
  }

  lemma {:induction false} PrintedExponentForm(e: int)
    ensures ExponentForm(PrintedExponent(e), e)
  {
    hide NatText, DigitsValue, Weighed;
    var t := NatText(Abs(e));
    WeighedValue(t);
    ZeroText();
    if |t| < 2 {
      WeighedValue("0" + t);
      DigitsValueConcat("0", t);
      OneDigit('0');
    }
  }

  lemma {:induction false} LastNonzero(n: nat)
    requires n % 10 != 0
    ensures NatText(n)[|NatText(n)| - 1] != '0'
  {
    if n >= 10 {
      assert NatText(n) == NatText(n / 10) + [DigitChar(n % 10)];
    }
  }

  lemma {:induction false} NotationForm(x: Numeric)
    requires x.m != 0
    ensures NumeralForm(Notation(x), x.m < 0, |NatText(Abs(x.m))| - 1 + x.e)
  {
    hide NatText, Repeat, PrintedExponent, ExponentForm;
    var t := NatText(Abs(x.m));
    LastNonzero(Abs(x.m));
    PrintedExponentForm(|t| - 1 + x.e);
  }

  /** Zero is "0"; any other number is rounded to six significant digits and written in the form its
      power of ten asks for. */
  lemma {:induction false} PrintedInForm(x: Numeric)
    ensures var y := Rounded(x);
            if y.m == 0 then NumberText(x) == "0"
            else exists exponent :: HasExponent(y, exponent) && NumeralForm(Printed(x), y.m < 0, exponent)
  {
    hide Rounded, NatText, Notation, HasExponent, NumeralForm;
    var y := Rounded(x);
    if y.m != 0 {
      DigitsExponent(y);
      NotationForm(y);
    } else {
      assert y == Decimal(0, 0);
      ZeroNotation();
    }
  }

  lemma {:induction false} ZeroNotation()
    ensures NumeralText(Notation(Decimal(0, 0))) == "0"
  {
    assert NatText(0) == "0" && "0" + Repeat('0', 0) == "0";
  }

  // ---- rounding -------------------------------------------------------------------------------------

  function Distance(a: real, b: real): real {
    if a < b then b - a else a - b
  }

  /** a is a nearest multiple of the unit to b, and an even one if there are two. */
  ghost predicate Nearest(a: real, b: real, unit: int) {
    && 2.0 * Distance(a, b) <= Scaled(1.0, unit)
    && exists k: int :: a == Scaled(k as real, unit) && (2.0 * Distance(a, b) == Scaled(1.0, unit) ==> k % 2 == 0)
  }

  lemma {:induction false} ScaledSum(a: real, b: real, e: int)
    ensures Scaled(a, e) - Scaled(b, e) == Scaled(a - b, e) && Scaled(2.0 * a, e) == 2.0 * Scaled(a, e)
  {
    TensPositive(if e >= 0 then e else -e);
    DifferenceParts(a, b, Tens(if e >= 0 then e else -e));
  }

  lemma {:induction false} DifferenceParts(a: real, b: real, p: real)
    requires p >= 1.0
    ensures a * p - b * p == (a - b) * p && a / p - b / p == (a - b) / p
    ensures 2.0 * a * p == 2.0 * (a * p) && 2.0 * a / p == 2.0 * (a / p)
  {
  }

  lemma {:induction false} ScaledMonotone(a: real, b: real, e: int)
    ensures a < b ==> Scaled(a, e) < Scaled(b, e)
    ensures a <= b ==> Scaled(a, e) <= Scaled(b, e)
  {
    TensPositive(if e >= 0 then e else -e);
    ProductOrder(a, b, Tens(if e >= 0 then e else -e));
  }

  /** Two integers no further apart than half a power of ten, at any scale. */
  lemma {:induction false} HalfUnit(a: int, b: int, k: nat, e: int)
    requires 2 * Abs(a - b) <= Pow10(k)
    ensures 2.0 * Distance(Scaled(a as real, e), Scaled(b as real, e)) <= Scaled(1.0, e + k)
    ensures 2.0 * Distance(Scaled(a as real, e), Scaled(b as real, e)) == Scaled(1.0, e + k) ==>
              2 * Abs(a - b) == Pow10(k)
  {
    hide Scaled, Pow10;
    var d := Abs(a - b);
    ScaledSum(a as real, b as real, e);
    ScaledSum(b as real, a as real, e);
    ScaledSum(d as real, 0.0, e);
    ScaledMonotone(0.0, d as real, e);
    ZeroScaled(e);
    assert a as real - b as real == (a - b) as real && b as real - a as real == (b - a) as real;
    ScaledMonotone(2.0 * d as real, Pow10(k) as real, e);
    Unit(k, e);
  }

  /** A number of more than six significant digits is printed as a nearest one of six, the even one of two;
      any other number is printed as it is. */
  lemma {:induction false} RoundedNearest(x: Numeric)
    ensures var digits := |NatText(Abs(x.m))|;
            if digits <= 6 then Rounded(x) == x else Nearest(RealOf(Rounded(x)), RealOf(x), x.e + digits - 6)
  {
    hide Scaled, NatText, Pow10, RoundHalfEven, Norm;
    var digits := |NatText(Abs(x.m))|;
    if digits > 6 {
      var cut := digits - 6;
      var n, d := Abs(x.m), Pow10(cut);
      var q := RoundHalfEven(n, d);
      var k := Signed(x.m < 0, q);
      RoundNearest(n, d);
      NormReal(k, x.e + cut);
      ScaledShift(k as real, cut, x.e);
      IntMul(k, cut);
      SignedProduct(x.m < 0, q, d);
      HalfUnit(k * d, x.m, cut, x.e);
      assert k % 2 == 0 <==> q % 2 == 0;
    }
  }

  lemma {:induction false} SignedProduct(minus: bool, q: nat, d: nat)
    ensures Signed(minus, q) * d == Signed(minus, q * d)
  {
  }
}
