/**
 Decimal digits and powers of ten, and the exact value of a decimal numeral in a normal
 form that is the same for equal numbers.
 */
module Decimal {
  import opened Text

  function Pow10(n: nat): (p: nat)
    ensures p >= 1
  {
    if n == 0 then 1 else 10 * Pow10(n - 1)
  }

  lemma {:induction false} Pow10Add(a: nat, b: nat)
    ensures Pow10(a + b) == Pow10(a) * Pow10(b)
  {
    if b == 0 {
    } else {
      Pow10Add(a, b - 1);
      assert Pow10(a + b) == 10 * Pow10(a + (b - 1));
      assert 10 * (Pow10(a) * Pow10(b - 1)) == Pow10(a) * (10 * Pow10(b - 1));
    }
  }

  function DigitValue(c: char): (d: nat)
    ensures IsDigit(c) ==> d <= 9
  {
    if IsDigit(c) then (c as int) - ('0' as int) else 0
  }

  function DigitChar(d: nat): (c: char)
    requires d <= 9
    ensures IsDigit(c) && DigitValue(c) == d
  {
    ('0' as int + d) as char
  }

  /** The number a run of decimal digits stands for; the empty run stands for 0. */
  function DigitsValue(t: string): nat {
    if t == "" then 0 else 10 * DigitsValue(t[..|t| - 1]) + DigitValue(t[|t| - 1])
  }

  lemma {:induction false} TimesTen(n: int, p: int)
    ensures 10 * (n * p) == n * (10 * p)
  {
  }

  lemma {:induction false} DigitsValueConcat(a: string, b: string)
    ensures DigitsValue(a + b) == DigitsValue(a) * Pow10(|b|) + DigitsValue(b)
  {
    if b == "" {
      assert a + b == a;
    } else {
      var b' := b[..|b| - 1];
      DigitsValueConcat(a, b');
      assert (a + b)[..|a + b| - 1] == a + b';
      assert Pow10(|b|) == 10 * Pow10(|b'|);
      TimesTen(DigitsValue(a), Pow10(|b'|));
    }
  }

  lemma {:induction false} DigitsValueBound(t: string)
    requires AllDigits(t)
    ensures DigitsValue(t) < Pow10(|t|)
  {
    if t != "" {
      DigitsValueBound(t[..|t| - 1]);
    }
  }

  lemma {:induction false} DigitsValueZeros(n: nat)
    ensures DigitsValue(Repeat('0', n)) == 0
  {
    if n > 0 {
      DigitsValueZeros(n - 1);
      assert Repeat('0', n)[..n - 1] == Repeat('0', n - 1);
    }
  }

  /** Decimal digits of n without leading zeros; "0" for 0. */
  function NatText(n: nat): (t: string)
    ensures t != "" && AllDigits(t) && DigitsValue(t) == n
    ensures n != 0 ==> t[0] != '0'
  {
    if n < 10 then
      var t := [DigitChar(n)];
      assert t[..0] == "";
      t
    else
      var t := NatText(n / 10) + [DigitChar(n % 10)];
      assert t[..|t| - 1] == NatText(n / 10);
      t
  }

  lemma {:induction false} NatTextLength(n: nat)
    requires n > 0
    ensures Pow10(|NatText(n)| - 1) <= n < Pow10(|NatText(n)|)
  {
    if n < 10 {
      assert Pow10(1) == 10 * Pow10(0);
    } else {
      NatTextLength(n / 10);
      var k := |NatText(n / 10)|;
      assert |NatText(n)| == k + 1;
      assert Pow10(k) == 10 * Pow10(k - 1) && Pow10(k + 1) == 10 * Pow10(k);
    }
  }

  /** operator<< of an int. */
  function IntText(n: int): string {
    if n < 0 then "-" + NatText(-n) else NatText(n)
  }

  // ---- m * 10^e as an exact number ------------------------------------------------------

  datatype Decimal = Decimal(m: int, e: int)

  /** No trailing zero in the mantissa; 0 only as 0 * 10^0. */
  predicate Normal(d: Decimal) {
    if d.m == 0 then d.e == 0 else d.m % 10 != 0
  }

  /** The payload of a JSON number: every number has exactly one normal decimal. */
  type Numeric = d: Decimal | Normal(d) witness Decimal(0, 0)

  function Abs(m: int): nat {
    if m < 0 then -m else m
  }

  /** m * 10^e */
  function Norm(m: int, e: int): Numeric
    decreases Abs(m), 1
  {
    if m == 0 then Decimal(0, 0) else DropZeros(m, e)
  }

  function DropZeros(m: int, e: int): Numeric
    requires m != 0
    decreases Abs(m), 0
  {
    if m % 10 == 0 then Norm(m / 10, e + 1) else Decimal(m, e)
  }

  lemma {:induction false} NormZero(e: int)
    ensures Norm(0, e) == Decimal(0, 0)
  {
  }

  function Signed(minus: bool, n: int): int {
    if minus then -n else n
  }

  /** (-1)^minus * whole.frac * 10^exp for two runs of digits. */
  function Magnitude(minus: bool, whole: string, frac: string, exp: int): Numeric {
    Norm(Signed(minus, DigitsValue(whole + frac)), exp - |frac|)
  }

  /** Appending k zeros to the mantissa is the same as raising the exponent by k. */
  lemma {:induction false} NormShift(m: int, k: nat, e: int)
    ensures Norm(m * Pow10(k), e) == Norm(m, e + k)
    decreases k
  {
    if k > 0 && m != 0 {
      var n := m * Pow10(k - 1);
      assert m * Pow10(k) == 10 * n;
      assert n != 0;
      NormShift(m, k - 1, e + 1);
    }
  }

  /** The normal form denotes the same number. */
  lemma {:induction false} NormValue(m: int, e: int)
    ensures var d := Norm(m, e);
            m == 0 || (d.e >= e && m == d.m * Pow10(d.e - e))
    decreases Abs(m)
  {
    if m != 0 && m % 10 == 0 {
      NormValue(m / 10, e + 1);
      var d := Norm(m / 10, e + 1);
      assert Pow10(d.e - e) == 10 * Pow10(d.e - (e + 1));
      assert d.m * Pow10(d.e - e) == 10 * (d.m * Pow10(d.e - (e + 1)));
    }
  }

  /** m * 10^e and n * 10^(e + k) are the same number exactly when they have the same normal form. */
  lemma {:induction false} NormEqual(m: int, n: int, e: int, k: nat)
    ensures Norm(m, e) == Norm(n, e + k) <==> m == n * Pow10(k)
  {
    hide Norm, Pow10;
    NormShift(n, k, e);
    if Norm(m, e) == Norm(n, e + k) {
      NormValue(m, e);
      NormValue(n, e + k);
      NormNonzero(m, e);
      NormNonzero(n, e + k);
      if m != 0 {
        var d := Norm(m, e);
        Pow10Add(d.e - (e + k), k);
        assert d.m * (Pow10(d.e - (e + k)) * Pow10(k)) == d.m * Pow10(d.e - (e + k)) * Pow10(k);
      } else {
        assert 0 * Pow10(k) == 0;
      }
    }
  }

  lemma {:induction false} NormNonzero(m: int, e: int)
    ensures m == 0 <==> Norm(m, e).m == 0
    decreases Abs(m)
  {
    if m != 0 && m % 10 == 0 {
      NormNonzero(m / 10, e + 1);
    }
  }
}
