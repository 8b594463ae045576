/**
 Where the scanners stop on a text that spells a known piece of syntax: white space, runs of
 digits, numerals and the literals of strings.
 */
module Scanning {
  import opened Text
  import opened Decimal
  import opened Grammar
  import opened ParserSpec

  lemma {:induction false} SkipWsOver(s: string, pos: nat, gap: string)
    requires At(s, pos, gap) && AllSpace(gap)
    requires pos + |gap| < |s| ==> !IsSpace(s[pos + |gap|])
    ensures SkipWs(s, pos) == pos + |gap|
  {
    SkipRestOver(s, pos, gap, 0);
  }

  lemma {:induction false} SkipRestOver(s: string, pos: nat, gap: string, i: nat)
    requires i <= |gap| && RestAt(s, pos, gap, i) && AllSpace(gap)
    requires pos + |gap| - i < |s| ==> !IsSpace(s[pos + |gap| - i])
    ensures SkipWs(s, pos) == pos + |gap| - i
    decreases |gap| - i
  {
    if i < |gap| {
      SkipRestOver(s, pos + 1, gap, i + 1);
    }
  }

  lemma {:induction false} SkipDigitsOver(s: string, pos: nat, digits: string)
    requires At(s, pos, digits) && AllDigits(digits)
    requires pos + |digits| < |s| ==> !IsDigit(s[pos + |digits|])
    ensures SkipDigits(s, pos) == pos + |digits|
  {
    DigitsRestOver(s, pos, digits, 0);
  }

  lemma {:induction false} DigitsRestOver(s: string, pos: nat, digits: string, i: nat)
    requires i <= |digits| && RestAt(s, pos, digits, i) && AllDigits(digits)
    requires pos + |digits| - i < |s| ==> !IsDigit(s[pos + |digits| - i])
    ensures SkipDigits(s, pos) == pos + |digits| - i
    decreases |digits| - i
  {
    if i < |digits| {
      DigitsRestOver(s, pos + 1, digits, i + 1);
    }
  }

  lemma {:induction false} SkipWsSpaces(s: string, pos: nat)
    requires pos <= |s|
    ensures AllSpace(s[pos..SkipWs(s, pos)])
    ensures SkipWs(s, pos) < |s| ==> !IsSpace(s[SkipWs(s, pos)])
    decreases |s| - pos
  {
    if pos < |s| && IsSpace(s[pos]) {
      SkipWsSpaces(s, pos + 1);
      assert s[pos..SkipWs(s, pos)] == [s[pos]] + s[pos + 1..SkipWs(s, pos)];
    }
  }

  lemma {:induction false} SkipDigitsDigits(s: string, pos: nat)
    requires pos <= |s|
    ensures AllDigits(s[pos..SkipDigits(s, pos)])
    ensures SkipDigits(s, pos) < |s| ==> !IsDigit(s[SkipDigits(s, pos)])
    decreases |s| - pos
  {
    if pos < |s| && IsDigit(s[pos]) {
      SkipDigitsDigits(s, pos + 1);
      assert s[pos..SkipDigits(s, pos)] == [s[pos]] + s[pos + 1..SkipDigits(s, pos)];
    }
  }

  /** No character at pos could prolong a numeral. */
  predicate NumberEnds(s: string, pos: nat) {
    pos < |s| ==> !IsDigit(s[pos]) && s[pos] != '.' && !IsExpMark(s[pos])
  }

  lemma {:induction false} FractionOver(s: string, pos: nat, f: Option<string>, e: Option<Exponent>)
    requires At(s, pos, FracText(f)) && At(s, pos + |FracText(f)|, ExpText(e))
    requires AllDigits(FracDigits(f)) && (e.Some? ==> AdmittedExponent(e.value))
    requires NumberEnds(s, pos + |FracText(f)| + |ExpText(e)|)
    ensures AfterFraction(s, pos) == pos + |FracText(f)|
    ensures pos < |s| && e.Some? && f.None? ==> !IsDigit(s[pos])
  {
    var p := pos + |FracText(f)|;
    if e.Some? {
    } else {
      assert ExpText(e) == "";
    }
    if f.Some? {
      AtConcat(s, pos, ".", f.value);
      SkipDigitsOver(s, pos + 1, f.value);
    }
  }

  lemma {:induction false} ExponentOver(s: string, pos: nat, e: Option<Exponent>)
    requires At(s, pos, ExpText(e)) && (e.Some? ==> AdmittedExponent(e.value))
    requires NumberEnds(s, pos + |ExpText(e)|) && SignEnds(s, pos + |ExpText(e)|)
    ensures AfterExponent(s, pos) == pos + |ExpText(e)|
    ensures StodExponent(s, pos) == ExponentValue(e)
  {
    hide At, SkipDigits, DigitsValue;
    if e.Some? {
      SignOver(s, pos, e.value);
      var x := e.value;
      var q := pos + 1 + |x.sign|;
      assert pos + |ExpText(e)| == q + |x.digits|;
      SkipDigitsOver(s, q, x.digits);
      AtIsSlice(s, q, x.digits);
    }
  }

  lemma {:induction false} SignOver(s: string, pos: nat, x: Exponent)
    requires At(s, pos, ExpText(Some(x))) && AdmittedExponent(x)
    requires SignEnds(s, pos + |ExpText(Some(x))|)
    ensures s[pos] == x.mark
    ensures AfterSign(s, pos + 1) == pos + 1 + |x.sign| && At(s, pos + 1 + |x.sign|, x.digits)
    ensures x.sign != "" ==> s[pos + 1] == x.sign[0]
  {
    AtConcat(s, pos, [x.mark] + x.sign, x.digits);
    AtConcat(s, pos, [x.mark], x.sign);
    if x.sign == "" && x.digits != "" {
      assert IsDigit(x.digits[0]);
    }
  }

  /** No sign character stands at pos. */
  predicate SignEnds(s: string, pos: nat) {
    pos < |s| ==> s[pos] != '+' && s[pos] != '-'
  }

  function SignText(n: Numeral): string {
    if n.minus then "-" else ""
  }

  lemma {:induction false} NumeralParts(s: string, pos: nat, n: Numeral)
    requires At(s, pos, NumeralText(n))
    ensures var p0 := pos + |SignText(n)|;
            var p1 := p0 + |n.whole|;
            var p2 := p1 + |FracText(n.frac)|;
            && At(s, pos, SignText(n)) && At(s, p0, n.whole) && At(s, p1, FracText(n.frac)) && At(s, p2, ExpText(n.exp))
            && pos + |NumeralText(n)| == p2 + |ExpText(n.exp)|
  {
    var sign := SignText(n);
    AtConcat(s, pos, sign + n.whole + FracText(n.frac), ExpText(n.exp));
    AtConcat(s, pos, sign + n.whole, FracText(n.frac));
    AtConcat(s, pos, sign, n.whole);
  }

  /** What follows the whole part is no digit. */
  lemma {:induction false} WholeEnds(s: string, pos: nat, f: Option<string>, e: Option<Exponent>)
    requires At(s, pos, FracText(f)) && At(s, pos + |FracText(f)|, ExpText(e))
    requires (e.Some? ==> AdmittedExponent(e.value)) && NumberEnds(s, pos + |FracText(f)| + |ExpText(e)|)
    ensures pos < |s| ==> !IsDigit(s[pos])
  {
    hide At;
    if f.Some? {
      AtIndex(s, pos, FracText(f), 0);
    } else if e.Some? {
      AtIndex(s, pos, ExpText(e), 0);
    }
  }

  lemma {:induction false} MinusOver(s: string, pos: nat, n: Numeral)
    requires At(s, pos, SignText(n)) && At(s, pos + |SignText(n)|, n.whole) && ScannedNumeral(n)
    ensures AfterMinus(s, pos) == pos + |SignText(n)|
  {
    hide At;
    if n.minus {
      AtIndex(s, pos, SignText(n), 0);
    } else {
      AtIndex(s, pos, n.whole, 0);
      assert IsDigit(n.whole[0]);
    }
  }

  /** Every stop of the number scanner on a spelled numeral. */
  lemma {:induction false} NumeralOver(s: string, pos: nat, n: Numeral)
    requires At(s, pos, NumeralText(n)) && ScannedNumeral(n)
    requires NumberEnds(s, pos + |NumeralText(n)|) && SignEnds(s, pos + |NumeralText(n)|)
    ensures var p0 := pos + |SignText(n)|;
            var p1 := p0 + |n.whole|;
            var p2 := p1 + |FracText(n.frac)|;
            && AfterMinus(s, pos) == p0 && SkipDigits(s, p0) == p1 && AfterFraction(s, p1) == p2
            && AfterExponent(s, p2) == pos + |NumeralText(n)|
            && StodExponent(s, p2) == ExponentValue(n.exp)
  {
    hide At, AfterMinus, AfterExponent, StodExponent, ExponentValue, AfterFraction, SkipDigits, NumeralText, NumberEnds;
    NumeralParts(s, pos, n);
    var p0 := pos + |SignText(n)|;
    var p1 := p0 + |n.whole|;
    FractionOver(s, p1, n.frac, n.exp);
    ExponentOver(s, p1 + |FracText(n.frac)|, n.exp);
    WholeEnds(s, p1, n.frac, n.exp);
    SkipDigitsOver(s, p0, n.whole);
    MinusOver(s, pos, n);
  }

  lemma {:induction false} LexNumberOver(s: string, pos: nat, n: Numeral)
    requires At(s, pos, NumeralText(n)) && ScannedNumeral(n)
    requires NumberEnds(s, pos + |NumeralText(n)|) && SignEnds(s, pos + |NumeralText(n)|)
    ensures LexNumber(s, pos) == pos + |NumeralText(n)|
  {
    NumeralOver(s, pos, n);
  }

  /** stod throws on a scanned numeral exactly when it has no digit around the point. */
  lemma {:induction false} StodNumeral(t: string, n: Numeral)
    requires ScannedNumeral(n) && t == NumeralText(n)
    ensures Stod(t) == if AdmittedNumeral(n) then Some(NumeralValue(n)) else None
  {
    assert At(t, 0, NumeralText(n)) by {
      AtIsSlice(t, 0, t);
    }
    StodSpelled(t, n);
  }

  lemma {:induction false} StodSpelled(t: string, n: Numeral)
    requires ScannedNumeral(n) && At(t, 0, NumeralText(n)) && |t| == |NumeralText(n)|
    ensures StodParts(t) == (n.minus, n.whole, FracDigits(n.frac), ExponentValue(n.exp))
  {
    hide StodParts, NumeralText, At, SkipDigits, AfterFraction, AfterExponent, StodExponent;
    NumeralOver(t, 0, n);
    NumeralParts(t, 0, n);
    StodStops(t, |SignText(n)|, n.whole, n.frac);
  }

  lemma {:induction false} FractionSlice(t: string, p1: nat, f: Option<string>)
    requires At(t, p1, FracText(f))
    ensures (if |FracText(f)| == 0 then "" else t[p1 + 1..p1 + |FracText(f)|]) == FracDigits(f)
  {
    hide At;
    if f.Some? {
      AtConcat(t, p1, ".", f.value);
      SliceOf(t, p1 + 1, f.value);
    }
  }

  /** The digits stod takes are the ones between the stops of the scanner. */
  lemma {:induction false} StodStops(t: string, p0: nat, whole: string, f: Option<string>)
    requires At(t, p0, whole) && At(t, p0 + |whole|, FracText(f))
    requires p0 == AfterMinus(t, 0) && p0 + |whole| == SkipDigits(t, p0)
    requires p0 + |whole| + |FracText(f)| == AfterFraction(t, p0 + |whole|)
    ensures StodParts(t) == (p0 > 0, whole, FracDigits(f), StodExponent(t, p0 + |whole| + |FracText(f)|))
  {
    hide SkipDigits, At, StodExponent, AfterMinus, AfterFraction, FracText, FracDigits;
    var p1 := p0 + |whole|;
    assert t[p0..p1] == whole by {
      SliceOf(t, p0, whole);
    }
    FractionSlice(t, p1, f);
  }

  lemma {:induction false} SliceOf(t: string, pos: nat, w: string)
    requires At(t, pos, w)
    ensures t[pos..pos + |w|] == w
  {
    AtIsSlice(t, pos, w);
  }

  lemma {:induction false} PieceOver(s: string, pos: nat, p: Piece)
    requires At(s, pos, PieceText(p)) && AdmittedPiece(p)
    ensures pos < |s| && s[pos] != '\"'
    ensures if p.Raw? then s[pos] == p.c != '\\'
            else s[pos] == '\\' && pos + 1 < |s|
                 && (pos + |PieceText(p)| < |s| ==>
                       ParseEscape(s, pos + 1) == Ok(PieceValue(p), pos + |PieceText(p)|))
  {
    AtIndex(s, pos, PieceText(p), 0);
    if !p.Raw? {
      AtIndex(s, pos, PieceText(p), 1);
    }
  }

  /** One turn of the string loop. */
  lemma {:induction false} PieceTurn(s: string, pos: nat, p: Piece, str: string)
    requires At(s, pos, PieceText(p)) && AdmittedPiece(p) && pos + |PieceText(p)| < |s|
    ensures ScanString(s, pos, str) == ScanString(s, pos + |PieceText(p)|, str + [PieceValue(p)])
  {
    hide At, ParseEscape;
    PieceOver(s, pos, p);
  }

  lemma {:induction false} ScanEnd(s: string, pos: nat, str: string)
    requires pos < |s| && s[pos] == '\"'
    ensures ScanString(s, pos, str) == Ok(str, pos + 1)
  {
  }

  lemma {:induction false} Prepend(a: string, b: string, c: string)
    ensures a + (b + c) == a + b + c
  {
  }

  /** A scanned string literal: the decoded characters are appended and the closing quote is passed. */
  lemma {:induction false} ScanStringOver(s: string, pos: nat, ps: seq<Piece>, str: string)
    requires At(s, pos, PiecesText(ps) + "\"") && AdmittedPieces(ps)
    ensures ScanString(s, pos, str) == Ok(str + PiecesValue(ps), pos + |PiecesText(ps)| + 1)
    decreases |ps|
  {
    hide At, ScanString, PieceText, PieceValue, AdmittedPiece;
    if ps == [] {
      assert PiecesText(ps) + "\"" == "\"";
      AtIndex(s, pos, "\"", 0);
      ScanEnd(s, pos, str);
      assert str + PiecesValue(ps) == str;
    } else {
      var w := PieceText(ps[0]);
      var rest := PiecesText(ps[1..]) + "\"";
      assert PiecesText(ps) + "\"" == w + rest;
      AtConcat(s, pos, w, rest);
      PieceTurn(s, pos, ps[0], str);
      ScanStringOver(s, pos + |w|, ps[1..], str + [PieceValue(ps[0])]);
      Prepend(str, [PieceValue(ps[0])], PiecesValue(ps[1..]));
    }
  }

  lemma {:induction false} ParseStringOver(s: string, pos: nat, ps: seq<Piece>)
    requires At(s, pos, QuotedText(ps)) && AdmittedPieces(ps)
    ensures pos < |s| && s[pos] == '\"'
    ensures ParseString(s, pos) == Ok(PiecesValue(ps), pos + |QuotedText(ps)|)
  {
    assert QuotedText(ps) == "\"" + (PiecesText(ps) + "\"");
    AtConcat(s, pos, "\"", PiecesText(ps) + "\"");
    ScanStringOver(s, pos + 1, ps, "");
    assert "" + PiecesValue(ps) == PiecesValue(ps);
  }
}
