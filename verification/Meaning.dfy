module Meaning {
  // What a derivation means, spelled out by character codes, exact numbers and lookups.
  // Nothing here goes through the functions that give the parser's values: admitted characters are
  // listed by their codes, numbers are real numbers, objects are known by what their keys look up.

  import opened Text
  import opened Decimal
  import opened JsonTree
  import opened Grammar
  import opened ParserSpec
  import opened NumberPrinting
  import opened ParserTheorems

  // ---- characters -------------------------------------------------------------------------------

  /** Horizontal tab, line feed, vertical tab, form feed, carriage return, space. */
  predicate Blanks(t: string) {
    forall i | 0 <= i < |t| :: t[i] as int in {9, 10, 11, 12, 13, 32}
  }

  predicate Digits(t: string) {
    forall i | 0 <= i < |t| :: 48 <= t[i] as int <= 57
  }

  /** The code behind a backslash and the code of the character it stands for. */
  const ESCAPES: seq<(int, int)> :=
    [(0x22, 0x22), (0x5C, 0x5C), (0x2F, 0x2F), (0x62, 0x08), (0x66, 0x0C), (0x6E, 0x0A), (0x72, 0x0D), (0x74, 0x09)]

  predicate PieceMeans(p: Piece, c: char) {
    match p
    case Raw(r) => r == c && r as int != 0x22 && r as int != 0x5C
    case Escape(letter) => (letter as int, c as int) in ESCAPES
    case Unicode(code) => |code| == 4 && c as int == 0x3F
  }

  predicate PiecesMean(ps: seq<Piece>, t: string) {
    |ps| == |t| && forall i | 0 <= i < |ps| :: PieceMeans(ps[i], t[i])
  }

  lemma {:induction false} EscapeMeaning(letter: char, c: char)
    ensures PieceMeans(Escape(letter), c) <==> Unescape(letter) == Some(c)
  {
    var pair := (letter as int, c as int);
    assert pair in ESCAPES <==>
             pair == ESCAPES[0] || pair == ESCAPES[1] || pair == ESCAPES[2] || pair == ESCAPES[3]
             || pair == ESCAPES[4] || pair == ESCAPES[5] || pair == ESCAPES[6] || pair == ESCAPES[7];
  }

  lemma {:induction false} PieceMeaning(p: Piece, c: char)
    ensures PieceMeans(p, c) <==> AdmittedPiece(p) && PieceValue(p) == c
  {
    if p.Escape? {
      EscapeMeaning(p.c, c);
    }
  }

  lemma {:induction false} PiecesMeaning(ps: seq<Piece>, t: string)
    ensures PiecesMean(ps, t) <==> AdmittedPieces(ps) && PiecesValue(ps) == t
  {
    hide PieceMeans, PieceValue, AdmittedPiece;
    if ps == [] {
    } else if t == "" {
      assert PiecesValue(ps) != "";
    } else {
      PieceMeaning(ps[0], t[0]);
      PiecesMeaning(ps[1..], t[1..]);
      assert ps == [ps[0]] + ps[1..] && t == [t[0]] + t[1..];
      assert PiecesValue(ps)[0] == PieceValue(ps[0]) && PiecesValue(ps)[1..] == PiecesValue(ps[1..]);
      PiecesMeanStep(ps, t);
    }
  }

  lemma {:induction false} PiecesMeanStep(ps: seq<Piece>, t: string)
    requires ps != [] && t != ""
    ensures PiecesMean(ps, t) <==> PieceMeans(ps[0], t[0]) && PiecesMean(ps[1..], t[1..])
  {
    hide PieceMeans;
    if PieceMeans(ps[0], t[0]) && PiecesMean(ps[1..], t[1..]) {
      forall i | 0 <= i < |ps| ensures PieceMeans(ps[i], t[i]) {
        if i > 0 {
          assert ps[i] == ps[1..][i - 1] && t[i] == t[1..][i - 1];
        }
      }
    }
  }

  lemma {:induction false} BlanksMeaning(t: string)
    ensures Blanks(t) <==> AllSpace(t)
  {
  }

  // ---- numbers ----------------------------------------------------------------------------------

  /** m * 10^e */
  function Scaled(m: real, e: int): real {
    if e >= 0 then m * Pow10(e) as real else m / Pow10(-e) as real
  }

  /** The number a JSON number of the model stands for. */
  function RealOf(x: Numeric): real {
    Scaled(x.m as real, x.e)
  }

  /** A run of digits, each weighed by its place. */
  function Weighed(t: string): int {
    if t == "" then 0 else (t[0] as int - 48) * Pow10(|t| - 1) + Weighed(t[1..])
  }

  predicate ExponentSpelled(x: Exponent) {
    (x.mark as int == 0x65 || x.mark as int == 0x45) && x.sign in ["", "+", "-"] && Digits(x.digits)
  }

  predicate NumeralSpelled(n: Numeral) {
    && Digits(n.whole)
    && (n.frac.Some? ==> Digits(n.frac.value))
    && (n.exp.Some? ==> ExponentSpelled(n.exp.value))
    && (n.minus || n.whole != "")
    && (n.whole != "" || (n.frac.Some? && n.frac.value != ""))
  }

  function MagnitudeOf(n: Numeral): real {
    Weighed(n.whole) as real
    + if n.frac.Some? then Weighed(n.frac.value) as real / Pow10(|n.frac.value|) as real else 0.0
  }

  function ExponentOf(n: Numeral): int {
    if n.exp.None? then 0
    else if n.exp.value.sign == "-" then -Weighed(n.exp.value.digits)
    else Weighed(n.exp.value.digits)
  }

  function NumeralReal(n: Numeral): real {
    Scaled(if n.minus then -MagnitudeOf(n) else MagnitudeOf(n), ExponentOf(n))
  }

  predicate NumeralMeans(n: Numeral, x: Numeric) {
    NumeralSpelled(n) && RealOf(x) == NumeralReal(n)
  }

  lemma {:induction false} WeighedValue(t: string)
    requires Digits(t)
    ensures Weighed(t) == DigitsValue(t)
  {
    if t != "" {
      WeighedValue(t[1..]);
      assert t == [t[0]] + t[1..];
      DigitsValueConcat([t[0]], t[1..]);
      OneDigit(t[0]);
    }
  }

  lemma {:induction false} OneDigit(c: char)
    ensures DigitsValue([c]) == DigitValue(c)
  {
    var t: string := [c];
    assert t[..0] == "";
  }

  function Tens(e: nat): real {
    Pow10(e) as real
  }

  function Mul(a: real, b: real): real {
    a * b
  }

  function Over(a: real, b: real): real
    requires b != 0.0
  {
    a / b
  }

  lemma {:induction false} TensPositive(e: nat)
    ensures Tens(e) >= 1.0
  {
  }

  lemma {:induction false} TensSum(a: nat, b: nat)
    ensures Tens(a + b) == Mul(Tens(a), Tens(b))
  {
    Pow10Add(a, b);
    RealProduct(Pow10(a), Pow10(b));
  }

  lemma {:induction false} RealProduct(a: int, b: int)
    ensures (a * b) as real == a as real * b as real
  {
  }

  lemma {:induction false} MulAssociates(a: real, b: real, c: real)
    ensures Mul(Mul(a, b), c) == Mul(a, Mul(b, c))
  {
  }

  lemma {:induction false} OverProduct(m: real, p: real)
    requires p >= 1.0
    ensures Over(Mul(m, p), p) == m && Mul(Over(m, p), p) == m
  {
  }

  lemma {:induction false} Cancelled(m: real, p: real, q: real)
    requires p >= 1.0 && q >= 1.0 && Mul(p, q) >= 1.0
    ensures Over(Mul(m, p), Mul(p, q)) == Over(m, q)
  {
    hide Mul, Over;
    var x := Over(m, q);
    OverProduct(m, q);
    MulAssociates(x, q, p);
    MulCommutes(q, p);
    OverProduct(x, Mul(p, q));
  }

  lemma {:induction false} MulCommutes(a: real, b: real)
    ensures Mul(a, b) == Mul(b, a)
  {
  }

  lemma {:induction false} ScaledBy(m: real, e: nat)
    ensures Scaled(m, e) == Mul(m, Tens(e))
    ensures Tens(e) >= 1.0 && (e > 0 ==> Scaled(m, 0 - e) == Over(m, Tens(e)))
    ensures Scaled(m, 0) == m
  {
    assert Tens(0) == 1.0;
    assert Mul(m, Tens(0)) == m;
  }

  lemma {:induction false} ShiftUp(m: real, k: nat, e: nat)
    ensures Scaled(Mul(m, Tens(k)), e) == Scaled(m, e + k)
  {
    hide Scaled, Mul, Over, Tens;
    ScaledBy(Mul(m, Tens(k)), e);
    ScaledBy(m, e + k);
    TensSum(k, e);
    MulAssociates(m, Tens(k), Tens(e));
  }

  lemma {:induction false} ShiftAcross(m: real, k: nat, e: nat)
    requires 0 < e <= k
    ensures Scaled(Mul(m, Tens(k)), 0 - e) == Scaled(m, k - e)
  {
    hide Scaled, Mul, Over, Tens;
    ScaledBy(Mul(m, Tens(k)), e);
    ScaledBy(m, k - e);
    TensSum(k - e, e);
    MulAssociates(m, Tens(k - e), Tens(e));
    OverProduct(Mul(m, Tens(k - e)), Tens(e));
  }

  lemma {:induction false} ShiftBelow(m: real, k: nat, e: nat)
    requires k < e
    ensures Scaled(Mul(m, Tens(k)), 0 - e) == Scaled(m, k - e)
  {
    hide Scaled, Mul, Over, Tens;
    ScaledBy(Mul(m, Tens(k)), e);
    ScaledBy(m, e - k);
    TensPositive(k);
    TensSum(k, e - k);
    Cancelled(m, Tens(k), Tens(e - k));
  }

  /** k factors of ten move between the number and the exponent. */
  lemma {:induction false} ScaledShift(m: real, k: nat, e: int)
    ensures Scaled(Mul(m, Tens(k)), e) == Scaled(m, e + k)
  {
    hide Scaled, Mul, Over, Tens;
    if e >= 0 {
      ShiftUp(m, k, e);
    } else if -e <= k {
      ShiftAcross(m, k, -e);
    } else {
      ShiftBelow(m, k, -e);
    }
  }

  lemma {:induction false} ScaledQuotient(m: real, k: nat, e: int)
    ensures Tens(k) >= 1.0 && Scaled(Over(m, Tens(k)), e) == Scaled(m, e - k)
  {
    hide Scaled, Mul, Over, Tens;
    TensPositive(k);
    OverProduct(m, Tens(k));
    ScaledShift(Over(m, Tens(k)), k, e - k);
  }

  lemma {:induction false} IntMul(a: int, k: nat)
    ensures (a * Pow10(k)) as real == Mul(a as real, Tens(k))
  {
    RealProduct(a, Pow10(k));
  }

  lemma {:induction false} NormReal(m: int, e: int)
    ensures RealOf(Norm(m, e)) == Scaled(m as real, e)
  {
    hide Norm, Pow10, Scaled, Mul, Tens;
    var d := Norm(m, e);
    NormValue(m, e);
    if m == 0 {
      NormZero(e);
      ZeroScaled(e);
      ZeroScaled(0);
    } else {
      ScaledShift(d.m as real, d.e - e, e);
      IntMul(d.m, d.e - e);
    }
  }

  lemma {:induction false} ZeroScaled(e: int)
    ensures Scaled(0.0, e) == 0.0
  {
    if e < 0 {
      assert Pow10(-e) as real >= 1.0;
    }
  }

  lemma {:induction false} SameScaled(a: int, b: int, e: int)
    requires Scaled(a as real, e) == Scaled(b as real, e)
    ensures a == b
  {
    hide Pow10, Scaled, Mul, Over, Tens;
    var k := if e >= 0 then e else -e;
    ScaledBy(a as real, k);
    ScaledBy(b as real, k);
    OverProduct(a as real, Tens(k));
    OverProduct(b as real, Tens(k));
  }

  lemma {:induction false} RealBelow(x: Numeric, y: Numeric)
    requires RealOf(x) == RealOf(y) && x.e <= y.e
    ensures x == y
  {
    hide Norm, Scaled, Pow10, Mul, Tens;
    var k := y.e - x.e;
    ScaledShift(y.m as real, k, x.e);
    IntMul(y.m, k);
    SameScaled(x.m, y.m * Pow10(k), x.e);
    NormEqual(x.m, y.m, x.e, k);
    NormOfNormal(x);
    NormOfNormal(y);
  }

  /** Different numbers of the model are different real numbers. */
  lemma {:induction false} RealInjective(x: Numeric, y: Numeric)
    ensures RealOf(x) == RealOf(y) <==> x == y
  {
    if RealOf(x) == RealOf(y) {
      if x.e <= y.e {
        RealBelow(x, y);
      } else {
        RealBelow(y, x);
      }
    }
  }

  lemma {:induction false} SpelledMeaning(n: Numeral)
    ensures NumeralSpelled(n) <==> AdmittedNumeral(n)
  {
    if n.exp.Some? {
      var x := n.exp.value;
      assert x.sign in ["", "+", "-"] <==> x.sign == "" || x.sign == "+" || x.sign == "-";
    }
  }

  lemma {:induction false} ExponentSame(n: Numeral)
    requires NumeralSpelled(n)
    ensures ExponentValue(n.exp) == ExponentOf(n)
  {
    if n.exp.Some? {
      WeighedValue(n.exp.value.digits);
    }
  }

  lemma {:induction false} SumOver(a: real, b: real, p: real)
    requires p >= 1.0
    ensures Over(a + b, p) == Over(a, p) + Over(b, p) && Over(-a, p) == -Over(a, p)
  {
  }

  /** The digits around the point, over the power of ten that the fraction has digits. */
  lemma {:induction false} MagnitudeSame(n: Numeral)
    requires NumeralSpelled(n)
    ensures var f := FracDigits(n.frac);
            Tens(|f|) >= 1.0 && Over(DigitsValue(n.whole + f) as real, Tens(|f|)) == MagnitudeOf(n)
  {
    hide Pow10, Weighed, DigitsValue, Mul, Over, Tens;
    var f := FracDigits(n.frac);
    var whole, part := DigitsValue(n.whole), DigitsValue(f);
    WeighedValue(n.whole);
    WeighedValue(f);
    DigitsValueConcat(n.whole, f);
    TensPositive(|f|);
    IntMul(whole, |f|);
    assert DigitsValue(n.whole + f) as real == Mul(whole as real, Tens(|f|)) + part as real;
    SumOver(Mul(whole as real, Tens(|f|)), part as real, Tens(|f|));
    OverProduct(whole as real, Tens(|f|));
    FractionOver(n, f);
  }

  lemma {:induction false} FractionOver(n: Numeral, f: string)
    requires f == FracDigits(n.frac)
    ensures Tens(|f|) >= 1.0
    ensures MagnitudeOf(n) == Weighed(n.whole) as real + Over(Weighed(f) as real, Tens(|f|))
  {
    if n.frac.None? {
      EmptyRun();
      assert Over(0.0, Tens(0)) == 0.0;
    }
  }

  lemma {:induction false} EmptyRun()
    ensures Weighed("") == 0 == DigitsValue("") && Pow10(0) == 1
  {
  }

  lemma {:induction false} NumeralValueReal(n: Numeral)
    requires NumeralSpelled(n)
    ensures RealOf(NumeralValue(n)) == NumeralReal(n)
  {
    hide Norm, Scaled, Pow10, DigitsValue, RealOf, ExponentValue, ExponentOf, MagnitudeOf, NumeralSpelled;
    hide Mul, Over, Tens;
    var f := FracDigits(n.frac);
    var digits := DigitsValue(n.whole + f);
    MagnitudeSame(n);
    ExponentSame(n);
    NormReal(Signed(n.minus, digits), ExponentValue(n.exp) - |f|);
    ScaledQuotient(Signed(n.minus, digits) as real, |f|, ExponentValue(n.exp));
    SumOver(digits as real, 0.0, Tens(|f|));
    assert Signed(true, digits) as real == -(digits as real);
  }

  lemma {:induction false} NumeralMeaning(n: Numeral, x: Numeric)
    ensures NumeralMeans(n, x) <==> AdmittedNumeral(n) && NumeralValue(n) == x
  {
    hide NumeralSpelled, AdmittedNumeral, NumeralReal, RealOf, NumeralValue;
    SpelledMeaning(n);
    if NumeralSpelled(n) {
      NumeralValueReal(n);
      RealInjective(NumeralValue(n), x);
    }
  }

  // ---- trees ------------------------------------------------------------------------------------

  predicate WordMeans(w: Word, v: JsonValue) {
    match w
    case WordTrue => v == Boolean(true)
    case WordFalse => v == Boolean(false)
    case WordNull => v == Null
  }

  /** The value of the last binding of the key. */
  function LastBinding(bindings: seq<Member>, key: string): Option<JsonValue> {
    if bindings == [] then None
    else
      var last := bindings[|bindings| - 1];
      if last.key == key then Some(last.value) else LastBinding(bindings[..|bindings| - 1], key)
  }

  /** The map binds every key to its last value and keeps the keys in order. */
  ghost predicate Collects(ms: seq<Member>, bindings: seq<Member>) {
    Sorted(ms) && forall key :: Lookup(ms, key) == LastBinding(bindings, key)
  }

  ghost predicate ValueMeans(d: Syntax, v: JsonValue)
    decreases d, 0
  {
    match d
    case Keyword(w) => WordMeans(w, v)
    case Num(n) => v.Number? && NumeralMeans(n, v.n)
    case Str(ps) => v.String? && PiecesMean(ps, v.s)
    case EmptyArr(gap) => Blanks(gap) && v == Array([])
    case Arr(gap, items) => Blanks(gap) && items.lead == "" && v.Array? && ItemsMean(items, v.items)
    case EmptyObj(gap) => Blanks(gap) && v == Object([])
    case Obj(gap, pairs) => Blanks(gap) && pairs.p.lead == "" && v.Object? && PairsMean(pairs, v.members)
  }

  ghost predicate ItemsMean(items: Items, vs: seq<JsonValue>)
    decreases items, 1
  {
    && vs != [] && Blanks(items.lead) && ValueMeans(items.v, vs[0]) && Blanks(items.trail)
    && (if items.LastItem? then |vs| == 1 else ItemsMean(items.rest, vs[1..]))
  }

  ghost predicate PairMeans(p: Pair, m: Member)
    decreases p, 1
  {
    && Blanks(p.lead) && PiecesMean(p.key, m.key) && Blanks(p.beforeColon) && Blanks(p.afterColon)
    && ValueMeans(p.v, m.value) && Blanks(p.trail)
  }

  /** The bindings of an object in the order of the text. */
  ghost predicate BindingsMean(pairs: Pairs, bindings: seq<Member>)
    decreases pairs, 2
  {
    && bindings != [] && PairMeans(pairs.p, bindings[0])
    && (if pairs.LastPair? then |bindings| == 1 else BindingsMean(pairs.rest, bindings[1..]))
  }

  ghost predicate PairsMean(pairs: Pairs, ms: seq<Member>)
    decreases pairs, 3
  {
    exists bindings: seq<Member> :: BindingsMean(pairs, bindings) && Collects(ms, bindings)
  }

  ghost predicate FormMeans(f: Form, v: JsonValue) {
    match f
    case Closed(d) => ValueMeans(d, v)
    case OpenArray(gap) => Blanks(gap) && v == Array([])
    case OpenItems(gap, items) => Blanks(gap) && items.lead == "" && v.Array? && ItemsMean(items, v.items)
    case OpenObject(gap) => Blanks(gap) && v == Object([])
    case OpenPairs(gap, pairs) => Blanks(gap) && pairs.p.lead == "" && v.Object? && PairsMean(pairs, v.members)
  }

  ghost predicate DocumentMeans(doc: Document, v: JsonValue) {
    Blanks(doc.lead) && FormMeans(doc.form, v) && Blanks(doc.trail) && (!doc.form.Closed? ==> doc.trail == "")
  }

  // ---- the parser's values are what is meant ------------------------------------------------------

  function Bindings(pairs: Pairs): seq<Member> {
    [Member(PiecesValue(pairs.p.key), SyntaxValue(pairs.p.v))]
    + if pairs.LastPair? then [] else Bindings(pairs.rest)
  }

  lemma {:induction false} LastAppended(bindings: seq<Member>, m: Member, key: string)
    ensures LastBinding(bindings + [m], key) == if m.key == key then Some(m.value) else LastBinding(bindings, key)
  {
    assert (bindings + [m])[..|bindings|] == bindings;
  }

  /** Assigning binding after binding collects them. */
  lemma {:induction false} PairsCollect(pairs: Pairs, before: seq<Member>, done: seq<Member>)
    requires Collects(before, done)
    ensures Collects(PairsValue(pairs, before), done + Bindings(pairs))
    decreases pairs
  {
    hide PiecesValue, SyntaxValue, Lookup, LastBinding, Put, Sorted;
    var m := Member(PiecesValue(pairs.p.key), SyntaxValue(pairs.p.v));
    var now := Put(before, m.key, m.value);
    PutSorted(before, m.key, m.value);
    forall key ensures Lookup(now, key) == LastBinding(done + [m], key) {
      PutLookup(before, m.key, m.value, key);
      LastAppended(done, m, key);
    }
    if pairs.MorePairs? {
      PairsCollect(pairs.rest, now, done + [m]);
      assert done + [m] + Bindings(pairs.rest) == done + Bindings(pairs);
    } else {
      assert done + Bindings(pairs) == done + [m];
    }
  }

  lemma {:induction false} CollectsUnique(a: seq<Member>, b: seq<Member>, bindings: seq<Member>)
    requires Collects(a, bindings) && Collects(b, bindings)
    ensures a == b
  {
    forall key ensures Lookup(a, key) == Lookup(b, key) {
      assert Lookup(a, key) == LastBinding(bindings, key);
    }
    MapExtensional(a, b);
  }

  lemma {:induction false} NothingCollected()
    ensures Collects([], [])
  {
  }

  lemma {:induction false} ValueMeaning(d: Syntax, v: JsonValue)
    ensures ValueMeans(d, v) <==> Admitted(d) && SyntaxValue(d) == v
    decreases d, 0
  {
    hide Blanks, PiecesMean, NumeralMeans, AdmittedPieces, AdmittedNumeral, NumeralValue, PiecesValue, AllSpace;
    match d {
      case Keyword(_) =>
      case Num(n) =>
        if v.Number? {
          NumeralMeaning(n, v.n);
        }
      case Str(ps) =>
        if v.String? {
          PiecesMeaning(ps, v.s);
        }
      case EmptyArr(gap) => BlanksMeaning(gap);
      case Arr(gap, items) =>
        BlanksMeaning(gap);
        if v.Array? {
          ItemsMeaning(items, v.items);
        }
      case EmptyObj(gap) => BlanksMeaning(gap);
      case Obj(gap, pairs) =>
        BlanksMeaning(gap);
        if v.Object? {
          PairsMeaning(pairs, v.members);
        }
    }
  }

  lemma {:induction false} ItemsMeaning(items: Items, vs: seq<JsonValue>)
    ensures ItemsMean(items, vs) <==> AdmittedItems(items) && ItemsValue(items) == vs
    decreases items, 1
  {
    hide Blanks, AllSpace, ValueMeans, SyntaxValue, Admitted;
    BlanksMeaning(items.lead);
    BlanksMeaning(items.trail);
    assert ItemsValue(items) != [] && ItemsValue(items)[0] == SyntaxValue(items.v);
    if vs != [] {
      ValueMeaning(items.v, vs[0]);
      assert vs == [vs[0]] + vs[1..];
      if items.MoreItems? {
        ItemsMeaning(items.rest, vs[1..]);
        assert ItemsValue(items)[1..] == ItemsValue(items.rest);
      }
    }
  }

  lemma {:induction false} PairMeaning(p: Pair, m: Member)
    ensures PairMeans(p, m) <==> AdmittedPair(p) && m == Member(PiecesValue(p.key), SyntaxValue(p.v))
    decreases p, 1
  {
    hide Blanks, AllSpace, ValueMeans, SyntaxValue, Admitted, PiecesMean, AdmittedPieces, PiecesValue;
    BlanksMeaning(p.lead);
    BlanksMeaning(p.beforeColon);
    BlanksMeaning(p.afterColon);
    BlanksMeaning(p.trail);
    PiecesMeaning(p.key, m.key);
    ValueMeaning(p.v, m.value);
  }

  lemma {:induction false} BindingsMeaning(pairs: Pairs, bindings: seq<Member>)
    ensures BindingsMean(pairs, bindings) <==> AdmittedPairs(pairs) && Bindings(pairs) == bindings
    decreases pairs, 2
  {
    hide PairMeans, AdmittedPair, SyntaxValue, PiecesValue;
    assert Bindings(pairs) != [];
    if bindings != [] {
      PairMeaning(pairs.p, bindings[0]);
      assert bindings == [bindings[0]] + bindings[1..];
      if pairs.MorePairs? {
        BindingsMeaning(pairs.rest, bindings[1..]);
        assert Bindings(pairs)[1..] == Bindings(pairs.rest);
      }
    }
  }

  lemma {:induction false} PairsMeaning(pairs: Pairs, ms: seq<Member>)
    ensures PairsMean(pairs, ms) <==> AdmittedPairs(pairs) && PairsValue(pairs, []) == ms
    decreases pairs, 3
  {
    hide BindingsMean, Collects, AdmittedPairs, PairsValue, Bindings;
    BindingsMeaning(pairs, Bindings(pairs));
    NothingCollected();
    PairsCollect(pairs, [], []);
    assert [] + Bindings(pairs) == Bindings(pairs);
    if PairsMean(pairs, ms) {
      var bindings: seq<Member> :| BindingsMean(pairs, bindings) && Collects(ms, bindings);
      BindingsMeaning(pairs, bindings);
      CollectsUnique(ms, PairsValue(pairs, []), bindings);
    }
  }

  lemma {:induction false} DocumentMeaning(doc: Document, v: JsonValue)
    ensures DocumentMeans(doc, v) <==> AdmittedDocument(doc) && DocumentValue(doc) == v
  {
    hide Blanks, AllSpace, ValueMeans, SyntaxValue, Admitted, ItemsMean, PairsMean;
    hide AdmittedItems, AdmittedPairs, ItemsValue, PairsValue;
    BlanksMeaning(doc.lead);
    BlanksMeaning(doc.trail);
    match doc.form {
      case Closed(d) => ValueMeaning(d, v);
      case OpenArray(gap) => BlanksMeaning(gap);
      case OpenItems(gap, items) =>
        BlanksMeaning(gap);
        if v.Array? {
          ItemsMeaning(items, v.items);
        }
      case OpenObject(gap) => BlanksMeaning(gap);
      case OpenPairs(gap, pairs) =>
        BlanksMeaning(gap);
        if v.Object? {
          PairsMeaning(pairs, v.members);
        }
    }
  }

  /** A text parses to v exactly when it is spelled by a document that means v. */
  lemma {:induction false} ParseMeans(s: string, v: JsonValue)
    ensures (Parse(s).Ok? && Parse(s).value == v)
            <==> exists doc: Document :: DocumentText(doc) == s && DocumentMeans(doc, v)
  {
    hide Parse, DocumentText, DocumentMeans, DocumentValue, AdmittedDocument;
    ParseCharacterized(s, v);
    forall doc: Document ensures DocumentMeans(doc, v) <==> AdmittedDocument(doc) && DocumentValue(doc) == v {
      DocumentMeaning(doc, v);
    }
    if Derives(s, v) {
      var doc: Document :| AdmittedDocument(doc) && DocumentText(doc) == s && DocumentValue(doc) == v;
      assert DocumentText(doc) == s && DocumentMeans(doc, v);
    }
  }
}
