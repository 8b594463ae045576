/** Every accepted text has exactly one derivation: two derivations of one text are compared piece
    by piece. */
module Uniqueness {
  import opened Text
  import opened Grammar
  import opened ParserSpec
  import opened Scanning
  import opened Completeness
  import opened Truncation

  lemma {:induction false} SameAt(s: string, pos: nat, a: string, b: string)
    requires At(s, pos, a) && At(s, pos, b) && |a| == |b|
    ensures a == b
  {
    AtIsSlice(s, pos, a);
    AtIsSlice(s, pos, b);
  }

  predicate Visible(s: string, pos: nat) {
    pos < |s| ==> !IsSpace(s[pos])
  }

  lemma {:induction false} GapUnique(s: string, pos: nat, a: string, b: string)
    requires At(s, pos, a) && AllSpace(a) && Visible(s, pos + |a|)
    requires At(s, pos, b) && AllSpace(b) && Visible(s, pos + |b|)
    ensures a == b
  {
    SkipWsOver(s, pos, a);
    SkipWsOver(s, pos, b);
    SameAt(s, pos, a, b);
  }

  // ---- numerals ---------------------------------------------------------------------------------

  lemma {:induction false} FracUnique(a: Option<string>, b: Option<string>)
    requires FracText(a) == FracText(b)
    ensures a == b
  {
    if a.Some? && b.Some? {
      assert FracText(a)[1..] == a.value && FracText(b)[1..] == b.value;
    }
  }

  lemma {:induction false} ExpUnique(a: Option<Exponent>, b: Option<Exponent>)
    requires ExpText(a) == ExpText(b)
    requires (a.Some? ==> AdmittedExponent(a.value)) && (b.Some? ==> AdmittedExponent(b.value))
    ensures a == b
  {
    if a.Some? && b.Some? {
      var x, y := a.value, b.value;
      assert ExpText(a)[0] == x.mark && ExpText(b)[0] == y.mark;
      assert ExpText(a)[1..] == x.sign + x.digits && ExpText(b)[1..] == y.sign + y.digits;
      SignUnique(x.sign, x.digits, y.sign, y.digits);
    }
  }

  lemma {:induction false} SignUnique(s: string, d: string, t: string, e: string)
    requires s + d == t + e && AllDigits(d) && AllDigits(e)
    requires (s == "" || s == "+" || s == "-") && (t == "" || t == "+" || t == "-")
    ensures s == t && d == e
  {
    var w := s + d;
    assert s == "" && w != "" ==> w[0] == d[0] && IsDigit(w[0]);
    assert t == "" && w != "" ==> w[0] == e[0] && IsDigit(w[0]);
    assert s != "" ==> w[0] == s[0] && s == [s[0]];
    assert t != "" ==> w[0] == t[0] && t == [t[0]];
    assert w[|s|..] == d && w[|t|..] == e;
  }

  lemma {:induction false} NumeralUnique(s: string, pos: nat, a: Numeral, b: Numeral)
    requires At(s, pos, NumeralText(a)) && ScannedNumeral(a)
    requires NumberEnds(s, pos + |NumeralText(a)|) && SignEnds(s, pos + |NumeralText(a)|)
    requires At(s, pos, NumeralText(b)) && ScannedNumeral(b)
    requires NumberEnds(s, pos + |NumeralText(b)|) && SignEnds(s, pos + |NumeralText(b)|)
    ensures a == b
  {
    hide At, NumeralText, FracText, ExpText, NumberEnds, SignEnds, ExponentValue;
    hide AfterMinus, SkipDigits, AfterFraction, AfterExponent, StodExponent;
    NumeralOver(s, pos, a);
    NumeralOver(s, pos, b);
    NumeralParts(s, pos, a);
    NumeralParts(s, pos, b);
    var p0 := pos + |SignText(a)|;
    var p1 := p0 + |a.whole|;
    SameAt(s, p0, a.whole, b.whole);
    SameAt(s, p1, FracText(a.frac), FracText(b.frac));
    FracUnique(a.frac, b.frac);
    SameAt(s, p1 + |FracText(a.frac)|, ExpText(a.exp), ExpText(b.exp));
    ExpUnique(a.exp, b.exp);
  }

  // ---- strings ------------------------------------------------------------------------------------

  /** The first piece is told by its first two characters. */
  lemma {:induction false} PieceUnique(s: string, pos: nat, p: Piece, q: Piece)
    requires At(s, pos, PieceText(p)) && AdmittedPiece(p) && At(s, pos, PieceText(q)) && AdmittedPiece(q)
    ensures p == q
  {
    hide At;
    AtIndex(s, pos, PieceText(p), 0);
    AtIndex(s, pos, PieceText(q), 0);
    if !p.Raw? && !q.Raw? {
      AtIndex(s, pos, PieceText(p), 1);
      AtIndex(s, pos, PieceText(q), 1);
      if p.Unicode? && q.Unicode? {
        AtConcat(s, pos, "\\u", p.code);
        AtConcat(s, pos, "\\u", q.code);
        SameAt(s, pos + 2, p.code, q.code);
      }
    }
  }

  lemma {:induction false} PiecesParts(s: string, pos: nat, ps: seq<Piece>)
    requires At(s, pos, PiecesText(ps) + "\"") && AdmittedPieces(ps)
    ensures pos < |s| && (s[pos] == '\"' <==> ps == [])
    ensures ps != [] ==> At(s, pos, PieceText(ps[0])) && At(s, pos + |PieceText(ps[0])|, PiecesText(ps[1..]) + "\"")
  {
    hide At, PieceText, AdmittedPiece;
    if ps == [] {
      assert PiecesText(ps) + "\"" == "\"";
      AtIndex(s, pos, "\"", 0);
    } else {
      var w := PieceText(ps[0]);
      assert PiecesText(ps) + "\"" == w + (PiecesText(ps[1..]) + "\"");
      AtConcat(s, pos, w, PiecesText(ps[1..]) + "\"");
      PieceOver(s, pos, ps[0]);
    }
  }

  lemma {:induction false} PiecesUnique(s: string, pos: nat, ps: seq<Piece>, qs: seq<Piece>)
    requires At(s, pos, PiecesText(ps) + "\"") && AdmittedPieces(ps)
    requires At(s, pos, PiecesText(qs) + "\"") && AdmittedPieces(qs)
    ensures ps == qs
    decreases |ps|
  {
    hide At, PieceText, PiecesText, AdmittedPiece;
    PiecesParts(s, pos, ps);
    PiecesParts(s, pos, qs);
    if ps != [] {
      PieceUnique(s, pos, ps[0], qs[0]);
      PiecesUnique(s, pos + |PieceText(ps[0])|, ps[1..], qs[1..]);
      assert ps == [ps[0]] + ps[1..] && qs == [qs[0]] + qs[1..];
    }
  }

  lemma {:induction false} QuotedUnique(s: string, pos: nat, ps: seq<Piece>, qs: seq<Piece>)
    requires At(s, pos, QuotedText(ps)) && AdmittedPieces(ps) && At(s, pos, QuotedText(qs)) && AdmittedPieces(qs)
    ensures ps == qs
  {
    hide At, PiecesText, AdmittedPieces;
    assert QuotedText(ps) == "\"" + (PiecesText(ps) + "\"") && QuotedText(qs) == "\"" + (PiecesText(qs) + "\"");
    AtConcat(s, pos, "\"", PiecesText(ps) + "\"");
    AtConcat(s, pos, "\"", PiecesText(qs) + "\"");
    PiecesUnique(s, pos + 1, ps, qs);
  }

  // ---- values ---------------------------------------------------------------------------------------

  /** The first character of a value tells which kind it is. */
  lemma {:induction false} KindAt(s: string, pos: nat, d: Syntax)
    requires At(s, pos, SyntaxText(d)) && Admitted(d)
    ensures pos < |s|
    ensures s[pos] == '[' <==> d.EmptyArr? || d.Arr?
    ensures s[pos] == '{' <==> d.EmptyObj? || d.Obj?
    ensures s[pos] == '\"' <==> d.Str?
    ensures s[pos] == '-' || IsDigit(s[pos]) <==> d.Num?
    ensures s[pos] == 't' || s[pos] == 'f' || s[pos] == 'n' <==> d.Keyword?
  {
    hide At, ItemsText, PairsText, AdmittedItems, AdmittedPairs, QuotedText, NumeralText;
    match d {
      case Keyword(w) => KeywordOver(s, pos, w);
      case Num(n) => NumberStarts(s, pos, n);
      case Str(ps) => ParseStringOver(s, pos, ps);
      case EmptyArr(g) => EmptyBracketsOver(s, pos, '[', g, ']');
      case Arr(g, items) => BracketsOver(s, pos, '[', g, ItemsText(items), ']');
      case EmptyObj(g) => EmptyBracketsOver(s, pos, '{', g, '}');
      case Obj(g, pairs) => BracketsOver(s, pos, '{', g, PairsText(pairs), '}');
    }
  }

  /** The white space behind an opening bracket, and whether a closing one follows. */
  lemma {:induction false} EmptyGap(s: string, pos: nat, open: char, gap: string, close: char)
    requires At(s, pos, [open] + gap + [close]) && AllSpace(gap) && !IsSpace(close)
    ensures pos < |s| && At(s, pos + 1, gap) && pos + 1 + |gap| < |s| && s[pos + 1 + |gap|] == close
    ensures Visible(s, pos + 1 + |gap|)
  {
    hide At;
    EmptyBracketsOver(s, pos, open, gap, close);
    AtConcat(s, pos, [open] + gap, [close]);
    AtConcat(s, pos, [open], gap);
  }

  lemma {:induction false} ItemsStart(s: string, pos: nat, items: Items)
    requires At(s, pos, ItemsText(items)) && AdmittedItems(items)
    ensures pos + |items.lead| < |s| && At(s, pos, items.lead)
    ensures !IsSpace(s[pos + |items.lead|]) && s[pos + |items.lead|] != ']'
  {
    hide At, ItemsText, SyntaxText, Admitted;
    ItemParts(s, pos, items);
    ValueStarts(s, pos + |items.lead|, items.v);
  }

  lemma {:induction false} PairsStart(s: string, pos: nat, pairs: Pairs)
    requires At(s, pos, PairsText(pairs)) && AdmittedPairs(pairs)
    ensures pos + |pairs.p.lead| < |s| && s[pos + |pairs.p.lead|] == '\"'
  {
    hide At, PairsText, PairText, SyntaxText, QuotedText, Admitted, AdmittedPieces;
    PairsParts(s, pos, pairs);
    PairParts(s, pos, pairs.p);
    ParseStringOver(s, pos + |pairs.p.lead|, pairs.p.key);
  }

  lemma {:induction false} SyntaxUnique(s: string, pos: nat, a: Syntax, b: Syntax)
    requires At(s, pos, SyntaxText(a)) && Admitted(a) && Delimited(s, pos + |SyntaxText(a)|)
    requires At(s, pos, SyntaxText(b)) && Admitted(b) && Delimited(s, pos + |SyntaxText(b)|)
    ensures a == b
    decreases a, 1
  {
    hide At, ItemsText, PairsText, AdmittedItems, AdmittedPairs, QuotedText, NumeralText, WordText, AdmittedPieces;
    KindAt(s, pos, a);
    KindAt(s, pos, b);
    match a {
      case Keyword(w) =>
        KeywordOver(s, pos, w);
        KeywordOver(s, pos, b.word);
      case Num(n) => NumeralUnique(s, pos, n, b.numeral);
      case Str(ps) => QuotedUnique(s, pos, ps, b.pieces);
      case _ => ContainerUnique(s, pos, a, b);
    }
  }

  lemma {:induction false} ContainerUnique(s: string, pos: nat, a: Syntax, b: Syntax)
    requires At(s, pos, SyntaxText(a)) && Admitted(a) && At(s, pos, SyntaxText(b)) && Admitted(b)
    requires a.EmptyArr? || a.Arr? <==> b.EmptyArr? || b.Arr?
    requires a.EmptyObj? || a.Obj? <==> b.EmptyObj? || b.Obj?
    requires a.EmptyArr? || a.Arr? || a.EmptyObj? || a.Obj?
    ensures a == b
    decreases a, 0
  {
    hide At, SyntaxText, Admitted, ItemsText, PairsText, AdmittedItems, AdmittedPairs;
    ContainerGap(s, pos, a);
    ContainerGap(s, pos, b);
    GapUnique(s, pos + 1, a.gap, b.gap);
    if a.Arr? && b.Arr? {
      ItemsUnique(s, pos + 1 + |a.gap|, a.items, b.items, ']', ']');
    }
    if a.Obj? && b.Obj? {
      PairsUnique(s, pos + 1 + |a.gap|, a.pairs, b.pairs, '}', '}');
    }
  }

  lemma {:induction false} ContainerGap(s: string, pos: nat, d: Syntax)
    requires At(s, pos, SyntaxText(d)) && Admitted(d) && (d.EmptyArr? || d.Arr? || d.EmptyObj? || d.Obj?)
    ensures var p := pos + 1 + |d.gap|;
            && At(s, pos + 1, d.gap) && AllSpace(d.gap) && p < |s| && !IsSpace(s[p])
            && (d.EmptyArr? ==> s[p] == ']') && (d.EmptyObj? ==> s[p] == '}')
            && (d.Arr? ==> s[p] != ']' && At(s, p, ItemsText(d.items)) && AdmittedItems(d.items)
                           && Leaves(s, p + |ItemsText(d.items)|, ']', ']'))
            && (d.Obj? ==> s[p] != '}' && At(s, p, PairsText(d.pairs)) && AdmittedPairs(d.pairs)
                           && Leaves(s, p + |PairsText(d.pairs)|, '}', '}'))
  {
    hide At, ItemsText, PairsText, AdmittedItems, AdmittedPairs;
    match d {
      case EmptyArr(g) => EmptyGap(s, pos, '[', g, ']');
      case Arr(g, items) =>
        BracketsOver(s, pos, '[', g, ItemsText(items), ']');
        ItemsStart(s, pos + 1 + |g|, items);
      case EmptyObj(g) => EmptyGap(s, pos, '{', g, '}');
      case Obj(g, pairs) =>
        BracketsOver(s, pos, '{', g, PairsText(pairs), '}');
        PairsStart(s, pos + 1 + |g|, pairs);
    }
  }

  /** Where an element stands and what follows it. */
  lemma {:induction false} ItemAt(s: string, pos: nat, items: Items, closing: char)
    requires At(s, pos, ItemsText(items)) && AdmittedItems(items)
    requires Leaves(s, pos + |ItemsText(items)|, closing, ']')
    ensures var p := pos + |items.lead|;
            var q := p + |SyntaxText(items.v)|;
            var e := q + |items.trail|;
            && At(s, pos, items.lead) && p < |s| && !IsSpace(s[p]) && At(s, p, SyntaxText(items.v))
            && Delimited(s, q) && At(s, q, items.trail) && e < |s| && !IsSpace(s[e])
            && (items.LastItem? ==> Leaves(s, e, closing, ']'))
            && (items.MoreItems? ==>
                  && s[e] == ',' && At(s, e + 1, ItemsText(items.rest)) && e + 1 < |s|
                  && Leaves(s, e + 1 + |ItemsText(items.rest)|, closing, ']'))
  {
    hide At, ItemsText, SyntaxText, Admitted;
    ItemParts(s, pos, items);
    ItemsStart(s, pos, items);
    TrailOver(s, pos + |items.lead| + |SyntaxText(items.v)|, items.trail);
    if items.MoreItems? {
      ItemsStart(s, pos + |items.lead| + |SyntaxText(items.v)| + |items.trail| + 1, items.rest);
    }
  }

  lemma {:induction false} ItemsUnique(s: string, pos: nat, a: Items, b: Items, ca: char, cb: char)
    requires At(s, pos, ItemsText(a)) && AdmittedItems(a) && Leaves(s, pos + |ItemsText(a)|, ca, ']')
    requires At(s, pos, ItemsText(b)) && AdmittedItems(b) && Leaves(s, pos + |ItemsText(b)|, cb, ']')
    ensures a == b
    decreases a, 1
  {
    hide At, ItemsText, SyntaxText, Admitted, Delimited;
    ItemAt(s, pos, a, ca);
    ItemAt(s, pos, b, cb);
    GapUnique(s, pos, a.lead, b.lead);
    var p := pos + |a.lead|;
    SyntaxUnique(s, p, a.v, b.v);
    GapUnique(s, p + |SyntaxText(a.v)|, a.trail, b.trail);
    if a.MoreItems? && b.MoreItems? {
      ItemsUnique(s, p + |SyntaxText(a.v)| + |a.trail| + 1, a.rest, b.rest, ca, cb);
    }
  }

  lemma {:induction false} PairUnique(s: string, pos: nat, a: Pair, b: Pair)
    requires At(s, pos, PairText(a)) && AdmittedPair(a)
    requires pos + |PairText(a)| < |s| && IsDelimiter(s[pos + |PairText(a)|])
    requires At(s, pos, PairText(b)) && AdmittedPair(b)
    requires pos + |PairText(b)| < |s| && IsDelimiter(s[pos + |PairText(b)|])
    ensures a == b
    decreases a, 1
  {
    hide At, PairText, QuotedText, SyntaxText, Admitted, AdmittedPieces, Delimited;
    PairAt(s, pos, a);
    PairAt(s, pos, b);
    GapUnique(s, pos, a.lead, b.lead);
    var k := pos + |a.lead|;
    QuotedUnique(s, k, a.key, b.key);
    GapUnique(s, k + |QuotedText(a.key)|, a.beforeColon, b.beforeColon);
    var c := k + |QuotedText(a.key)| + |a.beforeColon|;
    GapUnique(s, c + 1, a.afterColon, b.afterColon);
    var v := c + 1 + |a.afterColon|;
    SyntaxUnique(s, v, a.v, b.v);
    GapUnique(s, v + |SyntaxText(a.v)|, a.trail, b.trail);
  }

  /** The parts of a member, each ending where something visible stands. */
  lemma {:induction false} PairAt(s: string, pos: nat, p: Pair)
    requires At(s, pos, PairText(p)) && AdmittedPair(p)
    requires pos + |PairText(p)| < |s| && IsDelimiter(s[pos + |PairText(p)|])
    ensures var k := pos + |p.lead|;
            var b := k + |QuotedText(p.key)|;
            var c := b + |p.beforeColon|;
            var v := c + 1 + |p.afterColon|;
            var t := v + |SyntaxText(p.v)|;
            && At(s, pos, p.lead) && Visible(s, k) && At(s, k, QuotedText(p.key)) && At(s, b, p.beforeColon)
            && Visible(s, c) && At(s, c + 1, p.afterColon) && Visible(s, v) && At(s, v, SyntaxText(p.v))
            && Delimited(s, t) && At(s, t, p.trail) && Visible(s, t + |p.trail|)
  {
    hide At, PairText, QuotedText, SyntaxText, Admitted, AdmittedPieces;
    PairParts(s, pos, p);
    var k := pos + |p.lead|;
    var v := k + |QuotedText(p.key)| + |p.beforeColon| + 1 + |p.afterColon|;
    ParseStringOver(s, k, p.key);
    ValueStarts(s, v, p.v);
    TrailOver(s, v + |SyntaxText(p.v)|, p.trail);
  }

  lemma {:induction false} PairsUnique(s: string, pos: nat, a: Pairs, b: Pairs, ca: char, cb: char)
    requires At(s, pos, PairsText(a)) && AdmittedPairs(a) && Leaves(s, pos + |PairsText(a)|, ca, '}')
    requires At(s, pos, PairsText(b)) && AdmittedPairs(b) && Leaves(s, pos + |PairsText(b)|, cb, '}')
    ensures a == b
    decreases a, 2
  {
    hide At, PairsText, PairText, AdmittedPair;
    PairsParts(s, pos, a);
    PairsParts(s, pos, b);
    PairUnique(s, pos, a.p, b.p);
    var p := pos + |PairText(a.p)|;
    if a.MorePairs? {
      PairsStart(s, p + 1, a.rest);
    }
    if b.MorePairs? {
      PairsStart(s, p + 1, b.rest);
    }
    if a.MorePairs? && b.MorePairs? {
      PairsUnique(s, p + 1, a.rest, b.rest, ca, cb);
    }
  }

  // ---- whole texts ------------------------------------------------------------------------------------

  lemma {:induction false} FormStarts(s: string, pos: nat, f: Form)
    requires At(s, pos, FormText(f)) && AdmittedForm(f)
    ensures pos < |s| && !IsSpace(s[pos])
    ensures !f.Closed? ==> s[pos] == if f.OpenArray? || f.OpenItems? then '[' else '{'
  {
    hide At, SyntaxText, Admitted, ItemsText, PairsText;
    if f.Closed? {
      ValueStarts(s, pos, f.d);
    } else {
      AtIndex(s, pos, FormText(f), 0);
    }
  }

  /** What stands behind the bracket of a text that breaks off. */
  lemma {:induction false} OpenParts(s: string, pos: nat, f: Form)
    requires At(s, pos, FormText(f)) && AdmittedForm(f) && !f.Closed? && pos + |FormText(f)| == |s|
    ensures var p := pos + 1 + |f.gap|;
            && At(s, pos + 1, f.gap) && AllSpace(f.gap) && Visible(s, p)
            && (f.OpenArray? || f.OpenObject? ==> p == |s|)
            && (f.OpenItems? ==> p < |s| && s[p] != ']' && At(s, p, ItemsText(f.items)) && AdmittedItems(f.items)
                                 && Leaves(s, p + |ItemsText(f.items)|, ',', ']'))
            && (f.OpenPairs? ==> p < |s| && s[p] != '}' && At(s, p, PairsText(f.pairs)) && AdmittedPairs(f.pairs)
                                 && Leaves(s, p + |PairsText(f.pairs)|, ',', '}'))
  {
    hide At, ItemsText, PairsText, AdmittedItems, AdmittedPairs;
    match f {
      case OpenArray(gap) => AtConcat(s, pos, "[", gap);
      case OpenItems(gap, items) =>
        BracketsOver(s, pos, '[', gap, ItemsText(items), ',');
        ItemsStart(s, pos + 1 + |gap|, items);
      case OpenObject(gap) => AtConcat(s, pos, "{", gap);
      case OpenPairs(gap, pairs) =>
        BracketsOver(s, pos, '{', gap, PairsText(pairs), ',');
        PairsStart(s, pos + 1 + |gap|, pairs);
    }
  }

  lemma {:induction false} OpenUnique(s: string, pos: nat, a: Form, b: Form)
    requires At(s, pos, FormText(a)) && AdmittedForm(a) && !a.Closed? && pos + |FormText(a)| == |s|
    requires At(s, pos, FormText(b)) && AdmittedForm(b) && !b.Closed? && pos + |FormText(b)| == |s|
    ensures a == b
  {
    hide At, FormText, AdmittedForm, ItemsText, PairsText, AdmittedItems, AdmittedPairs;
    FormStarts(s, pos, a);
    FormStarts(s, pos, b);
    OpenParts(s, pos, a);
    OpenParts(s, pos, b);
    GapUnique(s, pos + 1, a.gap, b.gap);
    if a.OpenItems? {
      ItemsUnique(s, pos + 1 + |a.gap|, a.items, b.items, ',', ',');
    }
    if a.OpenPairs? {
      PairsUnique(s, pos + 1 + |a.gap|, a.pairs, b.pairs, ',', ',');
    }
  }

  lemma {:induction false} ClosedUnique(s: string, pos: nat, a: Syntax, ta: string, b: Syntax, tb: string)
    requires At(s, pos, SyntaxText(a)) && Admitted(a) && At(s, pos + |SyntaxText(a)|, ta) && AllSpace(ta)
    requires At(s, pos, SyntaxText(b)) && Admitted(b) && At(s, pos + |SyntaxText(b)|, tb) && AllSpace(tb)
    requires pos + |SyntaxText(a)| + |ta| == |s| == pos + |SyntaxText(b)| + |tb|
    ensures a == b && ta == tb
  {
    hide At, SyntaxText, Admitted;
    if ta != "" {
      AtIndex(s, pos + |SyntaxText(a)|, ta, 0);
    }
    if tb != "" {
      AtIndex(s, pos + |SyntaxText(b)|, tb, 0);
    }
    SyntaxUnique(s, pos, a, b);
    SameAt(s, pos + |SyntaxText(a)|, ta, tb);
  }

  /** No text has two derivations: the grammar is unambiguous down to the last piece of white space. */
  lemma {:induction false} DerivationUnique(a: Document, b: Document)
    requires AdmittedDocument(a) && AdmittedDocument(b) && DocumentText(a) == DocumentText(b)
    ensures a == b
  {
    hide At, FormText, AdmittedForm, LastVisible;
    var s := DocumentText(a);
    DocumentParts(s, a);
    DocumentParts(s, b);
    FormStarts(s, |a.lead|, a.form);
    FormStarts(s, |b.lead|, b.form);
    GapUnique(s, 0, a.lead, b.lead);
    DocumentLast(a);
    DocumentLast(b);
    if a.form.Closed? {
      ClosedForms(a.form, b.form);
      ClosedUnique(s, |a.lead|, a.form.d, a.trail, b.form.d, b.trail);
    } else {
      OpenUnique(s, |a.lead|, a.form, b.form);
    }
  }

  lemma {:induction false} ClosedForms(f: Form, g: Form)
    requires f.Closed? && g.Closed? && AdmittedForm(f) && AdmittedForm(g)
    ensures FormText(f) == SyntaxText(f.d) && Admitted(f.d) && FormText(g) == SyntaxText(g.d) && Admitted(g.d)
  {
  }
}
