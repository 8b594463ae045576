/** The parser and the grammar agree on every text. */
module ParserTheorems {
  import opened Decimal
  import opened JsonTree
  import opened Grammar
  import opened ParserSpec
  import opened Completeness
  import opened Soundness

  /** The text s is an admitted document that stands for v. */
  ghost predicate Derives(s: string, v: JsonValue) {
    exists doc: Document :: AdmittedDocument(doc) && DocumentText(doc) == s && DocumentValue(doc) == v
  }

  lemma {:induction false} ParseCharacterized(s: string, v: JsonValue)
    ensures Derives(s, v) <==> Parse(s).Ok? && Parse(s).value == v
  {
    if Derives(s, v) {
      var doc: Document :| AdmittedDocument(doc) && DocumentText(doc) == s && DocumentValue(doc) == v;
      ParseComplete(s, doc);
    }
    if Parse(s).Ok? && Parse(s).value == v {
      var doc := ParseSound(s);
    }
  }

  // ---- what the parser returns ------------------------------------------------------------

  lemma {:induction false} SyntaxWellFormed(d: Syntax)
    ensures WellFormed(SyntaxValue(d))
    decreases d, 0
  {
    match d {
      case Arr(_, items) => ItemsWellFormed(items);
      case Obj(_, pairs) => PairsWellFormed(pairs, []);
      case _ =>
    }
  }

  lemma {:induction false} ItemsWellFormed(items: Items)
    ensures WellFormed(Array(ItemsValue(items)))
    decreases items, 1
  {
    SyntaxWellFormed(items.v);
    if items.MoreItems? {
      ItemsWellFormed(items.rest);
    }
  }

  lemma {:induction false} PairsWellFormed(pairs: Pairs, before: seq<Member>)
    requires WellFormed(Object(before))
    ensures WellFormed(Object(PairsValue(pairs, before)))
    decreases pairs, 1
  {
    SyntaxWellFormed(pairs.p.v);
    var now := Put(before, PiecesValue(pairs.p.key), SyntaxValue(pairs.p.v));
    PutWellFormed(before, PiecesValue(pairs.p.key), SyntaxValue(pairs.p.v));
    if pairs.MorePairs? {
      PairsWellFormed(pairs.rest, now);
    }
  }

  /** Every object in a parsed tree is a proper std::map: ascending keys, no duplicates. */
  lemma {:induction false} ParsedWellFormed(s: string)
    requires Parse(s).Ok?
    ensures WellFormed(Parse(s).value)
  {
    var doc := ParseSound(s);
    match doc.form {
      case Closed(d) => SyntaxWellFormed(d);
      case OpenItems(_, items) => ItemsWellFormed(items);
      case OpenPairs(_, pairs) => PairsWellFormed(pairs, []);
      case _ =>
    }
  }

  // ---- size of the result -----------------------------------------------------------------

  lemma {:induction false} SyntaxNodes(d: Syntax)
    requires Admitted(d)
    ensures Nodes(SyntaxValue(d)) <= |SyntaxText(d)|
    decreases d, 0
  {
    match d {
      case Keyword(_) =>
      case Num(n) =>
      case Str(_) =>
      case EmptyArr(_) =>
      case Arr(_, items) => ItemsNodes(items);
      case EmptyObj(_) =>
      case Obj(_, pairs) => PairsNodes(pairs, []);
    }
  }

  lemma {:induction false} ItemsNodes(items: Items)
    requires AdmittedItems(items)
    ensures ItemNodes(ItemsValue(items)) <= |ItemsText(items)|
    decreases items, 1
  {
    SyntaxNodes(items.v);
    if items.MoreItems? {
      ItemsNodes(items.rest);
      assert ItemsValue(items)[1..] == ItemsValue(items.rest);
    } else {
      assert ItemsValue(items)[1..] == [];
    }
  }

  lemma {:induction false} PairsNodes(pairs: Pairs, before: seq<Member>)
    requires AdmittedPairs(pairs)
    ensures MemberNodes(PairsValue(pairs, before)) <= MemberNodes(before) + |PairsText(pairs)|
    decreases pairs, 1
  {
    SyntaxNodes(pairs.p.v);
    var now := Put(before, PiecesValue(pairs.p.key), SyntaxValue(pairs.p.v));
    PutNodes(before, PiecesValue(pairs.p.key), SyntaxValue(pairs.p.v));
    if pairs.MorePairs? {
      PairsNodes(pairs.rest, now);
    }
  }

  lemma {:induction false} FormNodes(f: Form)
    requires AdmittedForm(f)
    ensures Nodes(FormValue(f)) <= |FormText(f)|
  {
    match f {
      case Closed(d) => SyntaxNodes(d);
      case OpenItems(_, items) => ItemsNodes(items);
      case OpenPairs(_, pairs) => PairsNodes(pairs, []);
      case _ =>
    }
  }

  /** A parsed tree has no more values than the text has characters. */
  lemma {:induction false} ParsedNodes(s: string)
    requires Parse(s).Ok?
    ensures Nodes(Parse(s).value) <= |s|
  {
    var doc := ParseSound(s);
    FormNodes(doc.form);
  }

  // ---- numbers ------------------------------------------------------------------------------

  /** The digits of a numeral as one signed integer, to be scaled by a power of ten. */
  function Mantissa(n: Numeral): int {
    Signed(n.minus, DigitsValue(n.whole + FracDigits(n.frac)))
  }

  function Scale(n: Numeral): int {
    ExponentValue(n.exp) - |FracDigits(n.frac)|
  }

  /** Two numerals are read as the same number exactly when they are equal as decimals, however they
      are spelled. */
  lemma {:induction false} SameNumber(a: Numeral, b: Numeral)
    requires Scale(a) <= Scale(b)
    ensures NumeralValue(a) == NumeralValue(b) <==> Mantissa(a) == Mantissa(b) * Pow10(Scale(b) - Scale(a))
  {
    NormEqual(Mantissa(a), Mantissa(b), Scale(a), Scale(b) - Scale(a));
  }
}
