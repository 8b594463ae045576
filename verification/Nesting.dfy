module Nesting {
  // How deep the parser goes is how deep the text nests, and nesting is what copying costs.

  import opened Text
  import opened Decimal
  import opened JsonTree
  import opened Grammar
  import opened ParserSpec
  import opened Scanning
  import opened Completeness
  import opened Uniqueness
  import opened NumberPrinting
  import opened JsonPrinter
  import opened RoundTrip
  import opened Copies

  // ---- the depth of a derivation ------------------------------------------------------------------

  function SyntaxDepth(d: Syntax): nat {
    match d
    case EmptyArr(_) => 1
    case Arr(_, items) => 1 + SpelledItemsDepth(items)
    case EmptyObj(_) => 1
    case Obj(_, pairs) => 1 + PairsDepth(pairs)
    case _ => 0
  }

  function SpelledItemsDepth(items: Items): nat {
    Max(SyntaxDepth(items.v), if items.LastItem? then 0 else SpelledItemsDepth(items.rest))
  }

  function PairsDepth(pairs: Pairs): nat {
    Max(SyntaxDepth(pairs.p.v), if pairs.LastPair? then 0 else PairsDepth(pairs.rest))
  }

  function FormDepth(f: Form): nat {
    match f
    case Closed(d) => SyntaxDepth(d)
    case OpenItems(_, items) => 1 + SpelledItemsDepth(items)
    case OpenPairs(_, pairs) => 1 + PairsDepth(pairs)
    case _ => 1
  }

  // ---- the parser goes exactly that deep ------------------------------------------------------------

  lemma {:induction false} ValueNesting(s: string, pos: nat, gap: string, d: Syntax)
    requires At(s, pos, gap) && AllSpace(gap)
    requires At(s, pos + |gap|, SyntaxText(d)) && Admitted(d)
    ensures NestingAt(s, pos) == SyntaxDepth(d)
    decreases d, 0
  {
    hide At, SyntaxText, Admitted, ItemsText, PairsText;
    hide AdmittedItems, AdmittedPairs, ItemsNesting, PairsNesting, SkipWs;
    var p := pos + |gap|;
    ValueStarts(s, p, d);
    SkipWsOver(s, pos, gap);
    KindAt(s, p, d);
    if d.EmptyArr? || d.Arr? || d.EmptyObj? || d.Obj? {
      ContainerGap(s, p, d);
      SkipWsOver(s, p + 1, d.gap);
      if d.Arr? {
        ItemsNestingOver(s, p + 1 + |d.gap|, d.items, ']');
      }
      if d.Obj? {
        PairsNestingOver(s, p + 1 + |d.gap|, d.pairs, '}');
      }
    }
  }

  lemma {:induction false} ItemsNestingOver(s: string, pos: nat, items: Items, closing: char)
    requires At(s, pos, ItemsText(items)) && AdmittedItems(items)
    requires Leaves(s, pos + |ItemsText(items)|, closing, ']')
    ensures ItemsNesting(s, pos) == SpelledItemsDepth(items)
    decreases items, 1
  {
    hide At, ItemsText, SyntaxText, Admitted, NestingAt, SkipWs, ParseValue, Delimited, SyntaxDepth;
    var q := pos + |items.lead| + |SyntaxText(items.v)|;
    ItemAt(s, pos, items, closing);
    ValueNesting(s, pos, items.lead, items.v);
    ValueOver(s, pos, items.lead, items.v);
    SkipWsOver(s, q, items.trail);
    if items.MoreItems? {
      ItemsNestingOver(s, q + |items.trail| + 1, items.rest, closing);
    }
  }

  /** The nesting of a member is that of its value. */
  lemma {:induction false} PairNestingOver(s: string, pos: nat, p: Pair)
    requires At(s, pos, PairText(p)) && AdmittedPair(p)
    requires pos + |PairText(p)| < |s| && IsDelimiter(s[pos + |PairText(p)|])
    ensures PairNesting(s, pos) == SyntaxDepth(p.v)
    decreases p, 1
  {
    hide At, PairText, QuotedText, SyntaxText, Admitted, AdmittedPieces, NestingAt, SkipWs, ParseString, SyntaxDepth;
    PairParts(s, pos, p);
    KeyOver(s, pos, p.lead, p.key, p.beforeColon);
    ValueNesting(s, pos + |p.lead| + |QuotedText(p.key)| + |p.beforeColon| + 1, p.afterColon, p.v);
  }

  lemma {:induction false} PairsNestingOver(s: string, pos: nat, pairs: Pairs, closing: char)
    requires At(s, pos, PairsText(pairs)) && AdmittedPairs(pairs)
    requires Leaves(s, pos + |PairsText(pairs)|, closing, '}')
    ensures PairsNesting(s, pos) == PairsDepth(pairs)
    decreases pairs, 2
  {
    hide At, PairsText, PairText, AdmittedPair, PairNesting, SkipWs, ParsePair, SyntaxDepth;
    var p := pos + |PairText(pairs.p)|;
    PairsParts(s, pos, pairs);
    PairNestingOver(s, pos, pairs.p);
    var q := PairOver(s, pos, pairs.p);
    if pairs.MorePairs? {
      PairsNestingOver(s, p + 1, pairs.rest, closing);
    }
  }

  lemma {:induction false} OpenNesting(s: string, lead: string, f: Form)
    requires At(s, 0, lead) && AllSpace(lead) && At(s, |lead|, FormText(f)) && |s| == |lead| + |FormText(f)|
    requires !f.Closed? && AdmittedForm(f)
    ensures NestingAt(s, 0) == FormDepth(f)
  {
    hide At, FormText, AdmittedForm, ItemsText, PairsText;
    hide AdmittedItems, AdmittedPairs, ItemsNesting, PairsNesting, SkipWs;
    var p := |lead|;
    FormStarts(s, p, f);
    OpenParts(s, p, f);
    SkipWsOver(s, 0, lead);
    SkipWsOver(s, p + 1, f.gap);
    NoNesting(s);
    match f {
      case OpenItems(gap, items) => ItemsNestingOver(s, p + 1 + |gap|, items, ',');
      case OpenPairs(gap, pairs) => PairsNestingOver(s, p + 1 + |gap|, pairs, ',');
      case _ =>
    }
  }

  lemma {:induction false} NoNesting(s: string)
    ensures ItemsNesting(s, |s|) == 0 && PairsNesting(s, |s|) == 0
  {
  }

  /** The calls of the container parsers nest exactly as deep as the one derivation of the text. */
  lemma {:induction false} DocumentNesting(doc: Document)
    requires AdmittedDocument(doc)
    ensures NestingAt(DocumentText(doc), 0) == FormDepth(doc.form)
  {
    hide At, FormText, AdmittedForm, NestingAt;
    var s := DocumentText(doc);
    DocumentParts(s, doc);
    if doc.form.Closed? {
      ClosedForms(doc.form, doc.form);
      ValueNesting(s, 0, doc.lead, doc.form.d);
    } else {
      OpenNesting(s, doc.lead, doc.form);
    }
  }

  // ---- nested arrays ------------------------------------------------------------------------------

  /** The number 1 inside k brackets. */
  function Nested(k: nat): JsonValue {
    if k == 0 then Number(Decimal(1, 0)) else Array([Nested(k - 1)])
  }

  lemma {:induction false} OneItem(v: JsonValue)
    ensures ItemNodes([v]) == Nodes(v) && ItemsCopied([v]) == Copied(v) + Nodes(v)
  {
    var items := [v];
    assert items[0] == v && items[1..] == [];
  }

  lemma {:induction false} OneItemText(v: JsonValue, indent: nat)
    ensures |Print(Array([v]), false, indent)| == 2 + |Print(v, false, indent + 2)|
  {
    var items := [v];
    assert items[0] == v && items[1..] == [];
    assert |PrintItems(items, false, indent)| == |Print(v, false, indent + 2)|;
  }

  lemma {:induction false} NestedTree(k: nat)
    ensures WellFormed(Nested(k)) && CleanTree(Nested(k)) && ExactNumbers(Nested(k))
    ensures Nodes(Nested(k)) == k + 1 && Copied(Nested(k)) == k * (k + 1)
  {
    if k > 0 {
      NestedTree(k - 1);
      OneItem(Nested(k - 1));
      assert Nested(k) == Array([Nested(k - 1)]);
      assert k * (k + 1) == (k - 1) * k + 2 * k;
    }
  }

  lemma {:induction false} NestedText(k: nat, indent: nat)
    ensures |Print(Nested(k), false, indent)| == 2 * k + 1
  {
    if k > 0 {
      NestedText(k - 1, indent + 2);
      assert Nested(k) == Array([Nested(k - 1)]);
      OneItemText(Nested(k - 1), indent);
    } else {
      SmallIntegerText(1);
      assert OfInt(1) == Decimal(1, 0) && IntText(1) == [DigitChar(1)];
    }
  }

  /** The bound on copies is attained at every odd length: the number 1 inside k brackets is a text of
      n = 2k + 1 characters on which k(k + 1) values are copied, and 4k(k + 1) + 1 is the square of n. */
  lemma {:induction false} NestedCost(k: nat)
    ensures var t := ToText(Nested(k), false);
            && |t| == 2 * k + 1 && Parse(t) == Ok(Nested(k), |t|)
            && 4 * Copied(Parse(t).value) + 1 == |t| * |t|
  {
    hide Parse, Print, WellFormed, CleanTree, ExactNumbers, Copied;
    NestedTree(k);
    NestedText(k, 0);
    RoundTripExact(Nested(k), false);
  }
}
