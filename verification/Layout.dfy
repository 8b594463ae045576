/** White space outside string literals carries no meaning: a text can be read without it, and
    without it the two layouts are one. */
module Layout {
  // Removing it keeps the parsed value and turns the pretty layout into the compact one.

  import opened Text
  import opened JsonTree
  import opened Grammar
  import opened ParserSpec
  import opened Completeness
  import opened Soundness
  import opened JsonPrinter
  import opened RoundTrip

  /** Where the reader of a text is: outside strings, inside one, behind a backslash, or with n
      characters of a \u escape to go. */
  datatype Mode = Outside | Inside | Escaped | Code(left: nat)

  function Next(m: Mode, c: char): Mode {
    match m
    case Outside => if c == '\"' then Inside else Outside
    case Inside => if c == '\"' then Outside else if c == '\\' then Escaped else Inside
    case Escaped => if c == 'u' then Code(4) else Inside
    case Code(n) => if n > 1 then Code(n - 1) else Inside
  }

  /** The text without the white space outside string literals. */
  function Strip(t: string, m: Mode): string {
    if t == "" then ""
    else (if m == Outside && IsSpace(t[0]) then "" else [t[0]]) + Strip(t[1..], Next(m, t[0]))
  }

  function FinalMode(t: string, m: Mode): Mode {
    if t == "" then m else FinalMode(t[1..], Next(m, t[0]))
  }

  function Minify(s: string): string {
    Strip(s, Outside)
  }

  ghost predicate Strips(t: string, m: Mode, r: string, final: Mode) {
    Strip(t, m) == r && FinalMode(t, m) == final
  }

  lemma {:induction false} StripsConcat(a: string, m: Mode, ra: string, m1: Mode, b: string, rb: string, m2: Mode)
    requires Strips(a, m, ra, m1) && Strips(b, m1, rb, m2)
    ensures Strips(a + b, m, ra + rb, m2)
    decreases |a|
  {
    if a == "" {
      assert a + b == b && ra + rb == rb;
    } else {
      assert (a + b)[1..] == a[1..] + b;
      StripsConcat(a[1..], Next(m, a[0]), Strip(a[1..], Next(m, a[0])), m1, b, rb, m2);
      var head := if m == Outside && IsSpace(a[0]) then "" else [a[0]];
      assert ra + rb == head + (Strip(a[1..], Next(m, a[0])) + rb);
    }
  }

  lemma {:induction false} GapStrips(gap: string)
    requires AllSpace(gap)
    ensures Strips(gap, Outside, "", Outside)
  {
    if gap != "" {
      assert IsSpace(gap[0]);
      GapStrips(gap[1..]);
    }
  }

  /** Neither white space nor a quote. */
  predicate Solid(t: string) {
    forall i | 0 <= i < |t| :: !IsSpace(t[i]) && t[i] != '\"'
  }

  lemma {:induction false} SolidStrips(t: string)
    requires Solid(t)
    ensures Strips(t, Outside, t, Outside)
  {
    if t != "" {
      SolidStrips(t[1..]);
      assert t == [t[0]] + t[1..];
    }
  }

  lemma {:induction false} PieceStrips(p: Piece)
    requires AdmittedPiece(p)
    ensures Strips(PieceText(p), Inside, PieceText(p), Inside)
  {
    match p {
      case Raw(c) =>
        OneStrips([c], Inside);
      case Escape(c) =>
        OneStrips([c], Escaped);
        OneStrips(['\\', c], Inside);
      case Unicode(code) =>
        var t := PieceText(p);
        OneStrips(code[3..], Code(1));
        OneStrips(code[2..], Code(2));
        OneStrips(code[1..], Code(3));
        OneStrips(code, Code(4));
        assert t[1..] == "u" + code && t[1..][1..] == code;
        OneStrips(t[1..], Escaped);
        OneStrips(t, Inside);
    }
  }

  /** Inside a string a character is kept. */
  lemma {:induction false} OneStrips(t: string, m: Mode)
    requires t != "" && m != Outside
    requires Strip(t[1..], Next(m, t[0])) == t[1..]
    ensures Strip(t, m) == t && FinalMode(t, m) == FinalMode(t[1..], Next(m, t[0]))
  {
    assert t == [t[0]] + t[1..];
  }

  lemma {:induction false} PiecesStrip(ps: seq<Piece>)
    requires AdmittedPieces(ps)
    ensures Strips(PiecesText(ps), Inside, PiecesText(ps), Inside)
  {
    if ps != [] {
      var w, rest := PieceText(ps[0]), PiecesText(ps[1..]);
      PieceStrips(ps[0]);
      PiecesStrip(ps[1..]);
      StripsConcat(w, Inside, w, Inside, rest, rest, Inside);
    }
  }

  lemma {:induction false} QuotedStrips(ps: seq<Piece>)
    requires AdmittedPieces(ps)
    ensures Strips(QuotedText(ps), Outside, QuotedText(ps), Outside)
  {
    var t := PiecesText(ps);
    PiecesStrip(ps);
    assert Strips("\"", Outside, "\"", Inside) && Strips("\"", Inside, "\"", Outside);
    StripsConcat("\"", Outside, "\"", Inside, t, t, Inside);
    StripsConcat("\"" + t, Outside, "\"" + t, Inside, "\"", "\"", Outside);
  }

  lemma {:induction false} NumeralStrips(n: Numeral)
    requires AdmittedNumeral(n)
    ensures Strips(NumeralText(n), Outside, NumeralText(n), Outside)
  {
    DigitsSolid(n.whole);
    DigitsSolid(FracDigits(n.frac));
    assert Solid(FracText(n.frac));
    if n.exp.Some? {
      DigitsSolid(n.exp.value.digits);
    }
    assert Solid(ExpText(n.exp));
    SolidStrips(NumeralText(n));
  }

  lemma {:induction false} DigitsSolid(t: string)
    requires AllDigits(t)
    ensures Solid(t)
  {
  }

  // ---- the tree without white space --------------------------------------------------------

  function Squeeze(d: Syntax): Syntax {
    match d
    case EmptyArr(_) => EmptyArr("")
    case Arr(_, items) => Arr("", SqueezeItems(items))
    case EmptyObj(_) => EmptyObj("")
    case Obj(_, pairs) => Obj("", SqueezePairs(pairs))
    case _ => d
  }

  function SqueezeItems(items: Items): Items {
    match items
    case LastItem(_, v, _) => LastItem("", Squeeze(v), "")
    case MoreItems(_, v, _, rest) => MoreItems("", Squeeze(v), "", SqueezeItems(rest))
  }

  function SqueezePair(p: Pair): Pair {
    Pair("", p.key, "", "", Squeeze(p.v), "")
  }

  function SqueezePairs(pairs: Pairs): Pairs {
    match pairs
    case LastPair(p) => LastPair(SqueezePair(p))
    case MorePairs(p, rest) => MorePairs(SqueezePair(p), SqueezePairs(rest))
  }

  function SqueezeForm(f: Form): Form {
    match f
    case Closed(d) => Closed(Squeeze(d))
    case OpenArray(_) => OpenArray("")
    case OpenItems(_, items) => OpenItems("", SqueezeItems(items))
    case OpenObject(_) => OpenObject("")
    case OpenPairs(_, pairs) => OpenPairs("", SqueezePairs(pairs))
  }

  lemma {:induction false} MarkStrips(c: char)
    requires !IsSpace(c) && c != '\"'
    ensures Strips([c], Outside, [c], Outside)
  {
    SolidStrips([c]);
  }

  /** A bracket, white space and a body; the white space goes. */
  lemma {:induction false} OpeningStrips(open: char, gap: string, body: string, r: string)
    requires !IsSpace(open) && open != '\"' && AllSpace(gap) && Strips(body, Outside, r, Outside)
    ensures Strips([open] + gap + body, Outside, [open] + "" + r, Outside)
  {
    MarkStrips(open);
    GapStrips(gap);
    StripsConcat([open], Outside, [open], Outside, gap, "", Outside);
    StripsConcat([open] + gap, Outside, [open] + "", Outside, body, r, Outside);
  }

  lemma {:induction false} ThenMark(t: string, r: string, c: char)
    requires Strips(t, Outside, r, Outside) && !IsSpace(c) && c != '\"'
    ensures Strips(t + [c], Outside, r + [c], Outside)
  {
    MarkStrips(c);
    StripsConcat(t, Outside, r, Outside, [c], [c], Outside);
  }

  lemma {:induction false} SyntaxStrips(d: Syntax)
    requires Admitted(d)
    ensures Strips(SyntaxText(d), Outside, SyntaxText(Squeeze(d)), Outside)
    decreases d, 0
  {
    hide Strips;
    match d {
      case Keyword(w) =>
        SolidStrips(WordText(w));
      case Num(n) =>
        NumeralStrips(n);
      case Str(ps) =>
        QuotedStrips(ps);
      case EmptyArr(gap) =>
        EmptyStrips('[', gap, ']');
      case Arr(gap, items) =>
        ItemsStrip(items);
        OpeningStrips('[', gap, ItemsText(items), ItemsText(SqueezeItems(items)));
        ThenMark("[" + gap + ItemsText(items), "[" + "" + ItemsText(SqueezeItems(items)), ']');
      case EmptyObj(gap) =>
        EmptyStrips('{', gap, '}');
      case Obj(gap, pairs) =>
        PairsStrip(pairs);
        OpeningStrips('{', gap, PairsText(pairs), PairsText(SqueezePairs(pairs)));
        ThenMark("{" + gap + PairsText(pairs), "{" + "" + PairsText(SqueezePairs(pairs)), '}');
    }
  }

  lemma {:induction false} EmptyStrips(open: char, gap: string, close: char)
    requires !IsSpace(open) && open != '\"' && AllSpace(gap) && !IsSpace(close) && close != '\"'
    ensures Strips([open] + gap + [close], Outside, [open] + "" + [close], Outside)
  {
    MarkStrips(close);
    OpeningStrips(open, gap, [close], [close]);
  }

  /** A value between white space. */
  lemma {:induction false} SpacedStrips(lead: string, t: string, r: string, trail: string)
    requires AllSpace(lead) && AllSpace(trail) && Strips(t, Outside, r, Outside)
    ensures Strips(lead + t + trail, Outside, "" + r + "", Outside)
  {
    GapStrips(lead);
    GapStrips(trail);
    StripsConcat(lead, Outside, "", Outside, t, r, Outside);
    StripsConcat(lead + t, Outside, "" + r, Outside, trail, "", Outside);
  }

  lemma {:induction false} ThenRest(t: string, r: string, rest: string, rrest: string)
    requires Strips(t, Outside, r, Outside) && Strips(rest, Outside, rrest, Outside)
    ensures Strips(t + ("," + rest), Outside, r + ("," + rrest), Outside)
  {
    MarkStrips(',');
    StripsConcat(",", Outside, ",", Outside, rest, rrest, Outside);
    StripsConcat(t, Outside, r, Outside, "," + rest, "," + rrest, Outside);
  }

  lemma {:induction false} ItemsStrip(items: Items)
    requires AdmittedItems(items)
    ensures Strips(ItemsText(items), Outside, ItemsText(SqueezeItems(items)), Outside)
    decreases items, 1
  {
    hide Strips;
    var t := items.lead + SyntaxText(items.v) + items.trail;
    var r := "" + SyntaxText(Squeeze(items.v)) + "";
    SyntaxStrips(items.v);
    SpacedStrips(items.lead, SyntaxText(items.v), SyntaxText(Squeeze(items.v)), items.trail);
    if items.MoreItems? {
      ItemsStrip(items.rest);
      ThenRest(t, r, ItemsText(items.rest), ItemsText(SqueezeItems(items.rest)));
    } else {
      assert ItemsText(items) == t + "" == t;
      assert ItemsText(SqueezeItems(items)) == r + "" == r;
    }
  }

  lemma {:induction false} PairStrips(p: Pair)
    requires AdmittedPair(p)
    ensures Strips(PairText(p), Outside, PairText(SqueezePair(p)), Outside)
    decreases p, 1
  {
    hide Strips, QuotedText, SyntaxText;
    var key, v, rv := QuotedText(p.key), SyntaxText(p.v), SyntaxText(Squeeze(p.v));
    QuotedStrips(p.key);
    SpacedStrips(p.lead, key, key, p.beforeColon);
    ThenMark(p.lead + key + p.beforeColon, "" + key + "", ':');
    SyntaxStrips(p.v);
    SpacedStrips(p.afterColon, v, rv, p.trail);
    StripsConcat(p.lead + key + p.beforeColon + ":", Outside, "" + key + "" + ":", Outside,
                 p.afterColon + v + p.trail, "" + rv + "", Outside);
    assert PairText(p) == p.lead + key + p.beforeColon + ":" + (p.afterColon + v + p.trail);
    assert PairText(SqueezePair(p)) == "" + key + "" + ":" + ("" + rv + "");
  }

  lemma {:induction false} PairsStrip(pairs: Pairs)
    requires AdmittedPairs(pairs)
    ensures Strips(PairsText(pairs), Outside, PairsText(SqueezePairs(pairs)), Outside)
    decreases pairs, 1
  {
    hide Strips, PairText;
    var t, r := PairText(pairs.p), PairText(SqueezePair(pairs.p));
    PairStrips(pairs.p);
    if pairs.MorePairs? {
      PairsStrip(pairs.rest);
      ThenRest(t, r, PairsText(pairs.rest), PairsText(SqueezePairs(pairs.rest)));
    } else {
      assert PairsText(pairs) == t + "" == t;
      assert PairsText(SqueezePairs(pairs)) == r + "" == r;
    }
  }

  lemma {:induction false} FormStrips(f: Form)
    requires AdmittedForm(f)
    ensures Strips(FormText(f), Outside, FormText(SqueezeForm(f)), Outside)
  {
    hide Strips;
    match f {
      case Closed(d) =>
        SyntaxStrips(d);
      case OpenArray(gap) =>
        MarkStrips('[');
        SpacedStrips("", "[", "[", gap);
        assert "" + "[" + gap == "[" + gap && "" + "[" + "" == "[" + "";
      case OpenItems(gap, items) =>
        ItemsStrip(items);
        OpeningStrips('[', gap, ItemsText(items), ItemsText(SqueezeItems(items)));
        ThenMark("[" + gap + ItemsText(items), "[" + "" + ItemsText(SqueezeItems(items)), ',');
      case OpenObject(gap) =>
        MarkStrips('{');
        SpacedStrips("", "{", "{", gap);
        assert "" + "{" + gap == "{" + gap && "" + "{" + "" == "{" + "";
      case OpenPairs(gap, pairs) =>
        PairsStrip(pairs);
        OpeningStrips('{', gap, PairsText(pairs), PairsText(SqueezePairs(pairs)));
        ThenMark("{" + gap + PairsText(pairs), "{" + "" + PairsText(SqueezePairs(pairs)), ',');
    }
  }

  // ---- the same value -----------------------------------------------------------------------

  lemma {:induction false} SqueezeSame(d: Syntax)
    ensures SyntaxValue(Squeeze(d)) == SyntaxValue(d) && (Admitted(d) ==> Admitted(Squeeze(d)))
    decreases d, 0
  {
    match d {
      case Arr(_, items) => SqueezeItemsSame(items);
      case Obj(_, pairs) => SqueezePairsSame(pairs, []);
      case _ =>
    }
  }

  lemma {:induction false} SqueezeItemsSame(items: Items)
    ensures ItemsValue(SqueezeItems(items)) == ItemsValue(items)
    ensures AdmittedItems(items) ==> AdmittedItems(SqueezeItems(items))
    ensures SqueezeItems(items).lead == ""
    decreases items, 1
  {
    SqueezeSame(items.v);
    if items.MoreItems? {
      SqueezeItemsSame(items.rest);
    }
  }

  lemma {:induction false} SqueezePairsSame(pairs: Pairs, before: seq<Member>)
    ensures PairsValue(SqueezePairs(pairs), before) == PairsValue(pairs, before)
    ensures AdmittedPairs(pairs) ==> AdmittedPairs(SqueezePairs(pairs))
    ensures SqueezePairs(pairs).p.lead == ""
    decreases pairs, 1
  {
    SqueezeSame(pairs.p.v);
    assert AdmittedPair(pairs.p) ==> AdmittedPair(SqueezePair(pairs.p));
    assert SqueezePairs(pairs).p == SqueezePair(pairs.p);
    assert SqueezePairs(pairs).LastPair? <==> pairs.LastPair?;
    if pairs.MorePairs? {
      SqueezePairsSame(pairs.rest, Put(before, PiecesValue(pairs.p.key), SyntaxValue(pairs.p.v)));
    }
  }

  lemma {:induction false} SqueezeFormSame(f: Form)
    ensures FormValue(SqueezeForm(f)) == FormValue(f) && (AdmittedForm(f) ==> AdmittedForm(SqueezeForm(f)))
  {
    match f {
      case Closed(d) => SqueezeSame(d);
      case OpenItems(_, items) => SqueezeItemsSame(items);
      case OpenPairs(_, pairs) => SqueezePairsSame(pairs, []);
      case _ =>
    }
  }

  /** Every accepted text is still accepted, with the same value, once the white space outside its
      string literals is deleted. */
  lemma {:induction false} MinifyKeepsValue(s: string)
    requires Parse(s).Ok?
    ensures Parse(Minify(s)) == Ok(Parse(s).value, |Minify(s)|)
  {
    hide Parse, Strips, FormText, FormValue, AdmittedForm, SqueezeForm;
    var doc := ParseSound(s);
    var f := SqueezeForm(doc.form);
    FormStrips(doc.form);
    SqueezeFormSame(doc.form);
    SpacedStrips(doc.lead, FormText(doc.form), FormText(f), doc.trail);
    assert Minify(s) == DocumentText(Document("", f, "")) by {
      assert Strips(s, Outside, "" + FormText(f) + "", Outside);
      StripsIs(s, "" + FormText(f) + "");
    }
    SqueezedOpen(doc.form);
    ParseComplete(Minify(s), Document("", f, ""));
  }

  lemma {:induction false} StripsIs(s: string, r: string)
    requires Strips(s, Outside, r, Outside)
    ensures Minify(s) == r
  {
  }

  lemma {:induction false} SqueezedOpen(f: Form)
    ensures SqueezeForm(f).Closed? <==> f.Closed?
  {
  }

  /** Deleting white space twice is deleting it once. */
  lemma {:induction false} StripTwice(t: string, m: Mode)
    ensures Strip(Strip(t, m), m) == Strip(t, m)
    decreases |t|
  {
    if t != "" {
      StripTwice(t[1..], Next(m, t[0]));
      var rest := Strip(t[1..], Next(m, t[0]));
      if m == Outside && IsSpace(t[0]) {
        assert Strip(t, m) == "" + rest == rest;
      } else {
        assert ([t[0]] + rest)[1..] == rest;
      }
    }
  }

  // ---- pretty and compact -------------------------------------------------------------------

  lemma {:induction false} SqueezePretty(v: JsonValue, i: nat, j: nat)
    ensures Squeeze(SyntaxOf(v, true, i)) == SyntaxOf(v, false, j)
    decreases v, 1
  {
    match v {
      case Array(items) =>
        if items != [] {
          SqueezePrettyItems(items, "", i, j);
        }
      case Object(ms) =>
        if ms != [] {
          SqueezePrettyPairs(ms, "", i, j);
        }
      case _ =>
    }
  }

  lemma {:induction false} SqueezePrettyItems(items: seq<JsonValue>, lead: string, i: nat, j: nat)
    requires items != []
    ensures SqueezeItems(ItemsOf(items, lead, true, i)) == ItemsOf(items, "", false, j)
    decreases items, 0
  {
    SqueezePretty(items[0], i + 2, j + 2);
    assert NextLine(false, j + 2) == NextLine(false, j) == "";
    if |items| > 1 {
      SqueezePrettyItems(items[1..], NextLine(true, i + 2), i, j);
    }
  }

  lemma {:induction false} SqueezePrettyPairs(ms: seq<Member>, lead: string, i: nat, j: nat)
    requires ms != []
    ensures SqueezePairs(PairsOf(ms, lead, true, i)) == PairsOf(ms, "", false, j)
    decreases ms, 0
  {
    SqueezePretty(ms[0].value, i + 2, j + 2);
    assert NextLine(false, j + 2) == NextLine(false, j) == "";
    if |ms| > 1 {
      SqueezePrettyPairs(ms[1..], NextLine(true, i + 2), i, j);
    }
  }

  /** With clean strings, the pretty text without its layout is the compact text. */
  lemma {:induction false} PrettyToCompact(v: JsonValue)
    requires CleanTree(v)
    ensures Minify(ToText(v, true)) == ToText(v, false)
  {
    hide Print, SyntaxText, SyntaxOf, Squeeze, Admitted;
    var d := SyntaxOf(v, true, 0);
    SyntaxOfText(v, true, 0);
    SyntaxOfText(v, false, 0);
    SyntaxOfAdmitted(v, true, 0);
    SyntaxStrips(d);
    SqueezePretty(v, 0, 0);
  }

  /** Exactly the non-empty containers are longer when pretty; everything else prints the same. */
  lemma {:induction false} CompactShorter(v: JsonValue, i: nat, j: nat)
    ensures var filled := (v.Array? && v.items != []) || (v.Object? && v.members != []);
            if filled then |Print(v, false, j)| < |Print(v, true, i)| else Print(v, false, j) == Print(v, true, i)
    decreases v, 1
  {
    match v {
      case Array(items) => CompactItems(items, i, j);
      case Object(ms) => CompactMembers(ms, i, j);
      case _ =>
    }
  }

  lemma {:induction false} CompactItems(items: seq<JsonValue>, i: nat, j: nat)
    ensures |PrintItems(items, false, j)| + |items| <= |PrintItems(items, true, i)|
    decreases items, 0
  {
    hide Print;
    if items != [] {
      CompactShorter(items[0], i + 2, j + 2);
      CompactItems(items[1..], i, j);
    }
  }

  lemma {:induction false} CompactMembers(ms: seq<Member>, i: nat, j: nat)
    ensures |PrintMembers(ms, false, j)| + |ms| <= |PrintMembers(ms, true, i)|
    decreases ms, 0
  {
    hide Print;
    if ms != [] {
      CompactShorter(ms[0].value, i + 2, j + 2);
      CompactMembers(ms[1..], i, j);
    }
  }
}
