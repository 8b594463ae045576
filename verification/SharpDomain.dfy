/** Exactly which trees survive printing and parsing. */
module SharpDomain {
  // The printer does not escape, so a quote or a backslash changes what the text means. That this can
  // never be repaired by accident is shown by counting backslashes: a literal needs one to spell a
  // quote and two to spell a backslash, and the printer adds none to those the strings hold.

  import opened Text
  import opened Decimal
  import opened JsonTree
  import opened Grammar
  import opened ParserSpec
  import opened Soundness
  import opened NumberPrinting
  import opened JsonPrinter
  import opened RoundTrip

  // ---- counting -----------------------------------------------------------------------------

  function Slashes(t: string): nat {
    if t == "" then 0 else (if t[0] == '\\' then 1 else 0) + Slashes(t[1..])
  }

  /** The backslashes a literal must hold to spell the text. */
  function Need(t: string): nat {
    if t == "" then 0 else (if t[0] == '\\' then 2 else if t[0] == '\"' then 1 else 0) + Need(t[1..])
  }

  /** A measure of texts summed over the strings and keys of a tree. */
  function Total(v: JsonValue, f: string -> nat): nat {
    match v
    case String(s) => f(s)
    case Array(items) => ItemsTotal(items, f)
    case Object(ms) => MembersTotal(ms, f)
    case _ => 0
  }

  function ItemsTotal(items: seq<JsonValue>, f: string -> nat): nat {
    if items == [] then 0 else Total(items[0], f) + ItemsTotal(items[1..], f)
  }

  function MembersTotal(ms: seq<Member>, f: string -> nat): nat {
    if ms == [] then 0 else f(ms[0].key) + Total(ms[0].value, f) + MembersTotal(ms[1..], f)
  }

  lemma {:induction false} SlashesConcat(a: string, b: string)
    ensures Slashes(a + b) == Slashes(a) + Slashes(b)
  {
    if a == "" {
      assert a + b == b;
    } else {
      assert (a + b)[1..] == a[1..] + b;
      SlashesConcat(a[1..], b);
    }
  }

  lemma {:induction false} SlashesAround(a: string, b: string, c: string)
    ensures Slashes(a + b + c) == Slashes(a) + Slashes(b) + Slashes(c)
  {
    SlashesConcat(a + b, c);
    SlashesConcat(a, b);
  }

  predicate Slashless(t: string) {
    forall i | 0 <= i < |t| :: t[i] != '\\'
  }

  lemma {:induction false} SlashlessCount(t: string)
    requires Slashless(t)
    ensures Slashes(t) == 0
  {
    if t != "" {
      SlashlessCount(t[1..]);
    }
  }

  /** Only a text with nothing to escape needs no more backslashes than it holds. */
  lemma {:induction false} NeedClean(t: string)
    ensures Slashes(t) <= Need(t)
    ensures Slashes(t) == Need(t) <==> CleanText(t)
  {
    if t != "" {
      NeedClean(t[1..]);
      assert CleanText(t) <==> t[0] != '\\' && t[0] != '\"' && CleanText(t[1..]);
    }
  }

  lemma {:induction false} TotalClean(v: JsonValue)
    ensures Total(v, Slashes) <= Total(v, Need)
    ensures Total(v, Slashes) == Total(v, Need) <==> CleanTree(v)
    decreases v, 1
  {
    match v {
      case String(s) => NeedClean(s);
      case Array(items) => ItemsTotalClean(items);
      case Object(ms) => MembersTotalClean(ms);
      case _ =>
    }
  }

  lemma {:induction false} ItemsTotalClean(items: seq<JsonValue>)
    ensures ItemsTotal(items, Slashes) <= ItemsTotal(items, Need)
    ensures ItemsTotal(items, Slashes) == ItemsTotal(items, Need)
            <==> forall i | 0 <= i < |items| :: CleanTree(items[i])
    decreases items, 0
  {
    hide Total, CleanTree;
    if items != [] {
      TotalClean(items[0]);
      ItemsTotalClean(items[1..]);
      assert items == [items[0]] + items[1..];
    }
  }

  lemma {:induction false} MembersTotalClean(ms: seq<Member>)
    ensures MembersTotal(ms, Slashes) <= MembersTotal(ms, Need)
    ensures MembersTotal(ms, Slashes) == MembersTotal(ms, Need)
            <==> forall i | 0 <= i < |ms| :: CleanText(ms[i].key) && CleanTree(ms[i].value)
    decreases ms, 0
  {
    hide Total, CleanTree, CleanText, Slashes, Need;
    if ms != [] {
      NeedClean(ms[0].key);
      TotalClean(ms[0].value);
      MembersTotalClean(ms[1..]);
      assert ms == [ms[0]] + ms[1..];
    }
  }

  // ---- a text holds the backslashes its value needs ---------------------------------------------

  lemma {:induction false} PieceNeed(p: Piece)
    requires AdmittedPiece(p)
    ensures Need([PieceValue(p)]) <= Slashes(PieceText(p))
  {
    assert PieceText(p)[1..][..0] == "";
    if p.Escape? {
      assert PieceText(p)[1..] == [p.c];
    }
  }

  lemma {:induction false} PiecesNeed(ps: seq<Piece>)
    requires AdmittedPieces(ps)
    ensures Need(PiecesValue(ps)) <= Slashes(PiecesText(ps))
  {
    hide PieceText, PieceValue, AdmittedPiece;
    if ps != [] {
      PieceNeed(ps[0]);
      PiecesNeed(ps[1..]);
      SlashesConcat(PieceText(ps[0]), PiecesText(ps[1..]));
      assert PiecesValue(ps)[1..] == PiecesValue(ps[1..]);
    }
  }

  lemma {:induction false} QuotedNeed(ps: seq<Piece>)
    requires AdmittedPieces(ps)
    ensures Need(PiecesValue(ps)) <= Slashes(QuotedText(ps))
  {
    PiecesNeed(ps);
    SlashesAround("\"", PiecesText(ps), "\"");
  }

  lemma {:induction false} SyntaxNeed(d: Syntax)
    requires Admitted(d)
    ensures Total(SyntaxValue(d), Need) <= Slashes(SyntaxText(d))
    decreases d, 0
  {
    hide Slashes, Need;
    match d {
      case Keyword(_) =>
      case Num(_) =>
      case Str(ps) => QuotedNeed(ps);
      case EmptyArr(_) =>
      case Arr(gap, items) =>
        ItemsNeed(items);
        SlashesAround("[" + gap, ItemsText(items), "]");
      case EmptyObj(_) =>
      case Obj(gap, pairs) =>
        PairsNeed(pairs, []);
        SlashesAround("{" + gap, PairsText(pairs), "}");
    }
  }

  lemma {:induction false} ItemsNeed(items: Items)
    requires AdmittedItems(items)
    ensures ItemsTotal(ItemsValue(items), Need) <= Slashes(ItemsText(items))
    decreases items, 1
  {
    hide Slashes, Need, Total, SyntaxText, SyntaxValue, Admitted;
    var first := items.lead + SyntaxText(items.v) + items.trail;
    SyntaxNeed(items.v);
    SlashesAround(items.lead, SyntaxText(items.v), items.trail);
    if items.MoreItems? {
      ItemsNeed(items.rest);
      SlashesAround(first, ",", ItemsText(items.rest));
      assert first + "," + ItemsText(items.rest) == ItemsText(items);
      assert ItemsValue(items)[1..] == ItemsValue(items.rest);
    } else {
      assert ItemsText(items) == first;
      assert ItemsValue(items)[1..] == [];
    }
  }

  lemma {:induction false} PutTotal(ms: seq<Member>, key: string, value: JsonValue, f: string -> nat)
    ensures MembersTotal(Put(ms, key, value), f) <= MembersTotal(ms, f) + f(key) + Total(value, f)
  {
    hide Total;
    var r := Put(ms, key, value);
    if ms == [] || Less(key, ms[0].key) {
      assert r[1..] == ms;
    } else if key == ms[0].key {
      assert r[1..] == ms[1..];
    } else {
      PutTotal(ms[1..], key, value, f);
      assert r[1..] == Put(ms[1..], key, value);
    }
  }

  lemma {:induction false} PairNeed(p: Pair)
    requires AdmittedPair(p)
    ensures Need(PiecesValue(p.key)) + Total(SyntaxValue(p.v), Need) <= Slashes(PairText(p))
    decreases p, 0
  {
    hide Slashes, Need, Total, SyntaxText, SyntaxValue, Admitted, QuotedText, PiecesValue, AdmittedPieces;
    var key := p.lead + QuotedText(p.key) + p.beforeColon;
    QuotedNeed(p.key);
    SyntaxNeed(p.v);
    SlashesAround(p.lead, QuotedText(p.key), p.beforeColon);
    SlashesAround(key, ":", p.afterColon);
    SlashesAround(key + ":" + p.afterColon, SyntaxText(p.v), p.trail);
  }

  lemma {:induction false} PairsNeed(pairs: Pairs, before: seq<Member>)
    requires AdmittedPairs(pairs)
    ensures MembersTotal(PairsValue(pairs, before), Need) <= MembersTotal(before, Need) + Slashes(PairsText(pairs))
    decreases pairs, 1
  {
    hide Slashes, Need, Total, MembersTotal, SyntaxValue, PiecesValue, PairText, AdmittedPair, Put;
    var key, value := PiecesValue(pairs.p.key), SyntaxValue(pairs.p.v);
    PairNeed(pairs.p);
    PutTotal(before, key, value, Need);
    if pairs.MorePairs? {
      PairsNeed(pairs.rest, Put(before, key, value));
      SlashesAround(PairText(pairs.p), ",", PairsText(pairs.rest));
      assert PairText(pairs.p) + "," + PairsText(pairs.rest) == PairsText(pairs);
    } else {
      assert PairsText(pairs) == PairText(pairs.p);
    }
  }

  lemma {:induction false} FormNeed(f: Form)
    requires AdmittedForm(f)
    ensures Total(FormValue(f), Need) <= Slashes(FormText(f))
  {
    hide Slashes, Need;
    match f {
      case Closed(d) => SyntaxNeed(d);
      case OpenArray(_) =>
      case OpenItems(gap, items) =>
        ItemsNeed(items);
        SlashesAround("[" + gap, ItemsText(items), ",");
      case OpenObject(_) =>
      case OpenPairs(gap, pairs) =>
        PairsNeed(pairs, []);
        SlashesAround("{" + gap, PairsText(pairs), ",");
    }
  }

  /** Every accepted text, truncated or not, holds the backslashes its value needs. */
  lemma {:induction false} ParsedNeed(s: string)
    requires Parse(s).Ok?
    ensures Total(Parse(s).value, Need) <= Slashes(s)
  {
    hide Parse, Slashes, FormText, FormValue, AdmittedForm, Total;
    var doc := ParseSound(s);
    FormNeed(doc.form);
    SlashesAround(doc.lead, FormText(doc.form), doc.trail);
  }

  // ---- the printer adds none --------------------------------------------------------------------

  lemma {:induction false} NumberSlashes(x: Numeric)
    ensures Slashes(NumberText(x)) == 0
  {
    hide Notation, Rounded, NumeralValue, Norm, Slashes;
    NumberTextValue(x);
    var n := Printed(x);
    assert Slashless(FracText(n.frac)) && Slashless(ExpText(n.exp));
    SlashlessCount(NumberText(x));
  }

  lemma {:induction false} LayoutSlashes(pretty: bool, n: nat)
    ensures Slashes(Newline(pretty)) == 0 && Slashes(Indent(pretty, n)) == 0
  {
    SlashlessCount(Newline(pretty));
    SlashlessCount(Indent(pretty, n));
  }

  lemma {:induction false} WordSlashes()
    ensures Slashes("null") == 0 && Slashes("true") == 0 && Slashes("false") == 0
    ensures Slashes("[") == 0 && Slashes("]") == 0 && Slashes("{") == 0 && Slashes("}") == 0
    ensures Slashes(",") == 0 && Slashes("") == 0 && Slashes("\"") == 0 && Slashes("\":") == 0 && Slashes(" ") == 0
  {
    SlashlessCount("null");
    SlashlessCount("true");
    SlashlessCount("false");
    SlashlessCount("\":");
  }

  /** A printed tree holds exactly the backslashes of its strings and keys. */
  lemma {:induction false} PrintSlashes(v: JsonValue, pretty: bool, indent: nat)
    ensures Slashes(Print(v, pretty, indent)) == Total(v, Slashes)
    decreases v, 1
  {
    hide Slashes, Newline, Indent, PrintItems, PrintMembers, ItemsTotal, MembersTotal, NumberText;
    WordSlashes();
    match v {
      case Number(n) => NumberSlashes(n);
      case String(s) => SlashesAround("\"", s, "\"");
      case Array(items) =>
        ItemsSlashes(items, pretty, indent);
        BracketSlashes("[", pretty && items != [], indent, PrintItems(items, pretty, indent), "]");
      case Object(ms) =>
        MembersSlashes(ms, pretty, indent);
        BracketSlashes("{", pretty && ms != [], indent, PrintMembers(ms, pretty, indent), "}");
      case _ =>
    }
  }

  lemma {:induction false} BracketSlashes(open: string, lines: bool, indent: nat, body: string, close: string)
    requires Slashes(open) == 0 && Slashes(close) == 0
    ensures Slashes(open + Newline(lines) + body + Indent(lines, indent) + close) == Slashes(body)
  {
    hide Slashes, Newline, Indent;
    LayoutSlashes(lines, indent);
    SlashesConcat(open, Newline(lines));
    SlashesConcat(open + Newline(lines), body);
    SlashesAround(open + Newline(lines) + body, Indent(lines, indent), close);
  }

  lemma {:induction false} ItemsSlashes(items: seq<JsonValue>, pretty: bool, indent: nat)
    ensures Slashes(PrintItems(items, pretty, indent)) == ItemsTotal(items, Slashes)
    decreases items, 0
  {
    hide Slashes, Newline, Indent, Print, Total;
    WordSlashes();
    if items != [] {
      PrintSlashes(items[0], pretty, indent + 2);
      ItemsSlashes(items[1..], pretty, indent);
      LineSlashes(Indent(pretty, indent + 2) + Print(items[0], pretty, indent + 2), |items| > 1, pretty,
                  PrintItems(items[1..], pretty, indent));
      LayoutSlashes(pretty, indent + 2);
      SlashesConcat(Indent(pretty, indent + 2), Print(items[0], pretty, indent + 2));
    }
  }

  /** What stands behind a value: a comma if more follows, the line break and the rest. */
  lemma {:induction false} LineSlashes(line: string, more: bool, pretty: bool, rest: string)
    ensures Slashes(line + (if more then "," else "") + Newline(pretty) + rest) == Slashes(line) + Slashes(rest)
  {
    hide Slashes, Newline;
    var comma := if more then "," else "";
    WordSlashes();
    LayoutSlashes(pretty, 0);
    SlashesConcat(line, comma);
    SlashesAround(line + comma, Newline(pretty), rest);
  }

  lemma {:induction false} KeySlashes(key: string, pretty: bool)
    ensures Slashes(PrintKey(key, pretty)) == Slashes(key)
  {
    hide Slashes;
    WordSlashes();
    SlashesAround("\"", key, "\":");
    SlashesConcat("\"" + key + "\":", if pretty then " " else "");
  }

  lemma {:induction false} MembersSlashes(ms: seq<Member>, pretty: bool, indent: nat)
    ensures Slashes(PrintMembers(ms, pretty, indent)) == MembersTotal(ms, Slashes)
    decreases ms, 0
  {
    hide Slashes, Newline, Indent, Print, PrintKey, Total;
    WordSlashes();
    if ms != [] {
      var key, value := PrintKey(ms[0].key, pretty), Print(ms[0].value, pretty, indent + 2);
      PrintSlashes(ms[0].value, pretty, indent + 2);
      KeySlashes(ms[0].key, pretty);
      MembersSlashes(ms[1..], pretty, indent);
      LayoutSlashes(pretty, indent + 2);
      SlashesAround(Indent(pretty, indent + 2), key, value);
      LineSlashes(Indent(pretty, indent + 2) + key + value, |ms| > 1, pretty, PrintMembers(ms[1..], pretty, indent));
    }
  }

  // ---- the domain of the round trip ---------------------------------------------------------------

  /** Whatever a printed tree is read back as needs at most the backslashes the tree holds. */
  lemma {:induction false} PrintedNeed(v: JsonValue, pretty: bool)
    requires Parse(ToText(v, pretty)).Ok?
    ensures Total(Parse(ToText(v, pretty)).value, Need) <= Total(v, Slashes)
  {
    hide Parse, Print, Total;
    ParsedNeed(ToText(v, pretty));
    PrintSlashes(v, pretty, 0);
  }

  /** Any tree, in either layout, comes back from its text exactly when no string and no key in it
      holds a quote or a backslash and every number has at most six significant digits. */
  lemma {:induction false} SharpRoundTrip(v: JsonValue, pretty: bool)
    requires WellFormed(v)
    ensures Parse(ToText(v, pretty)) == Ok(v, |ToText(v, pretty)|) <==> CleanTree(v) && ExactNumbers(v)
  {
    hide Parse, ToText, CleanTree, WellFormed, ExactNumbers, Total;
    if Parse(ToText(v, pretty)) == Ok(v, |ToText(v, pretty)|) {
      PrintedNeed(v, pretty);
      TotalClean(v);
    }
    if CleanTree(v) {
      RoundTripExact(v, pretty);
    }
  }

  lemma {:induction false} RoundTotal(v: JsonValue, f: string -> nat)
    ensures Total(RoundTree(v), f) == Total(v, f)
    decreases v, 1
  {
    match v {
      case Array(items) => RoundItemsTotal(items, f);
      case Object(ms) => RoundMembersTotal(ms, f);
      case _ =>
    }
  }

  lemma {:induction false} RoundItemsTotal(items: seq<JsonValue>, f: string -> nat)
    ensures ItemsTotal(RoundItems(items), f) == ItemsTotal(items, f)
    decreases items, 0
  {
    hide Total, RoundTree;
    if items != [] {
      RoundTotal(items[0], f);
      RoundItemsTotal(items[1..], f);
      assert RoundItems(items)[0] == RoundTree(items[0]) && RoundItems(items)[1..] == RoundItems(items[1..]);
    }
  }

  lemma {:induction false} RoundMembersTotal(ms: seq<Member>, f: string -> nat)
    ensures MembersTotal(RoundMembers(ms), f) == MembersTotal(ms, f)
    decreases ms, 0
  {
    hide Total, RoundTree;
    if ms != [] {
      RoundTotal(ms[0].value, f);
      RoundMembersTotal(ms[1..], f);
      assert RoundMembers(ms)[0] == Member(ms[0].key, RoundTree(ms[0].value));
      assert RoundMembers(ms)[1..] == RoundMembers(ms[1..]);
    }
  }

  /** Any tree, in either layout, comes back with nothing changed but the rounding of its numbers
      exactly when no string and no key in it holds a quote or a backslash. */
  lemma {:induction false} SharpRounding(v: JsonValue, pretty: bool)
    requires WellFormed(v)
    ensures Parse(ToText(v, pretty)) == Ok(RoundTree(v), |ToText(v, pretty)|) <==> CleanTree(v)
  {
    hide Parse, ToText, CleanTree, WellFormed, Total;
    if Parse(ToText(v, pretty)) == Ok(RoundTree(v), |ToText(v, pretty)|) {
      PrintedNeed(v, pretty);
      RoundTotal(v, Need);
      TotalClean(v);
    }
    if CleanTree(v) {
      ParsePrinted(v, pretty);
    }
  }
}
