/** Printing and parsing: what comes back. */
module RoundTrip {
  import opened Text
  import opened JsonTree
  import opened Grammar
  import opened ParserSpec
  import opened Completeness
  import opened NumberPrinting
  import opened JsonPrinter

  /** No quote and no backslash: the characters the printer writes without escaping them. */
  predicate CleanText(s: string) {
    forall i | 0 <= i < |s| :: s[i] != '\"' && s[i] != '\\'
  }

  ghost predicate CleanTree(v: JsonValue) {
    match v
    case String(s) => CleanText(s)
    case Array(items) => forall i | 0 <= i < |items| :: CleanTree(items[i])
    case Object(ms) => forall i | 0 <= i < |ms| :: CleanText(ms[i].key) && CleanTree(ms[i].value)
    case _ => true
  }

  /** The tree with every number rounded to six significant digits. */
  function RoundTree(v: JsonValue): JsonValue {
    match v
    case Number(n) => Number(Rounded(n))
    case Array(items) => Array(RoundItems(items))
    case Object(ms) => Object(RoundMembers(ms))
    case _ => v
  }

  function RoundItems(items: seq<JsonValue>): (r: seq<JsonValue>)
    ensures |r| == |items|
  {
    if items == [] then [] else [RoundTree(items[0])] + RoundItems(items[1..])
  }

  function RoundMembers(ms: seq<Member>): (r: seq<Member>)
    ensures |r| == |ms| && forall i | 0 <= i < |ms| :: r[i].key == ms[i].key
  {
    if ms == [] then [] else [Member(ms[0].key, RoundTree(ms[0].value))] + RoundMembers(ms[1..])
  }

  // ---- the syntax the printer writes --------------------------------------------------------

  function RawPieces(s: string): (ps: seq<Piece>)
    ensures |ps| == |s| && forall i | 0 <= i < |s| :: ps[i] == Raw(s[i])
  {
    if s == "" then [] else [Raw(s[0])] + RawPieces(s[1..])
  }

  function SyntaxOf(v: JsonValue, pretty: bool, indent: nat): Syntax {
    match v
    case Null => Keyword(WordNull)
    case Boolean(b) => Keyword(if b then WordTrue else WordFalse)
    case Number(n) => Num(Printed(n))
    case String(s) => Str(RawPieces(s))
    case Array(items) =>
      if items == [] then EmptyArr("")
      else Arr(NextLine(pretty, indent + 2), ItemsOf(items, "", pretty, indent))
    case Object(ms) =>
      if ms == [] then EmptyObj("")
      else Obj(NextLine(pretty, indent + 2), PairsOf(ms, "", pretty, indent))
  }

  function NextLine(pretty: bool, indent: nat): string {
    Newline(pretty) + Indent(pretty, indent)
  }

  function ItemsOf(items: seq<JsonValue>, lead: string, pretty: bool, indent: nat): Items
    requires items != []
  {
    var v := SyntaxOf(items[0], pretty, indent + 2);
    if |items| == 1 then LastItem(lead, v, NextLine(pretty, indent))
    else MoreItems(lead, v, "", ItemsOf(items[1..], NextLine(pretty, indent + 2), pretty, indent))
  }

  function PairsOf(ms: seq<Member>, lead: string, pretty: bool, indent: nat): Pairs
    requires ms != []
  {
    var v := SyntaxOf(ms[0].value, pretty, indent + 2);
    var last := |ms| == 1;
    var p := Pair(lead, RawPieces(ms[0].key), "", if pretty then " " else "", v,
                  if last then NextLine(pretty, indent) else "");
    if last then LastPair(p) else MorePairs(p, PairsOf(ms[1..], NextLine(pretty, indent + 2), pretty, indent))
  }

  // ---- it spells the printed text -----------------------------------------------------------

  lemma {:induction false} RawPiecesText(s: string)
    ensures PiecesText(RawPieces(s)) == s && PiecesValue(RawPieces(s)) == s
    ensures QuotedText(RawPieces(s)) == "\"" + s + "\""
  {
    if s != "" {
      RawPiecesText(s[1..]);
      assert s == [s[0]] + s[1..];
    }
  }

  lemma {:induction false} SyntaxOfText(v: JsonValue, pretty: bool, indent: nat)
    ensures SyntaxText(SyntaxOf(v, pretty, indent)) == Print(v, pretty, indent)
    decreases v, 1
  {
    match v {
      case Null =>
      case Boolean(_) =>
      case Number(_) =>
      case String(s) =>
        RawPiecesText(s);
      case Array(items) =>
        ArrayText(items, pretty, indent);
      case Object(ms) =>
        ObjectText(ms, pretty, indent);
    }
  }

  lemma {:induction false} ArrayText(items: seq<JsonValue>, pretty: bool, indent: nat)
    ensures SyntaxText(SyntaxOf(Array(items), pretty, indent)) == Print(Array(items), pretty, indent)
    decreases items, 1
  {
    hide NextLine, ItemsOf, ItemsText, Newline, Indent, PrintItems;
    if items == [] {
      EmptyText(pretty, indent);
    } else {
      ItemsOfText(items, "", pretty, indent);
      var lines := PrintItems(items, pretty, indent);
      var body := ItemsText(ItemsOf(items, "", pretty, indent));
      Brackets("[", pretty, indent, lines, body, "]");
    }
  }

  lemma {:induction false} EmptyText(pretty: bool, indent: nat)
    ensures Print(Array([]), pretty, indent) == "[]" && Print(Object([]), pretty, indent) == "{}"
    ensures SyntaxText(EmptyArr("")) == "[]" && SyntaxText(EmptyObj("")) == "{}"
  {
  }

  /** The same text grouped by lines and grouped by values. */
  lemma {:induction false} Brackets(open: string, pretty: bool, indent: nat, lines: string, body: string, close: string)
    requires Indent(pretty, indent + 2) + body == lines + Indent(pretty, indent)
    ensures open + NextLine(pretty, indent + 2) + body + close
         == open + Newline(pretty) + lines + Indent(pretty, indent) + close
  {
    hide Indent, Newline;
    calc {
      open + NextLine(pretty, indent + 2) + body + close;
      open + Newline(pretty) + (Indent(pretty, indent + 2) + body) + close;
      open + Newline(pretty) + (lines + Indent(pretty, indent)) + close;
      open + Newline(pretty) + lines + Indent(pretty, indent) + close;
    }
  }

  /** Element by element: a line is the indentation in front of a value, a lead comes behind a comma. */
  lemma {:induction false} ItemsOfText(items: seq<JsonValue>, lead: string, pretty: bool, indent: nat)
    requires items != []
    ensures var body := ItemsText(ItemsOf(items, "", pretty, indent));
            && ItemsText(ItemsOf(items, lead, pretty, indent)) == lead + body
            && Indent(pretty, indent + 2) + body == PrintItems(items, pretty, indent) + Indent(pretty, indent)
    decreases items, 0
  {
    hide Print, SyntaxOf, Indent, Newline;
    var pad := Indent(pretty, indent + 2);
    var nl := Newline(pretty);
    var v := Print(items[0], pretty, indent + 2);
    SyntaxOfText(items[0], pretty, indent + 2);
    if |items| == 1 {
      LastLine(pad, v, nl, Indent(pretty, indent), lead);
      assert PrintItems(items[1..], pretty, indent) == "";
      assert PrintItems(items, pretty, indent) == pad + v + "" + nl + "";
      assert ItemsText(ItemsOf(items, "", pretty, indent)) == "" + v + (nl + Indent(pretty, indent)) + "";
      assert ItemsText(ItemsOf(items, lead, pretty, indent)) == lead + v + (nl + Indent(pretty, indent)) + "";
    } else {
      ItemsOfText(items[1..], nl + pad, pretty, indent);
      var rest := ItemsText(ItemsOf(items[1..], "", pretty, indent));
      MoreLines(pad, v, nl, rest, PrintItems(items[1..], pretty, indent), Indent(pretty, indent), lead);
      assert ItemsText(ItemsOf(items, "", pretty, indent)) == "" + v + "" + ("," + (nl + pad + rest));
      assert ItemsText(ItemsOf(items, lead, pretty, indent)) == lead + v + "" + ("," + (nl + pad + rest));
      assert PrintItems(items, pretty, indent) == pad + v + "," + nl + PrintItems(items[1..], pretty, indent);
    }
  }

  lemma {:induction false} LastLine(pad: string, v: string, nl: string, end: string, lead: string)
    ensures lead + v + (nl + end) + "" == lead + ("" + v + (nl + end) + "")
    ensures pad + ("" + v + (nl + end) + "") == (pad + v + "" + nl + "") + end
  {
  }

  lemma {:induction false} MoreLines(pad: string, v: string, nl: string, rest: string, lines: string,
                                     end: string, lead: string)
    requires pad + rest == lines + end
    ensures lead + v + "" + ("," + (nl + pad + rest)) == lead + ("" + v + "" + ("," + (nl + pad + rest)))
    ensures pad + ("" + v + "" + ("," + (nl + pad + rest))) == (pad + v + "," + nl + lines) + end
  {
    calc {
      pad + ("" + v + "" + ("," + (nl + pad + rest)));
      pad + v + "," + nl + (pad + rest);
      pad + v + "," + nl + (lines + end);
      (pad + v + "," + nl + lines) + end;
    }
  }

  lemma {:induction false} ObjectText(ms: seq<Member>, pretty: bool, indent: nat)
    ensures SyntaxText(SyntaxOf(Object(ms), pretty, indent)) == Print(Object(ms), pretty, indent)
    decreases ms, 1
  {
    hide NextLine, PairsOf, PairsText, Newline, Indent, PrintMembers;
    if ms == [] {
      EmptyText(pretty, indent);
    } else {
      PairsOfText(ms, "", pretty, indent);
      var lines := PrintMembers(ms, pretty, indent);
      var body := PairsText(PairsOf(ms, "", pretty, indent));
      Brackets("{", pretty, indent, lines, body, "}");
    }
  }

  lemma {:induction false} PairsOfText(ms: seq<Member>, lead: string, pretty: bool, indent: nat)
    requires ms != []
    ensures var body := PairsText(PairsOf(ms, "", pretty, indent));
            && PairsText(PairsOf(ms, lead, pretty, indent)) == lead + body
            && Indent(pretty, indent + 2) + body == PrintMembers(ms, pretty, indent) + Indent(pretty, indent)
    decreases ms, 0
  {
    hide Print, PrintKey, PrintMembers, SyntaxOf, PairText, RawPieces, Indent, Newline;
    var pad := Indent(pretty, indent + 2);
    var nl := Newline(pretty);
    var v := PrintKey(ms[0].key, pretty) + Print(ms[0].value, pretty, indent + 2);
    SyntaxOfText(ms[0].value, pretty, indent + 2);
    PairOfText(ms, "", pretty, indent, v);
    PairOfText(ms, lead, pretty, indent, v);
    MemberLine(ms, pretty, indent, v);
    if |ms| == 1 {
      LastLine(pad, v, nl, Indent(pretty, indent), lead);
      assert PairsText(PairsOf(ms, "", pretty, indent)) == "" + v + (nl + Indent(pretty, indent)) + "";
      assert PairsText(PairsOf(ms, lead, pretty, indent)) == lead + v + (nl + Indent(pretty, indent)) + "";
    } else {
      PairsOfText(ms[1..], nl + pad, pretty, indent);
      var rest := PairsText(PairsOf(ms[1..], "", pretty, indent));
      MoreLines(pad, v, nl, rest, PrintMembers(ms[1..], pretty, indent), Indent(pretty, indent), lead);
      assert PairsText(PairsOf(ms, "", pretty, indent)) == "" + v + "" + ("," + (nl + pad + rest));
      assert PairsText(PairsOf(ms, lead, pretty, indent)) == lead + v + "" + ("," + (nl + pad + rest));
    }
  }

  lemma {:induction false} MemberLine(ms: seq<Member>, pretty: bool, indent: nat, v: string)
    requires ms != [] && v == PrintKey(ms[0].key, pretty) + Print(ms[0].value, pretty, indent + 2)
    ensures PrintMembers(ms, pretty, indent)
         == Indent(pretty, indent + 2) + v + (if |ms| > 1 then "," else "") + Newline(pretty)
            + (if |ms| > 1 then PrintMembers(ms[1..], pretty, indent) else "")
  {
    hide Print, PrintKey, Indent, Newline;
    assert Indent(pretty, indent + 2) + PrintKey(ms[0].key, pretty) + Print(ms[0].value, pretty, indent + 2)
        == Indent(pretty, indent + 2) + v;
  }

  lemma {:induction false} PairOfText(ms: seq<Member>, lead: string, pretty: bool, indent: nat, v: string)
    requires ms != []
    requires v == PrintKey(ms[0].key, pretty) + Print(ms[0].value, pretty, indent + 2)
    requires SyntaxText(SyntaxOf(ms[0].value, pretty, indent + 2)) == Print(ms[0].value, pretty, indent + 2)
    ensures PairText(PairsOf(ms, lead, pretty, indent).p)
         == lead + v + (if |ms| == 1 then NextLine(pretty, indent) else "")
  {
    hide Print, SyntaxOf, SyntaxText, NextLine, PiecesText;
    RawPiecesText(ms[0].key);
    var key := "\"" + ms[0].key + "\"";
    var after := if pretty then " " else "";
    var value := Print(ms[0].value, pretty, indent + 2);
    var trail := if |ms| == 1 then NextLine(pretty, indent) else "";
    assert PrintKey(ms[0].key, pretty) == key + ":" + after;
    assert lead + key + "" + ":" + after + value + trail == lead + (key + ":" + after + value) + trail;
  }

  // ---- it is admitted and stands for the rounded tree -------------------------------------------

  lemma {:induction false} CleanPieces(s: string)
    requires CleanText(s)
    ensures AdmittedPieces(RawPieces(s))
  {
  }

  lemma {:induction false} SyntaxOfAdmitted(v: JsonValue, pretty: bool, indent: nat)
    requires CleanTree(v)
    ensures Admitted(SyntaxOf(v, pretty, indent))
    decreases v, 1
  {
    match v {
      case Number(n) => NumberTextValue(n);
      case String(s) => CleanPieces(s);
      case Array(items) =>
        if items != [] {
          ItemsOfAdmitted(items, "", pretty, indent);
        }
      case Object(ms) =>
        if ms != [] {
          PairsOfAdmitted(ms, "", pretty, indent);
        }
      case _ =>
    }
  }

  lemma {:induction false} ItemsOfAdmitted(items: seq<JsonValue>, lead: string, pretty: bool, indent: nat)
    requires items != [] && AllSpace(lead) && forall i | 0 <= i < |items| :: CleanTree(items[i])
    ensures AdmittedItems(ItemsOf(items, lead, pretty, indent))
    decreases items, 0
  {
    hide Admitted, SyntaxOf;
    SyntaxOfAdmitted(items[0], pretty, indent + 2);
    if |items| > 1 {
      ItemsOfAdmitted(items[1..], NextLine(pretty, indent + 2), pretty, indent);
    }
  }

  lemma {:induction false} PairsOfAdmitted(ms: seq<Member>, lead: string, pretty: bool, indent: nat)
    requires ms != [] && AllSpace(lead)
    requires forall i | 0 <= i < |ms| :: CleanText(ms[i].key) && CleanTree(ms[i].value)
    ensures AdmittedPairs(PairsOf(ms, lead, pretty, indent))
    decreases ms, 0
  {
    hide Admitted, SyntaxOf;
    SyntaxOfAdmitted(ms[0].value, pretty, indent + 2);
    CleanPieces(ms[0].key);
    if |ms| > 1 {
      PairsOfAdmitted(ms[1..], NextLine(pretty, indent + 2), pretty, indent);
    }
  }

  lemma {:induction false} SyntaxOfValue(v: JsonValue, pretty: bool, indent: nat)
    requires WellFormed(v)
    ensures SyntaxValue(SyntaxOf(v, pretty, indent)) == RoundTree(v)
    decreases v, 1
  {
    hide ItemsOf, PairsOf, ItemsValue, PairsValue, RawPieces, PiecesValue, Printed;
    hide NumeralValue, Rounded, AdmittedNumeral, NextLine, RoundMembers, Sorted;
    match v {
      case Number(n) => NumberTextValue(n);
      case String(s) => RawPiecesText(s);
      case Array(items) =>
        if items != [] {
          ItemsOfValue(items, "", pretty, indent);
        }
      case Object(ms) =>
        if ms != [] {
          ObjectOfValue(ms, pretty, indent);
        }
      case _ =>
    }
  }

  lemma {:induction false} ObjectOfValue(ms: seq<Member>, pretty: bool, indent: nat)
    requires ms != [] && WellFormed(Object(ms))
    ensures PairsValue(PairsOf(ms, "", pretty, indent), []) == RoundMembers(ms)
    decreases ms, 1
  {
    hide PairsValue, PairsOf, RoundMembers, WellFormed;
    PairsOfValue(ms, 0, "", pretty, indent);
    assert ms[0..] == ms && RoundMembers(ms)[..0] == [];
  }

  lemma {:induction false} ItemsOfValue(items: seq<JsonValue>, lead: string, pretty: bool, indent: nat)
    requires items != [] && forall i | 0 <= i < |items| :: WellFormed(items[i])
    ensures ItemsValue(ItemsOf(items, lead, pretty, indent)) == RoundItems(items)
    decreases items, 0
  {
    hide SyntaxOf, SyntaxValue, RoundTree;
    SyntaxOfValue(items[0], pretty, indent + 2);
    if |items| > 1 {
      ItemsOfValue(items[1..], NextLine(pretty, indent + 2), pretty, indent);
    }
  }

  lemma {:induction false} RoundMembersAt(ms: seq<Member>, i: nat)
    requires i < |ms|
    ensures RoundMembers(ms)[i] == Member(ms[i].key, RoundTree(ms[i].value))
  {
    if i > 0 {
      RoundMembersAt(ms[1..], i - 1);
    }
  }

  /** The keys come in ascending order, so every binding is appended. */
  lemma {:induction false} PairsOfValue(ms: seq<Member>, i: nat, lead: string, pretty: bool, indent: nat)
    requires i < |ms| && WellFormed(Object(ms))
    ensures PairsValue(PairsOf(ms[i..], lead, pretty, indent), RoundMembers(ms)[..i]) == RoundMembers(ms)
    decreases ms[i..], 0
  {
    hide SyntaxOf, SyntaxValue, RoundTree, Put, RoundMembers;
    var all := RoundMembers(ms);
    RoundMembersAt(ms, i);
    SyntaxOfValue(ms[i].value, pretty, indent + 2);
    RawPiecesText(ms[i].key);
    assert all[..i + 1] == all[..i] + [all[i]];
    PutLast(all[..i], all[i].key, all[i].value);
    if i + 1 < |ms| {
      assert ms[i..][1..] == ms[i + 1..];
      PairsOfValue(ms, i + 1, NextLine(pretty, indent + 2), pretty, indent);
    } else {
      assert all[..i + 1] == all;
    }
  }

  // ---- the round trip -----------------------------------------------------------------------

  /** Parsing a printed tree with clean strings returns the tree, its numbers rounded to six
      significant digits, in either layout. */
  lemma {:induction false} ParsePrinted(v: JsonValue, pretty: bool)
    requires WellFormed(v) && CleanTree(v)
    ensures Parse(ToText(v, pretty)) == Ok(RoundTree(v), |ToText(v, pretty)|)
  {
    hide Parse, Print, SyntaxText, SyntaxOf, SyntaxValue, Admitted, RoundTree;
    var d := SyntaxOf(v, pretty, 0);
    var doc := Document("", Closed(d), "");
    SyntaxOfText(v, pretty, 0);
    SyntaxOfAdmitted(v, pretty, 0);
    SyntaxOfValue(v, pretty, 0);
    assert DocumentText(doc) == "" + SyntaxText(d) + "" == ToText(v, pretty);
    ParseComplete(ToText(v, pretty), doc);
  }

  ghost predicate ExactNumbers(v: JsonValue) {
    match v
    case Number(n) => SixDigits(n)
    case Array(items) => forall i | 0 <= i < |items| :: ExactNumbers(items[i])
    case Object(ms) => forall i | 0 <= i < |ms| :: ExactNumbers(ms[i].value)
    case _ => true
  }

  lemma {:induction false} RoundTreeExact(v: JsonValue)
    ensures RoundTree(v) == v <==> ExactNumbers(v)
    decreases v, 1
  {
    match v {
      case Number(n) => RoundedFixed(n);
      case Array(items) => RoundItemsExact(items);
      case Object(ms) => RoundMembersExact(ms);
      case _ =>
    }
  }

  lemma {:induction false} RoundItemsExact(items: seq<JsonValue>)
    ensures RoundItems(items) == items <==> forall i | 0 <= i < |items| :: ExactNumbers(items[i])
    decreases items, 0
  {
    if items != [] {
      RoundTreeExact(items[0]);
      RoundItemsExact(items[1..]);
      assert items == [items[0]] + items[1..];
      assert RoundItems(items)[0] == RoundTree(items[0]) && RoundItems(items)[1..] == RoundItems(items[1..]);
    }
  }

  lemma {:induction false} RoundMembersExact(ms: seq<Member>)
    ensures RoundMembers(ms) == ms <==> forall i | 0 <= i < |ms| :: ExactNumbers(ms[i].value)
    decreases ms, 0
  {
    if ms != [] {
      RoundTreeExact(ms[0].value);
      RoundMembersExact(ms[1..]);
      assert ms == [ms[0]] + ms[1..];
      assert RoundMembers(ms)[0] == Member(ms[0].key, RoundTree(ms[0].value));
      assert RoundMembers(ms)[1..] == RoundMembers(ms[1..]);
    }
  }

  /** With clean strings, the tree itself comes back exactly when every number has at most six
      significant digits. */
  lemma {:induction false} RoundTripExact(v: JsonValue, pretty: bool)
    requires WellFormed(v) && CleanTree(v)
    ensures Parse(ToText(v, pretty)) == Ok(v, |ToText(v, pretty)|) <==> ExactNumbers(v)
  {
    ParsePrinted(v, pretty);
    RoundTreeExact(v);
  }

  // ---- printing again -------------------------------------------------------------------------

  lemma {:induction false} PrintRounded(v: JsonValue, pretty: bool, indent: nat)
    ensures Print(RoundTree(v), pretty, indent) == Print(v, pretty, indent)
    decreases v, 1
  {
    match v {
      case Number(n) => RoundedFixed(n);
      case Array(items) => PrintRoundedItems(items, pretty, indent);
      case Object(ms) => PrintRoundedMembers(ms, pretty, indent);
      case _ =>
    }
  }

  lemma {:induction false} PrintRoundedItems(items: seq<JsonValue>, pretty: bool, indent: nat)
    ensures PrintItems(RoundItems(items), pretty, indent) == PrintItems(items, pretty, indent)
    decreases items, 0
  {
    hide Print, RoundTree;
    if items != [] {
      PrintRounded(items[0], pretty, indent + 2);
      PrintRoundedItems(items[1..], pretty, indent);
      assert RoundItems(items)[1..] == RoundItems(items[1..]);
    }
  }

  lemma {:induction false} PrintRoundedMembers(ms: seq<Member>, pretty: bool, indent: nat)
    ensures PrintMembers(RoundMembers(ms), pretty, indent) == PrintMembers(ms, pretty, indent)
    decreases ms, 0
  {
    hide Print, RoundTree;
    if ms != [] {
      PrintRounded(ms[0].value, pretty, indent + 2);
      PrintRoundedMembers(ms[1..], pretty, indent);
      assert RoundMembers(ms)[1..] == RoundMembers(ms[1..]);
    }
  }

  /** Reading a printed tree and printing it again reproduces the text. */
  lemma {:induction false} PrintParsePrint(v: JsonValue, pretty: bool)
    requires WellFormed(v) && CleanTree(v)
    ensures Parse(ToText(v, pretty)).Ok? && ToText(Parse(ToText(v, pretty)).value, pretty) == ToText(v, pretty)
  {
    ParsePrinted(v, pretty);
    PrintRounded(v, pretty, 0);
  }
}
