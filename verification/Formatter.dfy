/** The pretty layout, as a formatter of the compact text. */
module Formatter {
  // One pass over the characters: outside literals a line is broken behind an opening bracket, behind a
  // comma and before a closing bracket, unless the container is empty; every line starts with two
  // spaces for each bracket that is open; a colon is followed by a space.

  import opened Text
  import opened Decimal
  import opened JsonTree
  import opened Grammar
  import opened NumberPrinting
  import opened JsonPrinter
  import opened RoundTrip
  import opened Layout

  function Spaces(n: nat): string {
    if n == 0 then "" else " " + Spaces(n - 1)
  }

  /** A new line at the given depth. */
  function Line(depth: nat): string {
    "\n" + Spaces(2 * depth)
  }

  predicate Opening(c: char) {
    c == '[' || c == '{'
  }

  predicate Closing(c: char) {
    c == ']' || c == '}'
  }

  /** began: an opening bracket has just been written. */
  function Format(t: string, m: Mode, depth: nat, began: bool): string {
    if t == "" then "" else
    var c, rest, next := t[0], t[1..], Next(m, t[0]);
    if m != Outside then [c] + Format(rest, next, depth, false)
    else if Opening(c) then
      [c] + (if rest != "" && Closing(rest[0]) then "" else Line(depth + 1)) + Format(rest, next, depth + 1, true)
    else if Closing(c) then
      var outer := if depth > 0 then depth - 1 else 0;
      (if began then "" else Line(outer)) + [c] + Format(rest, next, outer, false)
    else if c == ',' then [c] + Line(depth) + Format(rest, next, depth, false)
    else if c == ':' then [c] + " " + Format(rest, next, depth, false)
    else [c] + Format(rest, next, depth, false)
  }

  function Prettify(compact: string): string {
    Format(compact, Outside, 0, false)
  }

  // ---- pieces of text that are kept as they are -----------------------------------------------------

  lemma {:induction false} SpacesIndent(n: nat)
    ensures Spaces(n) == Indent(true, n)
  {
    if n > 0 {
      SpacesIndent(n - 1);
      assert Repeat(' ', n) == " " + Repeat(' ', n - 1);
    }
  }

  predicate Ordinary(c: char) {
    c != '\"' && !Opening(c) && !Closing(c) && c != ',' && c != ':'
  }

  lemma {:induction false} OverOrdinary(t: string, w: string, depth: nat, began: bool)
    requires t != "" && forall i | 0 <= i < |t| :: Ordinary(t[i])
    ensures Format(t + w, Outside, depth, began) == t + Format(w, Outside, depth, false)
  {
    assert (t + w)[1..] == t[1..] + w;
    if |t| > 1 {
      OverOrdinary(t[1..], w, depth, false);
      assert t == [t[0]] + t[1..];
    } else {
      assert t[1..] + w == w;
    }
  }

  lemma {:induction false} OverInside(t: string, w: string, depth: nat)
    requires CleanText(t)
    ensures Format(t + w, Inside, depth, false) == t + Format(w, Inside, depth, false)
  {
    if t == "" {
      assert t + w == w;
    } else {
      assert (t + w)[1..] == t[1..] + w;
      OverInside(t[1..], w, depth);
      assert t == [t[0]] + t[1..];
    }
  }

  lemma {:induction false} OneMore(c: char, w: string, m: Mode, depth: nat, began: bool)
    ensures ([c] + w)[1..] == w && ([c] + w)[0] == c
    ensures m != Outside || (!Opening(c) && !Closing(c) && c != ',' && c != ':') ==>
              Format([c] + w, m, depth, began) == [c] + Format(w, Next(m, c), depth, false)
    ensures m == Outside && c == ',' ==>
              Format([c] + w, m, depth, began) == "," + Line(depth) + Format(w, m, depth, false)
    ensures m == Outside && c == ':' ==> Format([c] + w, m, depth, began) == ": " + Format(w, m, depth, false)
  {
    assert ([c] + w)[1..] == w;
    assert ":" + " " == ": ";
  }

  lemma {:induction false} OverString(s: string, w: string, depth: nat, began: bool)
    requires CleanText(s)
    ensures Format("\"" + s + "\"" + w, Outside, depth, began) == "\"" + s + "\"" + Format(w, Outside, depth, false)
  {
    hide Format;
    assert "\"" + s + "\"" + w == ['\"'] + (s + (['\"'] + w));
    OneMore('\"', s + (['\"'] + w), Outside, depth, began);
    OverInside(s, ['\"'] + w, depth);
    OneMore('\"', w, Inside, depth, false);
  }

  lemma {:induction false} NumberOrdinary(x: Numeric)
    ensures NumberText(x) != "" && forall i | 0 <= i < |NumberText(x)| :: Ordinary(NumberText(x)[i])
  {
    hide Notation, Rounded, NumeralValue, Norm;
    NumberTextValue(x);
    var n := Printed(x);
    assert forall i | 0 <= i < |FracText(n.frac)| :: Ordinary(FracText(n.frac)[i]);
    assert forall i | 0 <= i < |ExpText(n.exp)| :: Ordinary(ExpText(n.exp)[i]);
  }

  // ---- values -----------------------------------------------------------------------------------------

  /** A value in front of any other text. */
  lemma {:induction false} OverValue(v: JsonValue, j: nat, w: string, depth: nat, began: bool)
    requires CleanTree(v)
    ensures Format(Print(v, false, j) + w, Outside, depth, began)
         == Print(v, true, 2 * depth) + Format(w, Outside, depth, false)
    decreases v, 1
  {
    hide Format, NumberText;
    match v {
      case Null => OverOrdinary("null", w, depth, began);
      case Boolean(b) => OverOrdinary(if b then "true" else "false", w, depth, began);
      case Number(n) =>
        NumberOrdinary(n);
        OverOrdinary(NumberText(n), w, depth, began);
      case String(s) => OverString(s, w, depth, began);
      case Array(items) =>
        if items == [] {
          EmptyText(false, j);
          EmptyText(true, 2 * depth);
          EmptyBrackets('[', ']', w, depth, began);
          assert ['['] + [']'] == "[]";
        } else {
          OverArray(items, j, w, depth, began);
        }
      case Object(ms) =>
        if ms == [] {
          EmptyText(false, j);
          EmptyText(true, 2 * depth);
          EmptyBrackets('{', '}', w, depth, began);
          assert ['{'] + ['}'] == "{}";
        } else {
          OverObject(ms, j, w, depth, began);
        }
    }
  }

  lemma {:induction false} EmptyBrackets(open: char, close: char, w: string, depth: nat, began: bool)
    requires Opening(open) && Closing(close)
    ensures Format([open] + [close] + w, Outside, depth, began) == [open] + [close] + Format(w, Outside, depth, false)
  {
    var t := [open] + [close] + w;
    assert t[1..] == [close] + w && ([close] + w)[1..] == w;
  }

  /** An opening bracket before something that does not close it. */
  lemma {:induction false} OverOpening(open: char, w: string, depth: nat, began: bool)
    requires Opening(open) && w != "" && !Closing(w[0])
    ensures Format([open] + w, Outside, depth, began) == [open] + Line(depth + 1) + Format(w, Outside, depth + 1, true)
  {
    assert ([open] + w)[1..] == w;
  }

  lemma {:induction false} OverClosing(close: char, w: string, depth: nat)
    requires Closing(close)
    ensures Format([close] + w, Outside, depth + 1, false) == Line(depth) + [close] + Format(w, Outside, depth, false)
  {
    assert ([close] + w)[1..] == w;
  }

  lemma {:induction false} ValueFirst(v: JsonValue, j: nat)
    ensures Print(v, false, j) != "" && !Closing(Print(v, false, j)[0])
  {
    if v.Number? {
      NumberOrdinary(v.n);
    }
  }

  lemma {:induction false} OverArray(items: seq<JsonValue>, j: nat, w: string, depth: nat, began: bool)
    requires items != [] && forall i | 0 <= i < |items| :: CleanTree(items[i])
    ensures Format(Print(Array(items), false, j) + w, Outside, depth, began)
         == Print(Array(items), true, 2 * depth) + Format(w, Outside, depth, false)
    decreases items, 2
  {
    hide Format, PrintItems, Line;
    var body := PrintItems(items, false, j);
    var rest := body + ("]" + w);
    assert Print(Array(items), false, j) + w == ['['] + rest;
    ItemsFirst(items, j);
    OverOpening('[', rest, depth, began);
    OverItems(items, j, w, depth, true);
    Regrouped("[", depth, Format(rest, Outside, depth + 1, true), PrintItems(items, true, 2 * depth), "]",
              Format(w, Outside, depth, false));
  }

  lemma {:induction false} ItemsFirst(items: seq<JsonValue>, j: nat)
    requires items != []
    ensures PrintItems(items, false, j) != "" && !Closing(PrintItems(items, false, j)[0])
  {
    ValueFirst(items[0], j + 2);
  }

  /** The first line break comes with the bracket, the printer's with each line. */
  lemma {:induction false} Regrouped(open: string, depth: nat, formatted: string, body: string, close: string,
                                     w: string)
    requires Spaces(2 * (depth + 1)) + formatted == body + Spaces(2 * depth) + close + w
    ensures open + Line(depth + 1) + formatted
         == open + Newline(true) + body + Indent(true, 2 * depth) + close + w
  {
    SpacesIndent(2 * depth);
    assert open + Line(depth + 1) + formatted == open + "\n" + (Spaces(2 * (depth + 1)) + formatted);
  }

  /** What follows a value in a list, when more comes and when the list ends. */
  lemma {:induction false} LineTexts(lead: string, v: string, depth: nat, formatted: string, rest: string,
                                     close: string, w: string)
    ensures lead + (v + ("," + Line(depth + 1) + formatted))
         == lead + v + "," + "\n" + (Spaces(2 * (depth + 1)) + formatted)
    ensures lead + (v + (Line(depth) + close + w)) == lead + v + "" + "\n" + "" + Spaces(2 * depth) + close + w
    ensures lead + v + "," + "\n" + (rest + Spaces(2 * depth) + close + w)
         == lead + v + "," + "\n" + rest + Spaces(2 * depth) + close + w
  {
  }

  lemma {:induction false} OverItems(items: seq<JsonValue>, j: nat, w: string, depth: nat, began: bool)
    requires items != [] && forall i | 0 <= i < |items| :: CleanTree(items[i])
    ensures Spaces(2 * (depth + 1)) + Format(PrintItems(items, false, j) + ("]" + w), Outside, depth + 1, began)
         == PrintItems(items, true, 2 * depth) + Spaces(2 * depth) + "]" + Format(w, Outside, depth, false)
    decreases items, 1
  {
    hide Format, Print, Line, Spaces, CleanTree, PrintItems;
    var lead := Spaces(2 * (depth + 1));
    var compact, pretty := Print(items[0], false, j + 2), Print(items[0], true, 2 * (depth + 1));
    var done := Format(w, Outside, depth, false);
    SpacesIndent(2 * (depth + 1));
    ItemsStep(items, j, depth);
    if |items| == 1 {
      assert compact + "" + "" + "" + ("]" + w) == compact + ([']'] + w);
      OverValue(items[0], j + 2, [']'] + w, depth + 1, began);
      OverClosing(']', w, depth);
      LineTexts(lead, pretty, depth, "", "", "]", done);
    } else {
      var more := PrintItems(items[1..], false, j) + ("]" + w);
      assert compact + "," + "" + PrintItems(items[1..], false, j) + ("]" + w) == compact + ([','] + more);
      OverValue(items[0], j + 2, [','] + more, depth + 1, began);
      OneMore(',', more, Outside, depth + 1, false);
      OverItems(items[1..], j, w, depth, false);
      LineTexts(lead, pretty, depth, Format(more, Outside, depth + 1, false), PrintItems(items[1..], true, 2 * depth),
                "]", done);
    }
  }

  lemma {:induction false} ItemsStep(items: seq<JsonValue>, j: nat, depth: nat)
    requires items != []
    ensures PrintItems(items, false, j)
         == Print(items[0], false, j + 2) + (if |items| > 1 then "," else "") + "" + PrintItems(items[1..], false, j)
    ensures PrintItems(items, true, 2 * depth)
         == Indent(true, 2 * (depth + 1)) + Print(items[0], true, 2 * (depth + 1)) + (if |items| > 1 then "," else "")
            + "\n" + PrintItems(items[1..], true, 2 * depth)
    ensures |items| == 1 ==> PrintItems(items[1..], false, j) == "" && PrintItems(items[1..], true, 2 * depth) == ""
  {
    hide Print;
    assert "" + Print(items[0], false, j + 2) == Print(items[0], false, j + 2);
    assert 2 * depth + 2 == 2 * (depth + 1);
  }

  lemma {:induction false} OverObject(ms: seq<Member>, j: nat, w: string, depth: nat, began: bool)
    requires ms != [] && forall i | 0 <= i < |ms| :: CleanText(ms[i].key) && CleanTree(ms[i].value)
    ensures Format(Print(Object(ms), false, j) + w, Outside, depth, began)
         == Print(Object(ms), true, 2 * depth) + Format(w, Outside, depth, false)
    decreases ms, 2
  {
    hide Format, PrintMembers, Line;
    var body := PrintMembers(ms, false, j);
    var rest := body + ("}" + w);
    assert Print(Object(ms), false, j) + w == ['{'] + rest;
    MembersFirst(ms, j);
    OverOpening('{', rest, depth, began);
    OverMembers(ms, j, w, depth, true);
    Regrouped("{", depth, Format(rest, Outside, depth + 1, true), PrintMembers(ms, true, 2 * depth), "}",
              Format(w, Outside, depth, false));
  }

  lemma {:induction false} MembersFirst(ms: seq<Member>, j: nat)
    requires ms != []
    ensures PrintMembers(ms, false, j) != "" && !Closing(PrintMembers(ms, false, j)[0])
  {
    assert PrintMembers(ms, false, j)[0] == '\"';
  }

  /** A key, its colon and its value. */
  lemma {:induction false} OverMember(m: Member, j: nat, w: string, depth: nat, began: bool)
    requires CleanText(m.key) && CleanTree(m.value)
    ensures Format(PrintKey(m.key, false) + Print(m.value, false, j) + w, Outside, depth, began)
         == PrintKey(m.key, true) + Print(m.value, true, 2 * depth) + Format(w, Outside, depth, false)
    decreases m, 0
  {
    hide Format, Print;
    var compact := Print(m.value, false, j);
    assert PrintKey(m.key, false) + compact + w == "\"" + m.key + "\"" + ([':'] + (compact + w));
    OverString(m.key, [':'] + (compact + w), depth, began);
    OneMore(':', compact + w, Outside, depth, false);
    OverValue(m.value, j, w, depth, false);
    assert PrintKey(m.key, true) == "\"" + m.key + "\"" + ": ";
  }

  lemma {:induction false} OverMembers(ms: seq<Member>, j: nat, w: string, depth: nat, began: bool)
    requires ms != [] && forall i | 0 <= i < |ms| :: CleanText(ms[i].key) && CleanTree(ms[i].value)
    ensures Spaces(2 * (depth + 1)) + Format(PrintMembers(ms, false, j) + ("}" + w), Outside, depth + 1, began)
         == PrintMembers(ms, true, 2 * depth) + Spaces(2 * depth) + "}" + Format(w, Outside, depth, false)
    decreases ms, 1
  {
    hide Format, Print, PrintKey, Line, Spaces, CleanTree, PrintMembers;
    var lead := Spaces(2 * (depth + 1));
    var compact := PrintKey(ms[0].key, false) + Print(ms[0].value, false, j + 2);
    var pretty := PrintKey(ms[0].key, true) + Print(ms[0].value, true, 2 * (depth + 1));
    var done := Format(w, Outside, depth, false);
    SpacesIndent(2 * (depth + 1));
    MembersStep(ms, j, depth);
    if |ms| == 1 {
      assert compact + "" + "" + "" + ("}" + w) == compact + (['}'] + w);
      OverMember(ms[0], j + 2, ['}'] + w, depth + 1, began);
      OverClosing('}', w, depth);
      LineTexts(lead, pretty, depth, "", "", "}", done);
    } else {
      var more := PrintMembers(ms[1..], false, j) + ("}" + w);
      assert compact + "," + "" + PrintMembers(ms[1..], false, j) + ("}" + w) == compact + ([','] + more);
      OverMember(ms[0], j + 2, [','] + more, depth + 1, began);
      OneMore(',', more, Outside, depth + 1, false);
      OverMembers(ms[1..], j, w, depth, false);
      LineTexts(lead, pretty, depth, Format(more, Outside, depth + 1, false), PrintMembers(ms[1..], true, 2 * depth),
                "}", done);
    }
  }

  lemma {:induction false} MembersStep(ms: seq<Member>, j: nat, depth: nat)
    requires ms != []
    ensures PrintMembers(ms, false, j)
         == (PrintKey(ms[0].key, false) + Print(ms[0].value, false, j + 2)) + (if |ms| > 1 then "," else "") + ""
            + PrintMembers(ms[1..], false, j)
    ensures PrintMembers(ms, true, 2 * depth)
         == Indent(true, 2 * (depth + 1)) + (PrintKey(ms[0].key, true) + Print(ms[0].value, true, 2 * (depth + 1)))
            + (if |ms| > 1 then "," else "") + "\n" + PrintMembers(ms[1..], true, 2 * depth)
    ensures |ms| == 1 ==> PrintMembers(ms[1..], false, j) == "" && PrintMembers(ms[1..], true, 2 * depth) == ""
  {
    hide Print, PrintKey;
    assert "" + PrintKey(ms[0].key, false) == PrintKey(ms[0].key, false);
    assert 2 * depth + 2 == 2 * (depth + 1);
  }

  /** With clean strings, the pretty text is the compact text formatted. */
  lemma {:induction false} CompactToPretty(v: JsonValue)
    requires CleanTree(v)
    ensures Prettify(ToText(v, false)) == ToText(v, true)
  {
    hide Format, Print, CleanTree;
    OverValue(v, 0, "", 0, false);
    assert Print(v, false, 0) + "" == Print(v, false, 0);
    NothingFormatted();
  }

  lemma {:induction false} NothingFormatted()
    ensures Format("", Outside, 0, false) == ""
  {
  }
}
