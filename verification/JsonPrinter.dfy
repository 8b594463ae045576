/** toString: the text of a value tree, compact or indented by two spaces a level. */
module JsonPrinter {
  import opened Text
  import opened JsonTree
  import opened NumberPrinting

  function Newline(pretty: bool): string {
    if pretty then "\n" else ""
  }

  function Indent(pretty: bool, n: nat): string {
    if pretty then Repeat(' ', n) else ""
  }

  function Print(v: JsonValue, pretty: bool, indent: nat): string {
    match v
    case Null => "null"
    case Boolean(b) => if b then "true" else "false"
    case Number(n) => NumberText(n)
    case String(s) => "\"" + s + "\""
    case Array(items) =>
      var lines := pretty && items != [];
      "[" + Newline(lines) + PrintItems(items, pretty, indent) + Indent(lines, indent) + "]"
    case Object(ms) =>
      var lines := pretty && ms != [];
      "{" + Newline(lines) + PrintMembers(ms, pretty, indent) + Indent(lines, indent) + "}"
  }

  /** The elements of a container at the given level, each on its own line when pretty. */
  function PrintItems(items: seq<JsonValue>, pretty: bool, indent: nat): string {
    if items == [] then ""
    else Indent(pretty, indent + 2) + Print(items[0], pretty, indent + 2)
         + (if |items| > 1 then "," else "") + Newline(pretty) + PrintItems(items[1..], pretty, indent)
  }

  function PrintKey(key: string, pretty: bool): string {
    "\"" + key + "\":" + (if pretty then " " else "")
  }

  function PrintMembers(ms: seq<Member>, pretty: bool, indent: nat): string {
    if ms == [] then ""
    else Indent(pretty, indent + 2) + PrintKey(ms[0].key, pretty) + Print(ms[0].value, pretty, indent + 2)
         + (if |ms| > 1 then "," else "") + Newline(pretty) + PrintMembers(ms[1..], pretty, indent)
  }

  function ToText(v: JsonValue, pretty: bool): string {
    Print(v, pretty, 0)
  }

  // ---- the printer as it is written -------------------------------------------------------

  class OStringStream {
    var text: string

    constructor ()
      ensures text == ""
    {
      text := "";
    }

    method Put(s: string)
      modifies this
      ensures text == old(text) + s
    {
      text := text + s;
    }
  }

  method WriteValue(oss: OStringStream, val: JsonValue, pretty: bool, indent: nat)
    modifies oss
    ensures oss.text == old(oss.text) + Print(val, pretty, indent)
    decreases val
  {
    match val {
      case Null =>
        oss.Put("null");
      case Boolean(b) =>
        oss.Put(if b then "true" else "false");
      case Number(n) =>
        oss.Put(NumberText(n));
      case String(s) =>
        oss.Put("\"" + s + "\"");
      case Array(items) =>
        WriteArray(oss, val, pretty, indent);
      case Object(ms) =>
        WriteObject(oss, val, pretty, indent);
    }
  }

  method WriteArray(oss: OStringStream, val: JsonValue, pretty: bool, indent: nat)
    requires val.Array?
    modifies oss
    ensures oss.text == old(oss.text) + Print(val, pretty, indent)
    decreases val, 0
  {
    hide PrintItems, Newline, Indent;
    var items := val.items;
    var lines := pretty && items != [];
    oss.Put("[");
    oss.Put(Newline(lines));
    ghost var start := oss.text;
    var i := 0;
    assert items[0..] == items;
    while i < |items|
      invariant 0 <= i <= |items|
      invariant oss.text + PrintItems(items[i..], pretty, indent) == start + PrintItems(items, pretty, indent)
    {
      ghost var before := oss.text;
      oss.Put(Indent(pretty, indent + 2));
      WriteValue(oss, items[i], pretty, indent + 2);
      oss.Put(if i != |items| - 1 then "," else "");
      oss.Put(Newline(pretty));
      ItemsFrom(items, i, pretty, indent, before, oss.text);
      i := i + 1;
    }
    NothingMore(oss.text, items[i..], [], pretty, indent);
    oss.Put(Indent(lines, indent));
    oss.Put("]");
    Regroup(old(oss.text), "[", Newline(lines), PrintItems(items, pretty, indent), Indent(lines, indent), "]");
  }

  lemma {:induction false} NothingMore(text: string, items: seq<JsonValue>, ms: seq<Member>, pretty: bool, indent: nat)
    ensures items == [] ==> text + PrintItems(items, pretty, indent) == text
    ensures ms == [] ==> text + PrintMembers(ms, pretty, indent) == text
  {
  }

  lemma {:induction false} Regroup(a: string, b: string, c: string, d: string, e: string, f: string)
    ensures a + b + c + d + e + f == a + (b + c + d + e + f)
  {
  }

  /** What one turn of the element loop adds. */
  lemma {:induction false} ItemsFrom(items: seq<JsonValue>, i: nat, pretty: bool, indent: nat, before: string,
                                     after: string)
    requires i < |items|
    requires after == before + Indent(pretty, indent + 2) + Print(items[i], pretty, indent + 2)
                      + (if i != |items| - 1 then "," else "") + Newline(pretty)
    ensures after + PrintItems(items[i + 1..], pretty, indent) == before + PrintItems(items[i..], pretty, indent)
  {
    hide Print;
    assert items[i..][1..] == items[i + 1..];
  }

  method WriteObject(oss: OStringStream, val: JsonValue, pretty: bool, indent: nat)
    requires val.Object?
    modifies oss
    ensures oss.text == old(oss.text) + Print(val, pretty, indent)
    decreases val, 0
  {
    hide PrintMembers, PrintKey, Newline, Indent;
    var ms := val.members;
    var lines := pretty && ms != [];
    oss.Put("{");
    oss.Put(Newline(lines));
    ghost var start := oss.text;
    var i := 0;
    assert ms[0..] == ms;
    while i < |ms|
      invariant 0 <= i <= |ms|
      invariant oss.text + PrintMembers(ms[i..], pretty, indent) == start + PrintMembers(ms, pretty, indent)
    {
      ghost var before := oss.text;
      oss.Put(Indent(pretty, indent + 2));
      oss.Put(PrintKey(ms[i].key, pretty));
      WriteValue(oss, ms[i].value, pretty, indent + 2);
      oss.Put(if i + 1 != |ms| then "," else "");
      oss.Put(Newline(pretty));
      MembersFrom(ms, i, pretty, indent, before, oss.text);
      i := i + 1;
    }
    NothingMore(oss.text, [], ms[i..], pretty, indent);
    oss.Put(Indent(lines, indent));
    oss.Put("}");
    Regroup(old(oss.text), "{", Newline(lines), PrintMembers(ms, pretty, indent), Indent(lines, indent), "}");
  }

  /** What one turn of the member loop adds. */
  lemma {:induction false} MembersFrom(ms: seq<Member>, i: nat, pretty: bool, indent: nat, before: string,
                                       after: string)
    requires i < |ms|
    requires after == before + Indent(pretty, indent + 2) + PrintKey(ms[i].key, pretty)
                      + Print(ms[i].value, pretty, indent + 2) + (if i != |ms| - 1 then "," else "") + Newline(pretty)
    ensures after + PrintMembers(ms[i + 1..], pretty, indent) == before + PrintMembers(ms[i..], pretty, indent)
  {
    hide Print, PrintKey;
    assert ms[i..][1..] == ms[i + 1..];
  }

  method ToString(value: JsonValue, pretty: bool) returns (text: string)
    ensures text == ToText(value, pretty)
  {
    var oss := new OStringStream();
    WriteValue(oss, value, pretty, 0);
    text := oss.text;
  }
}
