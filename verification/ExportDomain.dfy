/** Exactly which lists of log entries survive export and import. */
module ExportDomain {
  // The exporter does not escape, so a field may hold quotes that end its literal early and text that
  // looks like other fields or entries. The records read back still need no more backslashes than the
  // exported fields hold.

  import opened Text
  import opened JsonTree
  import opened ParserSpec
  import opened NumberPrinting
  import opened JsonPrinter
  import opened RoundTrip
  import opened SharpDomain
  import opened LogEntries
  import opened LogJson

  /** A measure of texts summed over the four text fields of an entry. */
  function EntryTotal(e: LogEntry, f: string -> nat): nat {
    f(e.timestamp) + f(e.ip) + f(e.httpMethod) + f(e.url)
  }

  function EntriesTotal(logs: seq<LogEntry>, f: string -> nat): nat {
    if logs == [] then 0 else EntryTotal(logs[0], f) + EntriesTotal(logs[1..], f)
  }

  // ---- reading records loses, or keeps, what the tree needs ---------------------------------------

  function Without(ms: seq<Member>, key: string): seq<Member> {
    if ms == [] then []
    else if ms[0].key == key then ms[1..]
    else [ms[0]] + Without(ms[1..], key)
  }

  lemma {:induction false} WithoutTotal(ms: seq<Member>, key: string, f: string -> nat)
    requires Lookup(ms, key).Some?
    ensures MembersTotal(ms, f) == f(key) + Total(Lookup(ms, key).value, f) + MembersTotal(Without(ms, key), f)
  {
    hide Total;
    if ms[0].key != key {
      WithoutTotal(ms[1..], key, f);
      assert Without(ms, key)[1..] == Without(ms[1..], key);
    }
  }

  lemma {:induction false} WithoutOther(ms: seq<Member>, key: string, other: string)
    requires other != key
    ensures Lookup(Without(ms, key), other) == Lookup(ms, other)
  {
    if ms != [] && ms[0].key != key {
      WithoutOther(ms[1..], key, other);
      assert Without(ms, key)[1..] == Without(ms[1..], key);
    }
  }

  /** Four keys are four different members. */
  lemma {:induction false} FieldsTotal(v: JsonValue, f: string -> nat)
    requires EntryOf(v).Some?
    ensures EntryTotal(EntryOf(v).value, f) <= Total(v, f)
  {
    hide MembersTotal, Without, Lookup;
    var m0 := v.members;
    var m1 := Without(m0, "ts");
    var m2 := Without(m1, "ip");
    var m3 := Without(m2, "method");
    WithoutTotal(m0, "ts", f);
    WithoutOther(m0, "ts", "ip");
    WithoutTotal(m1, "ip", f);
    WithoutOther(m0, "ts", "method");
    WithoutOther(m1, "ip", "method");
    WithoutTotal(m2, "method", f);
    WithoutOther(m0, "ts", "url");
    WithoutOther(m1, "ip", "url");
    WithoutOther(m2, "method", "url");
    WithoutTotal(m3, "url", f);
  }

  /** Duplicate keys, skipped elements and further members only ever lose something. */
  lemma {:induction false} ImportedTotal(items: seq<JsonValue>, f: string -> nat)
    ensures EntriesTotal(EntriesOf(items), f) <= ItemsTotal(items, f)
  {
    hide EntryOf, EntryTotal, Total;
    if items != [] {
      ImportedTotal(items[1..], f);
      if EntryOf(items[0]).Some? {
        FieldsTotal(items[0], f);
        assert EntriesOf(items)[1..] == EntriesOf(items[1..]);
      } else {
        assert EntriesOf(items) == EntriesOf(items[1..]);
      }
    }
  }

  // ---- the exported tree holds what the records hold -----------------------------------------------

  lemma {:induction false} MembersUnfold(m: Member, ms: seq<Member>, f: string -> nat)
    ensures MembersTotal([m] + ms, f) == f(m.key) + Total(m.value, f) + MembersTotal(ms, f)
  {
    assert ([m] + ms)[1..] == ms;
  }

  lemma {:induction false} KeySlashless()
    ensures Slashes("ip") == 0 && Slashes("method") == 0 && Slashes("status") == 0 && Slashes("ts") == 0
            && Slashes("url") == 0
  {
    SlashlessCount("ip");
    SlashlessCount("method");
    SlashlessCount("status");
    SlashlessCount("ts");
    SlashlessCount("url");
  }

  lemma {:induction false} ObjectTotal(e: LogEntry)
    ensures Total(EntryObject(e), Slashes) == EntryTotal(e, Slashes)
  {
    hide EntryObject, MembersTotal, Slashes, OfInt;
    EntryObjectMembers(e);
    var ms := EntryMembers(e);
    MembersUnfold(ms[0], ms[1..], Slashes);
    MembersUnfold(ms[1], ms[2..], Slashes);
    MembersUnfold(ms[2], ms[3..], Slashes);
    MembersUnfold(ms[3], ms[4..], Slashes);
    MembersUnfold(ms[4], [], Slashes);
    assert ms == [ms[0]] + ms[1..] && ms[1..] == [ms[1]] + ms[2..] && ms[2..] == [ms[2]] + ms[3..];
    assert ms[3..] == [ms[3]] + ms[4..] && ms[4..] == [ms[4]] + [];
    NoMembers();
    KeySlashless();
  }

  lemma {:induction false} NoMembers()
    ensures MembersTotal([], Slashes) == 0
  {
  }

  lemma {:induction false} ExportedTotal(logs: seq<LogEntry>)
    ensures ItemsTotal(EntryObjects(logs), Slashes) == EntriesTotal(logs, Slashes)
  {
    hide EntryObject, EntryTotal, Total, Slashes;
    if logs != [] {
      ObjectTotal(logs[0]);
      ExportedTotal(logs[1..]);
      assert EntryObjects(logs)[1..] == EntryObjects(logs[1..]);
    }
  }

  lemma {:induction false} EntriesClean(logs: seq<LogEntry>)
    ensures EntriesTotal(logs, Slashes) <= EntriesTotal(logs, Need)
    ensures EntriesTotal(logs, Slashes) == EntriesTotal(logs, Need)
            <==> forall i | 0 <= i < |logs| :: CleanEntry(logs[i])
  {
    hide Slashes, Need, CleanText;
    if logs != [] {
      NeedClean(logs[0].timestamp);
      NeedClean(logs[0].ip);
      NeedClean(logs[0].httpMethod);
      NeedClean(logs[0].url);
      EntriesClean(logs[1..]);
      assert logs == [logs[0]] + logs[1..];
    }
  }

  // ---- the domain -----------------------------------------------------------------------------------

  /** Whatever records an export is read back as need at most the backslashes the exported ones hold. */
  lemma {:induction false} ReimportedNeed(logs: seq<LogEntry>)
    requires ImportText(ExportText(logs)).Some?
    ensures EntriesTotal(ImportText(ExportText(logs)).value, Need) <= EntriesTotal(logs, Slashes)
  {
    hide Parse, ToText, ItemsTotal, EntriesTotal, EntriesOf;
    PrintedNeed(ExportTree(logs), true);
    ImportedTotal(Parse(ExportText(logs)).value.items, Need);
    ExportedTotal(logs);
  }

  /** Every list whatsoever: exporting and importing gives it back, in order and with duplicates,
      exactly when no field holds a quote or a backslash and every status has at most six
      significant digits. */
  lemma {:induction false} ExportImportExactly(logs: seq<LogEntry>)
    ensures ImportText(ExportText(logs)) == Some(logs)
            <==> forall i | 0 <= i < |logs| :: CleanEntry(logs[i]) && SixDigits(OfInt(logs[i].status))
  {
    hide ImportText, ExportText, CleanEntry, SixDigits, OfInt, EntriesTotal;
    if ImportText(ExportText(logs)) == Some(logs) {
      ReimportedNeed(logs);
      EntriesClean(logs);
    }
    if forall i | 0 <= i < |logs| :: CleanEntry(logs[i]) {
      ExportImport(logs);
    }
  }

  // ---- the exported text ------------------------------------------------------------------------------

  function Quoted(s: string): string {
    "\"" + s + "\""
  }

  function FieldSpelled(key: string, text: string): string {
    "    " + Quoted(key) + ": " + text
  }

  /** A record as it stands in the file: the keys in the order of the map, the strings as they are. */
  function EntrySpelled(e: LogEntry): string {
    "  {\n"
    + FieldSpelled("ip", Quoted(e.ip)) + ",\n"
    + FieldSpelled("method", Quoted(e.httpMethod)) + ",\n"
    + FieldSpelled("status", NumberText(OfInt(e.status))) + ",\n"
    + FieldSpelled("ts", Quoted(e.timestamp)) + ",\n"
    + FieldSpelled("url", Quoted(e.url)) + "\n"
    + "  }"
  }

  function EntriesSpelled(logs: seq<LogEntry>): string
    requires logs != []
  {
    EntrySpelled(logs[0]) + if |logs| == 1 then "\n" else ",\n" + EntriesSpelled(logs[1..])
  }

  lemma {:induction false} MemberSpelled(m: Member, ms: seq<Member>)
    ensures PrintMembers([m] + ms, true, 2)
         == FieldSpelled(m.key, Print(m.value, true, 4)) + (if ms == [] then "\n" else ",\n")
            + PrintMembers(ms, true, 2)
  {
    hide Print;
    assert ([m] + ms)[1..] == ms;
    assert Indent(true, 4) == "    ";
    assert PrintKey(m.key, true) == Quoted(m.key) + ": ";
  }

  lemma {:induction false} ObjectSpelled(e: LogEntry)
    ensures "  " + Print(EntryObject(e), true, 2) == EntrySpelled(e)
  {
    hide EntryObject, NumberText, OfInt, PrintMembers, FieldSpelled;
    EntryObjectMembers(e);
    var ms := EntryMembers(e);
    MemberSpelled(ms[0], [ms[1], ms[2], ms[3], ms[4]]);
    MemberSpelled(ms[1], [ms[2], ms[3], ms[4]]);
    MemberSpelled(ms[2], [ms[3], ms[4]]);
    MemberSpelled(ms[3], [ms[4]]);
    MemberSpelled(ms[4], []);
    assert ms == [ms[0]] + [ms[1], ms[2], ms[3], ms[4]] && [ms[4]] + [] == [ms[4]];
    assert [ms[1], ms[2], ms[3], ms[4]] == [ms[1]] + [ms[2], ms[3], ms[4]];
    assert [ms[2], ms[3], ms[4]] == [ms[2]] + [ms[3], ms[4]] && [ms[3], ms[4]] == [ms[3]] + [ms[4]];
    NoMoreMembers();
    assert Indent(true, 2) == "  ";
    FieldsGrouped(FieldSpelled("ip", Quoted(e.ip)), FieldSpelled("method", Quoted(e.httpMethod)),
                  FieldSpelled("status", NumberText(OfInt(e.status))), FieldSpelled("ts", Quoted(e.timestamp)),
                  FieldSpelled("url", Quoted(e.url)));
  }

  lemma {:induction false} NoMoreMembers()
    ensures PrintMembers([], true, 2) == ""
  {
  }

  lemma {:induction false} FieldsGrouped(a: string, b: string, c: string, d: string, e: string)
    ensures "  " + ("{" + "\n" + (a + ",\n" + (b + ",\n" + (c + ",\n" + (d + ",\n" + (e + "\n" + ""))))) + "  " + "}")
         == "  {\n" + a + ",\n" + b + ",\n" + c + ",\n" + d + ",\n" + e + "\n" + "  }"
  {
  }

  lemma {:induction false} ItemsSpelled(logs: seq<LogEntry>)
    requires logs != []
    ensures PrintItems(EntryObjects(logs), true, 0) == EntriesSpelled(logs)
  {
    hide EntrySpelled, Print, EntryObject;
    var objects := EntryObjects(logs);
    assert objects[0] == EntryObject(logs[0]) && objects[1..] == EntryObjects(logs[1..]);
    ObjectSpelled(logs[0]);
    assert Indent(true, 2) == "  ";
    if |logs| > 1 {
      ItemsSpelled(logs[1..]);
    }
  }

  /** The exported file of any list of records, character by character. */
  lemma {:induction false} ExportSpelled(logs: seq<LogEntry>)
    ensures ExportText(logs) == if logs == [] then "[]" else "[\n" + EntriesSpelled(logs) + "]"
  {
    hide EntriesSpelled, PrintItems;
    if logs != [] {
      ItemsSpelled(logs);
      assert Indent(true, 0) == "";
    } else {
      EmptyText(true, 0);
    }
  }
}
