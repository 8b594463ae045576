/** Log records as JSON: what exportToJson writes and asLogEntries reads back. */
module LogJson {
  import opened Text
  import opened Decimal
  import opened JsonTree
  import opened ParserSpec
  import opened NumberPrinting
  import opened JsonPrinter
  import opened RoundTrip
  import opened LogEntries

  // ---- export -----------------------------------------------------------------------------

  /** The five assignments exportToJson makes to a fresh map. */
  function EntryObject(e: LogEntry): JsonValue {
    var m1 := Put([], "ts", String(e.timestamp));
    var m2 := Put(m1, "ip", String(e.ip));
    var m3 := Put(m2, "method", String(e.httpMethod));
    var m4 := Put(m3, "url", String(e.url));
    Object(Put(m4, "status", Number(OfInt(e.status))))
  }

  function EntryObjects(logs: seq<LogEntry>): (r: seq<JsonValue>)
    ensures |r| == |logs|
  {
    if logs == [] then [] else [EntryObject(logs[0])] + EntryObjects(logs[1..])
  }

  function ExportTree(logs: seq<LogEntry>): JsonValue {
    Array(EntryObjects(logs))
  }

  method BuildExport(logs: seq<LogEntry>) returns (tree: JsonValue)
    ensures tree == ExportTree(logs)
  {
    var arr: seq<JsonValue> := [];
    var i := 0;
    assert logs[0..] == logs;
    while i < |logs|
      invariant 0 <= i <= |logs|
      invariant arr + EntryObjects(logs[i..]) == EntryObjects(logs)
    {
      var obj: seq<Member> := [];
      obj := Put(obj, "ts", String(logs[i].timestamp));
      obj := Put(obj, "ip", String(logs[i].ip));
      obj := Put(obj, "method", String(logs[i].httpMethod));
      obj := Put(obj, "url", String(logs[i].url));
      obj := Put(obj, "status", Number(OfInt(logs[i].status)));
      assert Object(obj) == EntryObject(logs[i]);
      ObjectsStep(logs, i, arr);
      arr := arr + [Object(obj)];
      i := i + 1;
    }
    assert arr + EntryObjects([]) == arr;
    tree := Array(arr);
  }

  lemma {:induction false} ObjectsStep(logs: seq<LogEntry>, i: nat, arr: seq<JsonValue>)
    requires i < |logs|
    ensures arr + EntryObjects(logs[i..]) == arr + [EntryObject(logs[i])] + EntryObjects(logs[i + 1..])
  {
    hide EntryObject;
    assert logs[i..][1..] == logs[i + 1..];
  }

  // ---- import -----------------------------------------------------------------------------

  /** static_cast<int> of a double: the fraction is cut off. */
  function TruncToInt(x: Numeric): int {
    if x.e >= 0 then x.m * Pow10(x.e) else Signed(x.m < 0, Abs(x.m) / Pow10(-x.e))
  }

  /** objectValue.at(key).asString(), None when either throws. */
  function StringAt(ms: seq<Member>, key: string): Option<string> {
    match Lookup(ms, key)
    case Some(String(s)) => Some(s)
    case _ => None
  }

  function NumberAt(ms: seq<Member>, key: string): Option<Numeric> {
    match Lookup(ms, key)
    case Some(Number(n)) => Some(n)
    case _ => None
  }

  /** The record an element stands for; None for the elements that are skipped. */
  function EntryOf(v: JsonValue): Option<LogEntry> {
    if !v.Object? then None else
    var ts := StringAt(v.members, "ts");
    var ip := StringAt(v.members, "ip");
    var m := StringAt(v.members, "method");
    var url := StringAt(v.members, "url");
    var status := NumberAt(v.members, "status");
    if ts.None? || ip.None? || m.None? || url.None? || status.None? then None
    else Some(LogEntry(ts.value, ip.value, m.value, url.value, TruncToInt(status.value)))
  }

  function EntriesOf(items: seq<JsonValue>): seq<LogEntry> {
    if items == [] then []
    else (match EntryOf(items[0]) case Some(e) => [e] case None => []) + EntriesOf(items[1..])
  }

  /** None when the value is not an array and std::runtime_error is thrown. */
  function LogEntriesOf(v: JsonValue): Option<seq<LogEntry>> {
    if v.Array? then Some(EntriesOf(v.items)) else None
  }

  method AsLogEntries(v: JsonValue) returns (r: Option<seq<LogEntry>>)
    ensures r == LogEntriesOf(v)
  {
    hide EntryOf, EntriesOf;
    if !v.Array? {
      return None;
    }
    var entries: seq<LogEntry> := [];
    var i := 0;
    assert v.items[0..] == v.items;
    while i < |v.items|
      invariant 0 <= i <= |v.items|
      invariant entries + EntriesOf(v.items[i..]) == EntriesOf(v.items)
    {
      var entry := EntryOf(v.items[i]);
      EntriesStep(v.items, i, entries);
      if entry.Some? {
        entries := entries + [entry.value];
      }
      i := i + 1;
    }
    assert v.items[i..] == [];
    NoMoreEntries(entries);
    r := Some(entries);
  }

  lemma {:induction false} NoMoreEntries(entries: seq<LogEntry>)
    ensures entries + EntriesOf([]) == entries
  {
  }

  lemma {:induction false} EntriesStep(items: seq<JsonValue>, i: nat, entries: seq<LogEntry>)
    requires i < |items|
    ensures entries + EntriesOf(items[i..])
         == entries + (match EntryOf(items[i]) case Some(e) => [e] case None => []) + EntriesOf(items[i + 1..])
  {
    hide EntryOf;
    assert items[i..][1..] == items[i + 1..];
  }

  // ---- there and back ---------------------------------------------------------------------

  /** What the status becomes on its way through six significant digits. */
  function RoundStatus(status: int): int {
    TruncToInt(Rounded(OfInt(status)))
  }

  function RoundEntry(e: LogEntry): LogEntry {
    e.(status := RoundStatus(e.status))
  }

  function RoundEntries(logs: seq<LogEntry>): (r: seq<LogEntry>)
    ensures |r| == |logs| && forall i | 0 <= i < |logs| :: r[i] == RoundEntry(logs[i])
  {
    if logs == [] then [] else [RoundEntry(logs[0])] + RoundEntries(logs[1..])
  }

  predicate CleanEntry(e: LogEntry) {
    CleanText(e.timestamp) && CleanText(e.ip) && CleanText(e.httpMethod) && CleanText(e.url)
  }

  /** The keys in the order of the map. */
  function EntryMembers(e: LogEntry): seq<Member> {
    [Member("ip", String(e.ip)), Member("method", String(e.httpMethod)), Member("status", Number(OfInt(e.status))),
     Member("ts", String(e.timestamp)), Member("url", String(e.url))]
  }

  lemma {:induction false} KeyOrder()
    ensures Less("ip", "method") && Less("ip", "status") && Less("ip", "ts") && Less("ip", "url")
    ensures Less("method", "status") && Less("method", "ts") && Less("method", "url")
    ensures Less("status", "ts") && Less("status", "url") && Less("ts", "url")
  {
    assert Less("s", "url"[1..]) || 's' < 'u';
  }

  lemma {:induction false} EntryObjectMembers(e: LogEntry)
    ensures EntryObject(e) == Object(EntryMembers(e))
  {
    hide OfInt, Put, Less;
    KeyOrder();
    var ip, m := Member("ip", String(e.ip)), Member("method", String(e.httpMethod));
    var ts, url := Member("ts", String(e.timestamp)), Member("url", String(e.url));
    assert Put([], "ts", ts.value) == [ts] by {
      PutOne("ts", ts.value);
    }
    PutBetween([], [ts], "ip", ip.value);
    assert [] + [ip] + [ts] == [ip] + [ts] && [] + [ts] == [ts];
    PutBetween([ip], [ts], "method", m.value);
    assert [ip] + [m] + [ts] == [ip, m, ts] + [];
    PutBetween([ip, m, ts], [], "url", url.value);
    assert [ip, m, ts] + [url] + [] == [ip, m] + [ts, url];
    PutBetween([ip, m], [ts, url], "status", Number(OfInt(e.status)));
  }

  lemma {:induction false} PutOne(key: string, value: JsonValue)
    ensures Put([], key, value) == [Member(key, value)]
  {
  }

  lemma {:induction false} EntryTree(e: LogEntry)
    requires CleanEntry(e)
    ensures WellFormed(EntryObject(e)) && CleanTree(EntryObject(e))
  {
    hide OfInt, Put, Less, EntryObject;
    EntryObjectMembers(e);
    KeyOrder();
  }

  lemma {:induction false} ExportTreeClean(logs: seq<LogEntry>)
    requires forall i | 0 <= i < |logs| :: CleanEntry(logs[i])
    ensures WellFormed(ExportTree(logs)) && CleanTree(ExportTree(logs))
  {
    hide EntryObject, CleanEntry;
    if logs != [] {
      EntryTree(logs[0]);
      ExportTreeClean(logs[1..]);
    }
  }

  /** Reading back one exported object gives the entry, its status as it was written. */
  lemma {:induction false} EntryBack(e: LogEntry)
    ensures EntryOf(RoundTree(EntryObject(e))) == Some(RoundEntry(e))
  {
    hide OfInt, Put, EntryObject, Rounded, TruncToInt, Lookup;
    EntryObjectMembers(e);
    var ms := EntryMembers(e);
    var r := RoundMembers(ms);
    RoundMembersAt(ms, 0);
    RoundMembersAt(ms, 1);
    RoundMembersAt(ms, 2);
    RoundMembersAt(ms, 3);
    RoundMembersAt(ms, 4);
    LookupFive(r);
  }

  lemma {:induction false} LookupFive(r: seq<Member>)
    requires |r| == 5
    requires r[0].key == "ip" && r[1].key == "method" && r[2].key == "status" && r[3].key == "ts" && r[4].key == "url"
    ensures Lookup(r, "ip") == Some(r[0].value) && Lookup(r, "method") == Some(r[1].value)
    ensures Lookup(r, "status") == Some(r[2].value) && Lookup(r, "ts") == Some(r[3].value)
    ensures Lookup(r, "url") == Some(r[4].value)
  {
    LookupNth(r, 0);
    LookupNth(r, 1);
    LookupNth(r, 2);
    LookupNth(r, 3);
    LookupNth(r, 4);
  }

  /** The first binding of a key is the one that is found. */
  lemma {:induction false} LookupNth(ms: seq<Member>, n: nat)
    requires n < |ms| && forall i | 0 <= i < n :: ms[i].key != ms[n].key
    ensures Lookup(ms, ms[n].key) == Some(ms[n].value)
  {
    if n > 0 {
      LookupNth(ms[1..], n - 1);
    }
  }

  lemma {:induction false} EntriesBack(logs: seq<LogEntry>)
    ensures EntriesOf(RoundItems(EntryObjects(logs))) == RoundEntries(logs)
  {
    hide EntryOf, EntryObject, RoundTree;
    if logs != [] {
      EntryBack(logs[0]);
      EntriesBack(logs[1..]);
      var objects := EntryObjects(logs);
      assert objects[0] == EntryObject(logs[0]) && objects[1..] == EntryObjects(logs[1..]);
      assert RoundItems(objects)[0] == RoundTree(objects[0]) && RoundItems(objects)[1..] == RoundItems(objects[1..]);
    }
  }

  /** The text exportToJson writes; saveToFile prints it pretty. */
  function ExportText(logs: seq<LogEntry>): string {
    ToText(ExportTree(logs), true)
  }

  /** Parsing a text and reading the log entries in it. */
  function ImportText(s: string): Option<seq<LogEntry>> {
    match Parse(s)
    case Ok(v, _) => LogEntriesOf(v)
    case Err(_, _) => None
  }

  lemma {:induction false} ExportImportRounds(logs: seq<LogEntry>)
    requires forall i | 0 <= i < |logs| :: CleanEntry(logs[i])
    ensures ImportText(ExportText(logs)) == Some(RoundEntries(logs))
  {
    hide Parse, ToText, WellFormed, CleanTree;
    ExportTreeClean(logs);
    ParsePrinted(ExportTree(logs), true);
    EntriesBack(logs);
  }

  // ---- which statuses survive ---------------------------------------------------------------

  lemma {:induction false} IntegerBack(x: Numeric)
    requires x.e >= 0
    ensures OfInt(TruncToInt(x)) == x
  {
    NormShift(x.m, x.e, 0);
    NormOfNormal(x);
  }

  lemma {:induction false} NormIntegral(m: int, e: nat)
    ensures Norm(m, e).e >= 0
  {
    NormValue(m, e);
  }

  lemma {:induction false} OfIntIntegral(n: int)
    ensures OfInt(n).e >= 0 && Rounded(OfInt(n)).e >= 0 && TruncToInt(OfInt(n)) == n
  {
    hide Norm, NatText, RoundHalfEven, Pow10;
    NormIntegral(n, 0);
    NormValue(n, 0);
    NormZero(0);
    var x := OfInt(n);
    var cut := |NatText(Abs(x.m))| - 6;
    if cut > 0 {
      NormIntegral(Signed(x.m < 0, RoundHalfEven(Abs(x.m), Pow10(cut))), x.e + cut);
    }
  }

  /** A status survives exactly when it has at most six significant digits. */
  lemma {:induction false} StatusBack(n: int)
    ensures RoundStatus(n) == n <==> SixDigits(OfInt(n))
  {
    hide Rounded, Norm, TruncToInt;
    OfIntIntegral(n);
    IntegerBack(Rounded(OfInt(n)));
    RoundedFixed(OfInt(n));
  }

  lemma {:induction false} SmallStatus(n: int)
    requires -1000000 < n < 1000000
    ensures RoundStatus(n) == n
  {
    NormShrinks(n, 0);
    StatusBack(n);
  }

  /** Exporting and importing gives back the same list, in order and with duplicates, exactly when
      every status has at most six significant digits. */
  lemma {:induction false} ExportImport(logs: seq<LogEntry>)
    requires forall i | 0 <= i < |logs| :: CleanEntry(logs[i])
    ensures ImportText(ExportText(logs)) == Some(logs)
            <==> forall i | 0 <= i < |logs| :: SixDigits(OfInt(logs[i].status))
  {
    hide ImportText, ExportText, CleanEntry, RoundStatus, RoundEntries, SixDigits, OfInt;
    ExportImportRounds(logs);
    forall i | 0 <= i < |logs| ensures RoundEntry(logs[i]) == logs[i] <==> SixDigits(OfInt(logs[i].status)) {
      StatusBack(logs[i].status);
    }
    if RoundEntries(logs) == logs {
      forall i | 0 <= i < |logs| ensures SixDigits(OfInt(logs[i].status)) {
        assert RoundEntries(logs)[i] == RoundEntry(logs[i]);
      }
    }
  }

  /** A valid list whose urls are clean survives whatever its size. */
  lemma {:induction false} ValidExportImport(logs: seq<LogEntry>)
    requires forall i | 0 <= i < |logs| :: ValidEntry(logs[i]) && CleanText(logs[i].url)
    ensures ImportText(ExportText(logs)) == Some(logs)
  {
    hide ImportText, ExportText, RoundStatus, SixDigits, OfInt, ValidTimestamp, ValidIP, ValidMethod;
    forall i | 0 <= i < |logs| ensures CleanEntry(logs[i]) && SixDigits(OfInt(logs[i].status)) {
      ValidFieldsPlain(logs[i]);
      SmallStatus(logs[i].status);
      StatusBack(logs[i].status);
    }
    ExportImport(logs);
  }
}
