/** The text exportToCSV writes and a reader for it. */
module Csv {
  // The reader is that of section 2 of RFC 4180 with line feed as the line break.

  import opened Text
  import opened Decimal
  import opened LogEntries

  // ---- writing ----------------------------------------------------------------------------

  const HEADER := "timestamp,ip,method,url,status\n"

  function LineText(e: LogEntry): string {
    e.timestamp + "," + e.ip + "," + e.httpMethod + "," + "\"" + e.url + "\"," + IntText(e.status) + "\n"
  }

  function LinesText(logs: seq<LogEntry>): string {
    if logs == [] then "" else LineText(logs[0]) + LinesText(logs[1..])
  }

  function CsvText(logs: seq<LogEntry>): string {
    HEADER + LinesText(logs)
  }

  method ExportToCsv(logs: seq<LogEntry>) returns (file: string)
    ensures file == CsvText(logs)
  {
    file := "timestamp,ip,method,url,status\n";
    var i := 0;
    assert logs[0..] == logs;
    while i < |logs|
      invariant 0 <= i <= |logs|
      invariant file + LinesText(logs[i..]) == CsvText(logs)
    {
      ghost var before := file;
      file := file + LineText(logs[i]);
      LinesStep(logs, i, before);
      i := i + 1;
    }
    assert file + LinesText([]) == file;
  }

  lemma {:induction false} LinesStep(logs: seq<LogEntry>, i: nat, before: string)
    requires i < |logs|
    ensures before + LinesText(logs[i..]) == before + LineText(logs[i]) + LinesText(logs[i + 1..])
  {
    hide LineText;
    assert logs[i..][1..] == logs[i + 1..];
  }

  // ---- reading ----------------------------------------------------------------------------

  /** Not allowed in a field without quotes. */
  predicate Special(c: char) {
    c == ',' || c == '\"' || c == '\n' || c == '\r'
  }

  datatype Read<T> = Got(value: T, pos: nat) | Malformed

  function ReadPlain(t: string, pos: nat, field: string): (r: Read<string>)
    requires pos <= |t|
    ensures r.Got? ==> pos <= r.pos <= |t|
    decreases |t| - pos
  {
    if pos < |t| && !Special(t[pos]) then ReadPlain(t, pos + 1, field + [t[pos]]) else Got(field, pos)
  }

  /** Behind the opening quote; two quotes stand for one. */
  function ReadQuoted(t: string, pos: nat, field: string): (r: Read<string>)
    requires pos <= |t|
    ensures r.Got? ==> pos < r.pos <= |t|
    decreases |t| - pos
  {
    if pos >= |t| then Malformed
    else if t[pos] != '\"' then ReadQuoted(t, pos + 1, field + [t[pos]])
    else if pos + 1 < |t| && t[pos + 1] == '\"' then ReadQuoted(t, pos + 2, field + "\"")
    else Got(field, pos + 1)
  }

  function ReadField(t: string, pos: nat): (r: Read<string>)
    requires pos <= |t|
    ensures r.Got? ==> pos <= r.pos <= |t|
  {
    if pos < |t| && t[pos] == '\"' then ReadQuoted(t, pos + 1, "") else ReadPlain(t, pos, "")
  }

  /** Fields between commas up to a line break or the end. */
  function ReadRecord(t: string, pos: nat, fields: seq<string>): (r: Read<seq<string>>)
    requires pos <= |t|
    ensures r.Got? ==> pos <= r.pos <= |t| && (pos < |t| ==> pos < r.pos)
    decreases |t| - pos
  {
    match ReadField(t, pos)
    case Malformed => Malformed
    case Got(f, q) =>
      if q == |t| then Got(fields + [f], q)
      else if t[q] == '\n' then Got(fields + [f], q + 1)
      else if t[q] == ',' then ReadRecord(t, q + 1, fields + [f])
      else Malformed
  }

  /** The records of the rest of the text; the last line break is optional. */
  function ReadRecords(t: string, pos: nat): Option<seq<seq<string>>>
    requires pos <= |t|
    decreases |t| - pos
  {
    if pos == |t| then Some([]) else
    match ReadRecord(t, pos, [])
    case Malformed => None
    case Got(r, q) =>
      match ReadRecords(t, q)
      case None => None
      case Some(rs) => Some([r] + rs)
  }

  function ReadCsv(t: string): Option<seq<seq<string>>> {
    ReadRecords(t, 0)
  }

  // ---- what is meant ----------------------------------------------------------------------

  function Row(e: LogEntry): seq<string> {
    [e.timestamp, e.ip, e.httpMethod, e.url, IntText(e.status)]
  }

  function Rows(logs: seq<LogEntry>): seq<seq<string>> {
    if logs == [] then [] else [Row(logs[0])] + Rows(logs[1..])
  }

  const HEADER_ROW: seq<string> := ["timestamp", "ip", "method", "url", "status"]

  predicate NoQuote(s: string) {
    forall i | 0 <= i < |s| :: s[i] != '\"'
  }

  predicate NoSpecial(s: string) {
    forall i | 0 <= i < |s| :: !Special(s[i])
  }

  // ---- single fields ----------------------------------------------------------------------

  lemma {:induction false} PlainOver(t: string, pos: nat, w: string, i: nat, field: string)
    requires i <= |w| && RestAt(t, pos, w, i) && NoSpecial(w)
    requires pos + |w| - i < |t| && Special(t[pos + |w| - i])
    ensures ReadPlain(t, pos, field) == Got(field + w[i..], pos + |w| - i)
    decreases |w| - i
  {
    if i < |w| {
      PlainOver(t, pos + 1, w, i + 1, field + [w[i]]);
      assert field + w[i..] == field + [w[i]] + w[i + 1..];
    } else {
      assert field + w[i..] == field;
    }
  }

  lemma {:induction false} PlainField(t: string, pos: nat, w: string)
    requires At(t, pos, w) && NoSpecial(w)
    requires pos + |w| < |t| && (t[pos + |w|] == ',' || t[pos + |w|] == '\n')
    ensures ReadField(t, pos) == Got(w, pos + |w|)
  {
    PlainOver(t, pos, w, 0, "");
    assert "" + w[0..] == w;
    if w != "" {
      AtIndex(t, pos, w, 0);
    }
  }

  lemma {:induction false} QuotedOver(t: string, pos: nat, w: string, i: nat, field: string)
    requires i <= |w| && RestAt(t, pos, w, i) && NoQuote(w)
    requires pos + |w| - i + 1 < |t| && t[pos + |w| - i] == '\"' && t[pos + |w| - i + 1] == ','
    ensures ReadQuoted(t, pos, field) == Got(field + w[i..], pos + |w| - i + 1)
    decreases |w| - i
  {
    if i < |w| {
      QuotedOver(t, pos + 1, w, i + 1, field + [w[i]]);
      assert field + w[i..] == field + [w[i]] + w[i + 1..];
    } else {
      assert field + w[i..] == field;
    }
  }

  /** A character once read stays in the field. */
  lemma {:induction false} ReadQuotedKeeps(t: string, pos: nat, field: string)
    requires pos <= |t| && ReadQuoted(t, pos, field).Got?
    ensures field <= ReadQuoted(t, pos, field).value
    decreases |t| - pos
  {
    if t[pos] != '\"' {
      ReadQuotedKeeps(t, pos + 1, field + [t[pos]]);
    } else if pos + 1 < |t| && t[pos + 1] == '\"' {
      ReadQuotedKeeps(t, pos + 2, field + "\"");
    }
  }

  /** Once the reader has taken a quote of the text b for one that opens a field or stands for another
      it is ahead of the field it should return: it is at index j of b and still owes w from k < j on,
      of which the part it has passed is all quotes. It can never catch up. */
  lemma {:induction false} NeverCatchesUp(t: string, base: nat, b: string, w: string, k: nat, j: nat, field: string)
    requires At(t, base, b) && base + |b| < |t| && t[base + |b|] == ','
    requires w <= b && |b| <= |w| + 1 && k < j <= |b| && k <= |w|
    requires forall i | k <= i < j :: b[i] == '\"'
    ensures var r := ReadQuoted(t, base + j, field); r.Got? ==> r.value != field + w[k..]
    decreases |b| - j
  {
    var p := base + j;
    if j < |b| {
      AtIndex(t, base, b, j);
    }
    if j + 1 < |b| {
      AtIndex(t, base, b, j + 1);
    }
    if t[p] != '\"' {
      if ReadQuoted(t, p, field).Got? {
        ReadQuotedKeeps(t, p + 1, field + [t[p]]);
        assert k < |w| ==> (field + w[k..])[|field|] == b[k] == '\"';
      }
    } else if t[p + 1] == '\"' {
      NeverCatchesUp(t, base, b, w, k + 1, j + 2, field + "\"");
      assert field + w[k..] == field + "\"" + w[k + 1..];
    } else {
      assert |field + w[k..]| > |field|;
    }
  }

  /** w stands at base, followed by a quote and a comma. */
  ghost predicate QuotedAt(t: string, base: nat, w: string) {
    At(t, base, w + "\"") && base + |w| + 1 < |t| && t[base + |w| + 1] == ','
  }

  lemma {:induction false} QuotedBack(t: string, base: nat, w: string, i: nat, field: string)
    requires QuotedAt(t, base, w) && i <= |w| && (forall j | 0 <= j < i :: w[j] != '\"')
    requires field == w[..i]
    ensures var r := ReadQuoted(t, base + i, field); r.Got? && r.value == w ==> NoQuote(w)
    decreases |w| - i
  {
    hide At;
    if i < |w| {
      var b := w + "\"";
      AtIndex(t, base, b, i);
      AtIndex(t, base, b, i + 1);
      if w[i] != '\"' {
        assert w[..i + 1] == w[..i] + [w[i]];
        QuotedBack(t, base, w, i + 1, field + [w[i]]);
      } else if t[base + i + 1] == '\"' {
        NeverCatchesUp(t, base, b, w, i + 1, i + 2, field + "\"");
        assert field + "\"" + w[i + 1..] == w;
      }
    }
  }

  /** A quoted field is read back exactly when it holds no quote. */
  lemma {:induction false} QuotedField(t: string, base: nat, w: string)
    requires QuotedAt(t, base, w)
    ensures NoQuote(w) ==> ReadQuoted(t, base, "") == Got(w, base + |w| + 1)
    ensures ReadQuoted(t, base, "").Got? && ReadQuoted(t, base, "").value == w ==> NoQuote(w)
  {
    AtConcat(t, base, w, "\"");
    AtIndex(t, base + |w|, "\"", 0);
    if NoQuote(w) {
      QuotedOver(t, base, w, 0, "");
      assert "" + w[0..] == w;
    } else {
      QuotedBack(t, base, w, 0, "");
    }
  }

  /** What the reader of an unquoted field returns is the text it passed, free of special characters. */
  lemma {:induction false} PlainPassed(t: string, pos: nat, field: string)
    requires pos <= |t|
    ensures var r := ReadPlain(t, pos, field);
            r.Got? && r.value == field + t[pos..r.pos] && NoSpecial(t[pos..r.pos])
    decreases |t| - pos
  {
    if pos < |t| && !Special(t[pos]) {
      PlainPassed(t, pos + 1, field + [t[pos]]);
      var q := ReadPlain(t, pos, field).pos;
      assert t[pos..q] == [t[pos]] + t[pos + 1..q];
    }
  }

  /** A field written without quotes is read back, up to the comma behind it, exactly when it holds
      nothing special. */
  lemma {:induction false} UnquotedField(t: string, pos: nat, w: string)
    requires At(t, pos, w) && pos + |w| < |t| && t[pos + |w|] == ','
    ensures NoSpecial(w) ==> ReadField(t, pos) == Got(w, pos + |w|)
    ensures ReadField(t, pos).Got? && ReadField(t, pos).value == w ==> NoSpecial(w)
  {
    hide At, ReadPlain, ReadQuoted, NoSpecial;
    if NoSpecial(w) {
      PlainField(t, pos, w);
    } else {
      UnquotedBack(t, pos, w);
    }
  }

  lemma {:induction false} UnquotedBack(t: string, pos: nat, w: string)
    requires At(t, pos, w) && pos + |w| < |t| && t[pos + |w|] == ','
    ensures ReadField(t, pos).Got? && ReadField(t, pos).value == w ==> NoSpecial(w)
  {
    hide At, ReadPlain, ReadQuoted, NoSpecial;
    if w != "" {
      AtIndex(t, pos, w, 0);
    }
    if t[pos] == '\"' {
      NeverCatchesUp(t, pos, w, w, 0, 1, "");
      assert "" + w[0..] == w;
    } else {
      PlainPassed(t, pos, "");
      assert "" + t[pos..ReadPlain(t, pos, "").pos] == t[pos..ReadPlain(t, pos, "").pos];
    }
  }

  // ---- records ------------------------------------------------------------------------------

  lemma {:induction false} IntTextPlain(n: int)
    ensures NoSpecial(IntText(n))
  {
  }

  lemma {:induction false} PlainIsNotSpecial(w: string)
    requires PlainText(w)
    ensures NoSpecial(w)
  {
  }

  /** Where the parts of a written line stand. */
  lemma {:induction false} LineParts(t: string, pos: nat, a: string, b: string, c: string, u: string,
                                     d: string, rest: string)
    requires At(t, pos, (a + "," + b + "," + c + "," + "\"" + u + "\"," + d + "\n") + rest)
    ensures var p1 := pos + |a|;
            var p2 := p1 + 1 + |b|;
            var p3 := p2 + 1 + |c|;
            var p4 := p3 + 2 + |u|;
            var p5 := p4 + 2 + |d|;
            && At(t, pos, a) && At(t, p1 + 1, b) && At(t, p2 + 1, c) && At(t, p3 + 2, u + "\"") && At(t, p4 + 2, d)
            && p5 < |t| && t[p1] == ',' && t[p2] == ',' && t[p3] == ',' && t[p3 + 1] == '\"'
            && t[p4 + 1] == ',' && t[p5] == '\n' && At(t, p5 + 1, rest)
  {
    var s1 := a + ",";
    var s2 := s1 + b + ",";
    var s3 := s2 + c + ",";
    var s4 := s3 + "\"" + u + "\",";
    AtConcat(t, pos, s4 + d + "\n", rest);
    AtConcat(t, pos, s4 + d, "\n");
    AtConcat(t, pos, s4, d);
    assert s4 == s3 + "\"" + (u + "\"") + ",";
    AtConcat(t, pos, s3 + "\"" + (u + "\""), ",");
    AtConcat(t, pos, s3 + "\"", u + "\"");
    AtConcat(t, pos, s3, "\"");
    AtConcat(t, pos, s2 + c, ",");
    AtConcat(t, pos, s2, c);
    AtConcat(t, pos, s1 + b, ",");
    AtConcat(t, pos, s1, b);
    AtConcat(t, pos, a, ",");
  }

  /** One step of the reader over a field that ends at a comma. */
  lemma {:induction false} RecordStep(t: string, pos: nat, fields: seq<string>, f: string, q: nat)
    requires pos <= |t| && ReadField(t, pos) == Got(f, q) && q < |t| && t[q] == ','
    ensures ReadRecord(t, pos, fields) == ReadRecord(t, q + 1, fields + [f])
  {
  }

  lemma {:induction false} RecordEnd(t: string, pos: nat, fields: seq<string>, f: string, q: nat)
    requires pos <= |t| && ReadField(t, pos) == Got(f, q) && q < |t| && t[q] == '\n'
    ensures ReadRecord(t, pos, fields) == Got(fields + [f], q + 1)
  {
  }

  /** The fields read so far stay in front. */
  lemma {:induction false} RecordKeeps(t: string, pos: nat, fields: seq<string>)
    requires pos <= |t| && ReadRecord(t, pos, fields).Got?
    ensures fields <= ReadRecord(t, pos, fields).value
    decreases |t| - pos
  {
    var f := ReadField(t, pos);
    if f.pos < |t| && t[f.pos] == ',' {
      RecordKeeps(t, f.pos + 1, fields + [f.value]);
    }
  }

  /** The next field of a record is the one the field reader finds. */
  lemma {:induction false} RecordNext(t: string, pos: nat, fields: seq<string>)
    requires pos <= |t| && ReadRecord(t, pos, fields).Got?
    ensures var row, f := ReadRecord(t, pos, fields).value, ReadField(t, pos);
            f.Got? && |row| > |fields| && row[|fields|] == f.value
  {
    hide ReadField;
    var f := ReadField(t, pos);
    if f.pos < |t| && t[f.pos] == ',' {
      RecordKeeps(t, f.pos + 1, fields + [f.value]);
    }
  }

  /** A field before a comma comes back, and the record goes on behind it, only if it holds nothing special. */
  lemma {:induction false} FieldBack(t: string, pos: nat, fields: seq<string>, w: string)
    requires At(t, pos, w) && pos + |w| < |t| && t[pos + |w|] == ','
    ensures NoSpecial(w) ==> ReadRecord(t, pos, fields) == ReadRecord(t, pos + |w| + 1, fields + [w])
    ensures var r := ReadRecord(t, pos, fields);
            r.Got? && |r.value| > |fields| && r.value[|fields|] == w ==> NoSpecial(w)
  {
    hide ReadRecord, ReadField, At, NoSpecial;
    UnquotedField(t, pos, w);
    if NoSpecial(w) {
      RecordStep(t, pos, fields, w, pos + |w|);
    }
    if ReadRecord(t, pos, fields).Got? {
      RecordNext(t, pos, fields);
    }
  }

  /** The records that can be read back: nothing special in the fields written without quotes, no
      quote in the one written with them. */
  ghost predicate CsvClean(e: LogEntry) {
    NoSpecial(e.timestamp) && NoSpecial(e.ip) && NoSpecial(e.httpMethod) && NoQuote(e.url)
  }

  /** A written line is read back as its row exactly when the record is clean. */
  lemma {:induction false} LineBack(t: string, pos: nat, e: LogEntry, rest: string)
    requires At(t, pos, LineText(e) + rest)
    ensures pos + |LineText(e)| <= |t| && At(t, pos + |LineText(e)|, rest)
    ensures CsvClean(e) ==> ReadRecord(t, pos, []) == Got(Row(e), pos + |LineText(e)|)
    ensures ReadRecord(t, pos, []).Got? && ReadRecord(t, pos, []).value == Row(e) ==> CsvClean(e)
  {
    hide ReadRecord, ReadField, ReadQuoted, At, IntText, NoSpecial, NoQuote;
    var d := IntText(e.status);
    LineParts(t, pos, e.timestamp, e.ip, e.httpMethod, e.url, d, rest);
    var p1 := pos + |e.timestamp|;
    var p2 := p1 + 1 + |e.ip|;
    var p3 := p2 + 1 + |e.httpMethod|;
    var three := [e.timestamp, e.ip, e.httpMethod];
    FieldBack(t, pos, [], e.timestamp);
    FieldBack(t, p1 + 1, [e.timestamp], e.ip);
    FieldBack(t, p2 + 1, [e.timestamp, e.ip], e.httpMethod);
    assert [] + [e.timestamp] == [e.timestamp] && [e.timestamp] + [e.ip] == [e.timestamp, e.ip];
    assert [e.timestamp, e.ip] + [e.httpMethod] == three;
    UrlBack(t, p3 + 1, three, e.url, d);
    assert three + [e.url] + [d] == Row(e);
  }

  /** The url between its quotes and the status behind it. */
  lemma {:induction false} UrlBack(t: string, pos: nat, fields: seq<string>, url: string, d: string)
    requires pos + |url| + 2 < |t| && t[pos] == '\"' && At(t, pos + 1, url + "\"") && t[pos + |url| + 2] == ','
    requires exists n :: d == IntText(n)
    requires var q := pos + |url| + 3; At(t, q, d) && q + |d| < |t| && t[q + |d|] == '\n'
    ensures NoQuote(url) ==>
              ReadRecord(t, pos, fields) == Got(fields + [url] + [d], pos + |url| + 3 + |d| + 1)
    ensures var r := ReadRecord(t, pos, fields);
            r.Got? && |r.value| > |fields| && r.value[|fields|] == url ==> NoQuote(url)
  {
    hide ReadRecord, ReadField, ReadQuoted, At, IntText, NoSpecial, NoQuote;
    var q := pos + |url| + 3;
    QuotedField(t, pos + 1, url);
    QuotedIsField(t, pos);
    if NoQuote(url) {
      RecordStep(t, pos, fields, url, q - 1);
      var n :| d == IntText(n);
      IntTextPlain(n);
      PlainField(t, q, d);
      RecordEnd(t, q, fields + [url], d, q + |d|);
    }
    if ReadRecord(t, pos, fields).Got? {
      RecordNext(t, pos, fields);
    }
  }

  lemma {:induction false} QuotedIsField(t: string, pos: nat)
    requires pos < |t| && t[pos] == '\"'
    ensures ReadField(t, pos) == ReadQuoted(t, pos + 1, "")
  {
  }

  // ---- whole files --------------------------------------------------------------------------

  lemma {:induction false} LinesBack(t: string, pos: nat, logs: seq<LogEntry>)
    requires At(t, pos, LinesText(logs)) && pos + |LinesText(logs)| == |t|
    ensures ReadRecords(t, pos) == Some(Rows(logs)) <==> forall i | 0 <= i < |logs| :: CsvClean(logs[i])
    decreases |logs|
  {
    hide ReadRecord, At, LineText, Row, CsvClean;
    if logs != [] {
      var line := LineText(logs[0]);
      LineNotEmpty(logs[0]);
      LineBack(t, pos, logs[0], LinesText(logs[1..]));
      assert Rows(logs)[0] == Row(logs[0]) && Rows(logs)[1..] == Rows(logs[1..]);
      if CsvClean(logs[0]) {
        LinesBack(t, pos + |line|, logs[1..]);
        RecordsStep(t, pos, Row(logs[0]), pos + |line|, Rows(logs));
      } else {
        RecordsFirst(t, pos, Rows(logs));
      }
    }
  }

  lemma {:induction false} LineNotEmpty(e: LogEntry)
    ensures |LineText(e)| > 0
  {
  }

  lemma {:induction false} RecordsStep(t: string, pos: nat, row: seq<string>, q: nat, rows: seq<seq<string>>)
    requires pos < |t| && ReadRecord(t, pos, []) == Got(row, q) && rows != [] && rows[0] == row
    ensures ReadRecords(t, pos) == Some(rows) <==> ReadRecords(t, q) == Some(rows[1..])
  {
    hide ReadRecord;
    assert rows == [row] + rows[1..];
    if ReadRecords(t, q).Some? {
      assert ([row] + ReadRecords(t, q).value)[1..] == ReadRecords(t, q).value;
    }
  }

  lemma {:induction false} RecordsFirst(t: string, pos: nat, rows: seq<seq<string>>)
    requires pos < |t| && rows != []
    ensures ReadRecords(t, pos) == Some(rows) ==> ReadRecord(t, pos, []).Got? && ReadRecord(t, pos, []).value == rows[0]
  {
    hide ReadRecord;
  }

  lemma {:induction false} HeaderBack(t: string, rest: string)
    requires At(t, 0, HEADER + rest)
    ensures |HEADER| <= |t| && At(t, |HEADER|, rest) && ReadRecord(t, 0, []) == Got(HEADER_ROW, |HEADER|)
  {
    hide ReadRecord, ReadField, At, NoSpecial;
    var s1 := "timestamp" + ",";
    var s2 := s1 + "ip" + ",";
    var s3 := s2 + "method" + ",";
    var s4 := s3 + "url" + ",";
    assert HEADER == s4 + "status" + "\n";
    AtConcat(t, 0, s4 + "status" + "\n", rest);
    AtConcat(t, 0, s4 + "status", "\n");
    AtConcat(t, 0, s4, "status");
    AtConcat(t, 0, s3 + "url", ",");
    AtConcat(t, 0, s3, "url");
    AtConcat(t, 0, s2 + "method", ",");
    AtConcat(t, 0, s2, "method");
    AtConcat(t, 0, s1 + "ip", ",");
    AtConcat(t, 0, s1, "ip");
    AtConcat(t, 0, "timestamp", ",");
    Marks(t);
    HeaderPlain();
    FieldBack(t, 0, [], "timestamp");
    FieldBack(t, 10, ["timestamp"], "ip");
    FieldBack(t, 13, ["timestamp", "ip"], "method");
    assert [] + ["timestamp"] == ["timestamp"] && ["timestamp"] + ["ip"] == ["timestamp", "ip"];
    assert ["timestamp", "ip"] + ["method"] == ["timestamp", "ip", "method"];
    PlainField(t, 20, "url");
    RecordStep(t, 20, ["timestamp", "ip", "method"], "url", 23);
    PlainField(t, 24, "status");
    RecordEnd(t, 24, ["timestamp", "ip", "method"] + ["url"], "status", 30);
    assert ["timestamp", "ip", "method"] + ["url"] + ["status"] == HEADER_ROW;
  }

  lemma {:induction false} Marks(t: string)
    requires At(t, 9, ",") && At(t, 12, ",") && At(t, 19, ",") && At(t, 23, ",") && At(t, 30, "\n")
    ensures |t| > 30 && t[9] == ',' && t[12] == ',' && t[19] == ',' && t[23] == ',' && t[30] == '\n'
  {
    AtIndex(t, 9, ",", 0);
    AtIndex(t, 12, ",", 0);
    AtIndex(t, 19, ",", 0);
    AtIndex(t, 23, ",", 0);
    AtIndex(t, 30, "\n", 0);
  }

  lemma {:induction false} HeaderPlain()
    ensures NoSpecial("timestamp") && NoSpecial("ip") && NoSpecial("method") && NoSpecial("url") && NoSpecial("status")
  {
  }

  /** No comma, quote, line feed or carriage return. */
  predicate Safe(t: string) {
    forall i | 0 <= i < |t| :: t[i] as int !in {0x2C, 0x22, 0x0A, 0x0D}
  }

  /** The three fields written without quotes are safe, and the url holds no quote. */
  predicate SafeRecord(e: LogEntry) {
    Safe(e.timestamp) && Safe(e.ip) && Safe(e.httpMethod) && forall i | 0 <= i < |e.url| :: e.url[i] as int != 0x22
  }

  lemma {:induction false} SafeClean(e: LogEntry)
    ensures SafeRecord(e) <==> CsvClean(e)
  {
    forall c: char ensures c as int in {0x2C, 0x22, 0x0A, 0x0D} <==> Special(c) {
    }
  }

  /** Every list whatsoever: the file is read back as the header and exactly the rows, in order,
      whatever commas and line breaks the urls hold, if and only if all records are safe. */
  lemma {:induction false} CsvBack(logs: seq<LogEntry>)
    ensures ReadCsv(CsvText(logs)) == Some([HEADER_ROW] + Rows(logs))
            <==> forall i | 0 <= i < |logs| :: SafeRecord(logs[i])
  {
    hide ReadRecord, At, LinesText, CsvClean, Rows, SafeRecord;
    var t := CsvText(logs);
    assert At(t, 0, HEADER + LinesText(logs)) by {
      AtIsSlice(t, 0, t);
    }
    HeaderBack(t, LinesText(logs));
    LinesBack(t, |HEADER|, logs);
    var rows := [HEADER_ROW] + Rows(logs);
    RecordsStep(t, 0, HEADER_ROW, |HEADER|, rows);
    assert rows[1..] == Rows(logs);
    forall i | 0 <= i < |logs| ensures SafeRecord(logs[i]) <==> CsvClean(logs[i]) {
      SafeClean(logs[i]);
    }
  }

  /** For valid records only the url is in question. */
  lemma {:induction false} ValidCsvBack(logs: seq<LogEntry>)
    requires forall i | 0 <= i < |logs| :: ValidEntry(logs[i])
    ensures ReadCsv(CsvText(logs)) == Some([HEADER_ROW] + Rows(logs))
            <==> forall i | 0 <= i < |logs| :: NoQuote(logs[i].url)
  {
    hide ReadCsv, CsvText, Rows, ValidEntry, NoQuote, NoSpecial, PlainText, SafeRecord;
    CsvBack(logs);
    forall i | 0 <= i < |logs| ensures SafeRecord(logs[i]) <==> NoQuote(logs[i].url) {
      SafeClean(logs[i]);
      ValidFieldsPlain(logs[i]);
      PlainIsNotSpecial(logs[i].timestamp);
      PlainIsNotSpecial(logs[i].ip);
      PlainIsNotSpecial(logs[i].httpMethod);
    }
  }
}
