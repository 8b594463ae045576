module Analyzer {
  // LogAnalyzer: a log list with cached indexes, its rankings, filters, distributions and exports.

  import opened Counting
  import opened JsonTree
  import opened LogEntries
  import opened LogJson
  import opened JsonPrinter
  import opened Ranking
  import opened Queries
  import TimeRanges
  import Csv
  import opened Cache

  class LogAnalyzer {
    var logs: seq<LogEntry>
    var ipIndex: Index
    var urlIndex: Index
    var timeIndex: Index
    var indexesBuilt: bool

    ghost function Abs(): State
      reads this
    {
      State(logs, ipIndex, urlIndex, timeIndex, indexesBuilt)
    }

    constructor (entries: seq<LogEntry>)
      ensures Abs() == New(entries)
    {
      logs := entries;
      ipIndex, urlIndex, timeIndex := map[], map[], map[];
      indexesBuilt := false;
    }

    /** A failed load, of a value that is no array, changes nothing. */
    method LoadFromJson(json: JsonValue) returns (ok: bool)
      modifies this
      ensures Abs() == Step(old(Abs()), Load(json))
      ensures ok <==> json.Array?
    {
      var entries := AsLogEntries(json);
      if entries.None? {
        return false;
      }
      logs := entries.value;
      indexesBuilt := false;
      ok := true;
    }

    method AddLog(entry: LogEntry)
      modifies this
      ensures Abs() == Step(old(Abs()), Add(entry))
    {
      logs := logs + [entry];
    }

    method ClearLogs()
      modifies this
      ensures Abs() == Step(old(Abs()), Clear)
    {
      logs := [];
    }

    method EnsureIndexesBuilt()
      modifies this
      ensures Abs() == Build(old(Abs()))
    {
      if indexesBuilt {
        return;
      }
      ipIndex, urlIndex, timeIndex := map[], map[], map[];
      ghost var ips, urls, times := Map(logs, Ip), Map(logs, Url), Map(logs, Time);
      var i := 0;
      while i < |logs|
        invariant 0 <= i <= |logs| && logs == old(logs) && indexesBuilt == old(indexesBuilt)
        invariant ipIndex == IndexOf(ips[..i]) && urlIndex == IndexOf(urls[..i]) && timeIndex == IndexOf(times[..i])
      {
        PushStep(ips, i);
        PushStep(urls, i);
        PushStep(times, i);
        ipIndex := Push(ipIndex, logs[i].ip, i);
        urlIndex := Push(urlIndex, logs[i].url, i);
        timeIndex := Push(timeIndex, logs[i].timestamp, i);
        i := i + 1;
      }
      assert ips[..i] == ips && urls[..i] == urls && times[..i] == times;
      indexesBuilt := true;
    }

    /** The ranking is that of the current logs, whatever the state of the cache. */
    method GetTopIPs(n: int) returns (r: seq<Entry>)
      modifies this
      ensures Abs() == Step(old(Abs()), Ask(TopIPs(n)))
      ensures Answers(old(logs), TopIPs(n), Ranked(r))
    {
      EnsureIndexesBuilt();
      r := TopKeys(Map(logs, Ip), n);
    }

    method GetTopURLs(n: int) returns (r: seq<Entry>)
      modifies this
      ensures Abs() == Step(old(Abs()), Ask(TopURLs(n)))
      ensures Answers(old(logs), TopURLs(n), Ranked(r))
    {
      EnsureIndexesBuilt();
      r := TopKeys(Map(logs, Url), n);
    }

    // ---- filters ----------------------------------------------------------------------------

    function FilterByStatus(status: int): (r: seq<LogEntry>)
      reads this
      ensures Answers(logs, ByStatus(status), Selected(r))
    {
      Filter(logs, KeyIs(Status, status))
    }

    function FilterByMethod(name: string): (r: seq<LogEntry>)
      reads this
      ensures Answers(logs, ByMethod(name), Selected(r))
    {
      Filter(logs, KeyIs(UpperMethod, Upper(name)))
    }

    function FilterByIP(ip: string): (r: seq<LogEntry>)
      reads this
      ensures Answers(logs, ByIP(ip), Selected(r))
    {
      Filter(logs, KeyIs(Ip, ip))
    }

    function FilterByTimeRange(start: string, end: string): (r: seq<LogEntry>)
      reads this
      ensures Answers(logs, ByTimeRange(start, end), Selected(r))
    {
      TimeRanges.FilterByTimeRange(logs, start, end)
    }

    function FindFailedRequests(threshold: int): (r: seq<LogEntry>)
      reads this
      ensures Answers(logs, Failed(threshold), Selected(r))
    {
      Filter(logs, StatusAtLeast(threshold))
    }

    // ---- statistics -------------------------------------------------------------------------

    method GetTimeRange() returns (lo: string, hi: string)
      ensures Answers(logs, WholeRange, Ranged(lo, hi))
      ensures FilterByTimeRange(lo, hi) == logs
    {
      lo, hi := TimeRanges.TimeRange(logs);
      TimeRanges.OwnRangeKeepsAll(logs, lo, hi);
    }

    method GetStatusDistribution() returns (distribution: map<int, nat>)
      ensures Answers(logs, StatusDistribution, StatusCounts(distribution))
    {
      distribution := CountKeys(Map(logs, Status));
    }

    method GetMethodDistribution() returns (distribution: map<string, nat>)
      ensures Answers(logs, MethodDistribution, MethodCounts(distribution))
    {
      distribution := CountKeys(Map(logs, Method));
    }

    method FindSuspiciousIPs(threshold: int) returns (r: seq<string>)
      ensures Answers(logs, Suspicious(threshold), Named(r))
    {
      r := SuspiciousKeys(Map(logs, Ip), threshold);
    }

    // ---- exports ----------------------------------------------------------------------------

    method ExportToCSV() returns (file: string)
      ensures Answers(logs, ToCsv, Written(file))
    {
      file := Csv.ExportToCsv(logs);
    }

    method ExportToJson() returns (file: string)
      ensures Answers(logs, ToJson, Written(file))
    {
      var tree := BuildExport(logs);
      file := ToString(tree, true);
    }
  }

  // ---- conservation between distributions and filters -----------------------------------------

  /** For any listing of the keys of a distribution, the counts sum to the number of logs. */
  lemma {:induction false} DistributionTotal<T>(logs: seq<LogEntry>, key: LogEntry -> T, order: seq<T>)
    requires Distinct(order) && forall k :: k in order <==> k in CountMap(Map(logs, key))
    ensures SumCounts(Map(logs, key), order) == |logs|
  {
    var ks := Map(logs, key);
    forall k | k in ks ensures k in order {
      assert k in CountMap(ks);
    }
    SumAll(ks, order);
  }

  /** The size of filterByStatus is the status's entry in the distribution. */
  lemma {:induction false} StatusCountIsFilter(a: LogAnalyzer, status: int)
    ensures var counts := CountMap(Map(a.logs, Status));
            |a.FilterByStatus(status)| == if status in counts then counts[status] else 0
  {
    CountIsFilter(a.logs, Status, status);
    CountPositive(Map(a.logs, Status), status);
  }

  function KeepAtLeast(order: seq<int>, threshold: int): seq<int> {
    if order == [] then []
    else (if order[0] >= threshold then [order[0]] else []) + KeepAtLeast(order[1..], threshold)
  }

  lemma {:induction false} KeepExact(order: seq<int>, threshold: int)
    requires Distinct(order)
    ensures Distinct(KeepAtLeast(order, threshold))
    ensures forall k :: k in KeepAtLeast(order, threshold) <==> k in order && k >= threshold
  {
    if order != [] {
      assert order == [order[0]] + order[1..];
      KeepExact(order[1..], threshold);
      var rest := KeepAtLeast(order[1..], threshold);
      assert order[0] !in order[1..];
      assert order[0] !in rest;
    }
  }

  /** The failed requests are as many as the counts of the statuses from the threshold on. */
  lemma {:induction false} FailedTotal(a: LogAnalyzer, threshold: int, order: seq<int>)
    requires Distinct(order) && forall k :: k in order <==> k in CountMap(Map(a.logs, Status))
    ensures |a.FindFailedRequests(threshold)| == SumCounts(Map(a.logs, Status), KeepAtLeast(order, threshold))
  {
    var logs := a.logs;
    var kept := KeepAtLeast(order, threshold);
    KeepExact(order, threshold);
    SumIsFilter(logs, Status, kept);
    forall e | e in logs ensures KeyAmong(Status, kept)(e) == StatusAtLeast(threshold)(e) {
      var i :| 0 <= i < |logs| && logs[i] == e;
      assert Map(logs, Status)[i] == e.status;
      assert e.status in CountMap(Map(logs, Status));
    }
    FilterSame(logs, KeyAmong(Status, kept), StatusAtLeast(threshold));
  }

  function KeepSpellings(order: seq<string>, upper: string): seq<string> {
    if order == [] then []
    else (if Upper(order[0]) == upper then [order[0]] else []) + KeepSpellings(order[1..], upper)
  }

  lemma {:induction false} SpellingsExact(order: seq<string>, upper: string)
    requires Distinct(order)
    ensures Distinct(KeepSpellings(order, upper))
    ensures forall k :: k in KeepSpellings(order, upper) <==> k in order && Upper(k) == upper
  {
    if order != [] {
      assert order == [order[0]] + order[1..];
      SpellingsExact(order[1..], upper);
      var rest := KeepSpellings(order[1..], upper);
      assert order[0] !in order[1..];
      assert order[0] !in rest;
    }
  }

  /** The entries filterByMethod finds are as many as the counts of all stored spellings of the name. */
  lemma {:induction false} MethodTotal(a: LogAnalyzer, name: string, order: seq<string>)
    requires Distinct(order) && forall k :: k in order <==> k in CountMap(Map(a.logs, Method))
    ensures |a.FilterByMethod(name)| == SumCounts(Map(a.logs, Method), KeepSpellings(order, Upper(name)))
  {
    hide KeepSpellings, SumCounts, Filter;
    var logs := a.logs;
    var kept := KeepSpellings(order, Upper(name));
    SpellingsExact(order, Upper(name));
    SumIsFilter(logs, Method, kept);
    forall e | e in logs ensures KeyAmong(Method, kept)(e) == KeyIs(UpperMethod, Upper(name))(e) {
      var i :| 0 <= i < |logs| && logs[i] == e;
      assert Map(logs, Method)[i] == e.httpMethod;
      assert e.httpMethod in CountMap(Map(logs, Method));
      assert KeyAmong(Method, kept)(e) <==> e.httpMethod in kept;
      assert UpperMethod(e) == Upper(e.httpMethod);
    }
    FilterSame(logs, KeyAmong(Method, kept), KeyIs(UpperMethod, Upper(name)));
  }

  /** The count getTopIPs reports for an ip is the number of entries filterByIP finds and the length of
      its list in a freshly built index. */
  lemma {:induction false} TopCountIsFilter(a: LogAnalyzer, n: int, r: seq<Entry>, i: nat)
    requires Answers(a.logs, TopIPs(n), Ranked(r)) && i < |r|
    ensures r[i].1 == |a.FilterByIP(r[i].0)|
    ensures !a.indexesBuilt ==> r[i].1 == |Listed(Build(a.Abs()).ipIndex, r[i].0)|
  {
    CountIsFilter(a.logs, Ip, r[i].0);
    if !a.indexesBuilt {
      IndexIsScan(a.Abs(), r[i].0);
    }
  }
}
