/** What the analyzer can be asked, and which replies are right for a log list. */
module Queries {
  import opened Counting
  import opened LogEntries
  import opened Ranking
  import TimeRanges
  import LogJson
  import Csv

  // ---- the columns and selections the analyzer looks at -----------------------------------------

  function Ip(e: LogEntry): string { e.ip }
  function Url(e: LogEntry): string { e.url }
  function Time(e: LogEntry): string { e.timestamp }
  function Status(e: LogEntry): int { e.status }
  function Method(e: LogEntry): string { e.httpMethod }
  function UpperMethod(e: LogEntry): string { Upper(e.httpMethod) }

  function StatusAtLeast(threshold: int): LogEntry -> bool {
    (e: LogEntry) => e.status >= threshold
  }

  // ---- queries and replies ------------------------------------------------------------------------

  datatype Query =
    | TopIPs(n: int) | TopURLs(n: int)
    | ByStatus(status: int) | ByMethod(name: string) | ByIP(ip: string) | ByTimeRange(start: string, end: string)
    | Failed(threshold: int) | Suspicious(threshold: int)
    | WholeRange | StatusDistribution | MethodDistribution
    | ToCsv | ToJson

  datatype Reply =
    | Ranked(entries: seq<Entry>)
    | Selected(logs: seq<LogEntry>)
    | Named(ips: seq<string>)
    | Ranged(lo: string, hi: string)
    | StatusCounts(statuses: map<int, nat>)
    | MethodCounts(methods: map<string, nat>)
    | Written(file: string)

  ghost predicate Answers(logs: seq<LogEntry>, q: Query, reply: Reply) {
    match q
    case TopIPs(n) => reply.Ranked? && IsTop(Map(logs, Ip), n, reply.entries)
    case TopURLs(n) => reply.Ranked? && IsTop(Map(logs, Url), n, reply.entries)
    case ByStatus(status) => reply == Selected(Filter(logs, KeyIs(Status, status)))
    case ByMethod(name) => reply == Selected(Filter(logs, KeyIs(UpperMethod, Upper(name))))
    case ByIP(ip) => reply == Selected(Filter(logs, KeyIs(Ip, ip)))
    case ByTimeRange(start, end) => reply == Selected(TimeRanges.FilterByTimeRange(logs, start, end))
    case Failed(threshold) => reply == Selected(Filter(logs, StatusAtLeast(threshold)))
    case Suspicious(threshold) => reply.Named? && AreSuspicious(Map(logs, Ip), threshold, reply.ips)
    case WholeRange =>
      reply.Ranged?
      && (if logs == [] then reply == Ranged("", "") else TimeRanges.IsTimeRange(logs, reply.lo, reply.hi))
    case StatusDistribution => reply == StatusCounts(CountMap(Map(logs, Status)))
    case MethodDistribution => reply == MethodCounts(CountMap(Map(logs, Method)))
    case ToCsv => reply == Written(Csv.CsvText(logs))
    case ToJson => reply == Written(LogJson.ExportText(logs))
  }

  // ---- how far a reply is determined ----------------------------------------------------------------

  /** The ranking names every key. */
  predicate Uncut(ks: seq<string>, n: int) {
    n <= 0 || n >= |Keys(ks)|
  }

  /** Two rankings that were not cut hold the same entries, in an order that may differ among equal
      counts. In cut ones the counts agree, and so do all entries above the last count; which keys
      stand at the last count may differ. */
  ghost predicate SameButTies(ks: seq<string>, n: int, r: seq<Entry>, s: seq<Entry>) {
    && |r| == |s|
    && (forall i | 0 <= i < |r| :: r[i].1 == s[i].1)
    && (forall i | 0 <= i < |r| && r[i].1 > r[|r| - 1].1 :: r[i] in s && s[i] in r)
    && (Uncut(ks, n) ==> multiset(r) == multiset(s))
  }

  /** Equal replies, but for the order of names, the order of equal counts, and where a ranking is cut
      among equal counts. */
  ghost predicate Agree(logs: seq<LogEntry>, q: Query, a: Reply, b: Reply) {
    match q
    case TopIPs(n) => a.Ranked? && b.Ranked? && SameButTies(Map(logs, Ip), n, a.entries, b.entries)
    case TopURLs(n) => a.Ranked? && b.Ranked? && SameButTies(Map(logs, Url), n, a.entries, b.entries)
    case Suspicious(_) => a.Named? && b.Named? && multiset(a.ips) == multiset(b.ips)
    case _ => a == b
  }

  /** An entry above the last count of a ranking is in every ranking of the same length. */
  lemma {:induction false} AboveTheCut(ks: seq<string>, n: int, r: seq<Entry>, s: seq<Entry>, i: nat)
    requires IsTop(ks, n, r) && IsTop(ks, n, s) && |r| == |s| && i < |r|
    requires r[i].1 > r[|r| - 1].1 == s[|s| - 1].1
    ensures r[i] in s
  {
    hide Count;
    assert s[|s| - 1].1 < Count(ks, r[i].0);
    assert r[i].0 in KeysOf(s);
    var j :| 0 <= j < |s| && s[j].0 == r[i].0;
    assert s[j] == r[i];
  }

  /** A ranking that was not cut holds every key with its count, once. */
  lemma {:induction false} UncutEntries(ks: seq<string>, n: int, r: seq<Entry>, x: Entry)
    requires IsTop(ks, n, r) && Uncut(ks, n)
    ensures multiset(r)[x] == if x.0 in ks && x.1 == Count(ks, x.0) then 1 else 0
  {
    hide Count;
    FullTop(ks, n, r);
    DistinctOnce(r, x);
    if x.0 in ks && x.1 == Count(ks, x.0) {
      assert x.0 in KeysOf(r);
      var i :| 0 <= i < |r| && r[i].0 == x.0;
      assert r[i] == x;
    }
  }

  lemma {:induction false} RankingsAgree(ks: seq<string>, n: int, r: seq<Entry>, s: seq<Entry>)
    requires IsTop(ks, n, r) && IsTop(ks, n, s)
    ensures SameButTies(ks, n, r, s)
  {
    hide IsTop, Uncut;
    SameLength(ks, n, r, s);
    forall i | 0 <= i < |r| ensures r[i].1 == s[i].1 {
      TopCountsUnique(ks, n, r, s, i);
    }
    forall i | 0 <= i < |r| && r[i].1 > r[|r| - 1].1 ensures r[i] in s && s[i] in r {
      AboveTheCut(ks, n, r, s, i);
      AboveTheCut(ks, n, s, r, i);
    }
    if Uncut(ks, n) {
      forall x ensures multiset(r)[x] == multiset(s)[x] {
        UncutEntries(ks, n, r, x);
        UncutEntries(ks, n, s, x);
      }
    }
  }

  lemma {:induction false} SameLength(ks: seq<string>, n: int, r: seq<Entry>, s: seq<Entry>)
    requires IsTop(ks, n, r) && IsTop(ks, n, s)
    ensures |r| == |s|
  {
  }

  lemma {:induction false} DistinctOnce<T>(r: seq<T>, x: T)
    requires Distinct(r)
    ensures multiset(r)[x] == if x in r then 1 else 0
  {
    if r != [] {
      var front, last := r[..|r| - 1], r[|r| - 1];
      DistinctOnce(front, x);
      assert r == front + [last];
    }
  }

  lemma {:induction false} NamesAgree(ks: seq<string>, threshold: int, r: seq<string>, s: seq<string>)
    requires AreSuspicious(ks, threshold, r) && AreSuspicious(ks, threshold, s)
    ensures multiset(r) == multiset(s)
  {
    hide Count, Distinct;
    forall k ensures multiset(r)[k] == multiset(s)[k] {
      DistinctOnce(r, k);
      DistinctOnce(s, k);
    }
  }

  /** A log list determines every reply, but for the order of names, the order of equal counts, and where
      a ranking is cut among equal counts. */
  lemma {:induction false} RepliesAgree(logs: seq<LogEntry>, q: Query, a: Reply, b: Reply)
    requires Answers(logs, q, a) && Answers(logs, q, b)
    ensures Agree(logs, q, a, b)
  {
    hide IsTop, AreSuspicious, SameButTies, TimeRanges.IsTimeRange, Filter, CountMap, Csv.CsvText, LogJson.ExportText;
    match q {
      case TopIPs(n) => RankingsAgree(Map(logs, Ip), n, a.entries, b.entries);
      case TopURLs(n) => RankingsAgree(Map(logs, Url), n, a.entries, b.entries);
      case Suspicious(threshold) => NamesAgree(Map(logs, Ip), threshold, a.ips, b.ips);
      case WholeRange =>
        if logs != [] {
          TimeRanges.TimeRangeUnique(logs, a.lo, a.hi, b.lo, b.hi);
        }
      case _ =>
    }
  }
}
