/** The replies of the analyzer, told on the fields of the records. */
module Fields {
  import opened Text
  import opened Counting
  import opened LogEntries
  import opened Ranking
  import opened TimeRanges
  import opened Queries
  import opened Records
  import opened Validation

  // ---- conditions on a record -----------------------------------------------------------------------

  function IpIs(ip: string): LogEntry -> bool {
    (e: LogEntry) => e.ip == ip
  }

  function UrlIs(url: string): LogEntry -> bool {
    (e: LogEntry) => e.url == url
  }

  function MethodIs(name: string): LogEntry -> bool {
    (e: LogEntry) => e.httpMethod == name
  }

  function StatusIs(status: int): LogEntry -> bool {
    (e: LogEntry) => e.status == status
  }

  /** Not before the start and not after the end, as far as they are given. */
  function StampWithin(start: string, end: string): LogEntry -> bool {
    (e: LogEntry) => (start == "" || !Less(e.timestamp, start)) && (end == "" || !Less(end, e.timestamp))
  }

  function StatusFrom(threshold: int): LogEntry -> bool {
    (e: LogEntry) => !(e.status < threshold)
  }

  // ---- selecting and counting by position ---------------------------------------------------------------

  /** The records at exactly the positions where the condition holds, in order. */
  ghost predicate Selects(logs: seq<LogEntry>, p: LogEntry -> bool, r: seq<LogEntry>) {
    exists ps: seq<nat> :: SelectsAt(logs, p, r, ps)
  }

  ghost predicate SelectsAt(logs: seq<LogEntry>, p: LogEntry -> bool, r: seq<LogEntry>, ps: seq<nat>) {
    && Rising(ps, |logs|) && |ps| == |r|
    && (forall k | 0 <= k < |ps| :: r[k] == logs[ps[k]])
    && forall i | 0 <= i < |logs| :: i in ps <==> p(logs[i])
  }

  /** At how many positions the condition holds. */
  ghost function Tally(logs: seq<LogEntry>, p: LogEntry -> bool): nat {
    |Where(logs, p)|
  }

  ghost function Where(logs: seq<LogEntry>, p: LogEntry -> bool): set<nat> {
    set i: nat | 0 <= i < |logs| && p(logs[i])
  }

  lemma {:induction false} SelectsMore(logs: seq<LogEntry>, p: LogEntry -> bool, r: seq<LogEntry>, ps: seq<nat>)
    requires logs != [] && SelectsAt(logs[..|logs| - 1], p, r, ps)
    ensures var n := |logs| - 1;
            if p(logs[n]) then SelectsAt(logs, p, r + [logs[n]], ps + [n]) else SelectsAt(logs, p, r, ps)
  {
    var n := |logs| - 1;
    var front := logs[..n];
    forall i | 0 <= i < n ensures i in ps <==> p(logs[i]) {
      assert front[i] == logs[i];
    }
    assert n !in ps;
    forall k | 0 <= k < |ps| ensures r[k] == logs[ps[k]] {
      assert front[ps[k]] == logs[ps[k]];
    }
  }

  lemma {:induction false} FilterAt(logs: seq<LogEntry>, p: LogEntry -> bool) returns (ps: seq<nat>)
    ensures SelectsAt(logs, p, Filter(logs, p), ps)
  {
    hide SelectsAt;
    if logs == [] {
      ps := [];
      NothingSelected(p);
    } else {
      var n := |logs| - 1;
      var qs := FilterAt(logs[..n], p);
      SelectsMore(logs, p, Filter(logs[..n], p), qs);
      FilterStep(logs, p);
      ps := if p(logs[n]) then qs + [n] else qs;
      if !p(logs[n]) {
        assert Filter(logs, p) == Filter(logs[..n], p);
      }
    }
  }

  lemma {:induction false} NothingSelected(p: LogEntry -> bool)
    ensures SelectsAt([], p, [], [])
  {
  }

  lemma {:induction false} SelectedOnce(logs: seq<LogEntry>, p: LogEntry -> bool, r: seq<LogEntry>)
    ensures Selects(logs, p, r) <==> r == Filter(logs, p)
  {
    var qs := FilterAt(logs, p);
    if Selects(logs, p, r) {
      var ps: seq<nat> :| SelectsAt(logs, p, r, ps);
      RisingSame(ps, qs, |logs|);
    }
  }

  lemma {:induction false} TallyFilter(logs: seq<LogEntry>, p: LogEntry -> bool)
    ensures Tally(logs, p) == |Filter(logs, p)|
  {
    if logs == [] {
      assert Where(logs, p) == {};
    } else {
      var n := |logs| - 1;
      TallyFilter(logs[..n], p);
      var below := Where(logs[..n], p);
      assert Where(logs, p) == if p(logs[n]) then below + {n} else below;
    }
  }

  lemma {:induction false} TallyCount<T>(logs: seq<LogEntry>, f: LogEntry -> T, k: T, p: LogEntry -> bool)
    requires forall e | e in logs :: p(e) <==> f(e) == k
    ensures Count(Map(logs, f), k) == Tally(logs, p)
  {
    CountIsFilter(logs, f, k);
    FilterSame(logs, KeyIs(f, k), p);
    TallyFilter(logs, p);
  }

  lemma {:induction false} Counted(logs: seq<LogEntry>, ip: string, status: int)
    ensures Count(Map(logs, Ip), ip) == Tally(logs, IpIs(ip))
    ensures Count(Map(logs, Url), ip) == Tally(logs, UrlIs(ip))
    ensures Count(Map(logs, Method), ip) == Tally(logs, MethodIs(ip))
    ensures Count(Map(logs, Status), status) == Tally(logs, StatusIs(status))
  {
    hide Tally, Count, Map;
    TallyCount(logs, Ip, ip, IpIs(ip));
    TallyCount(logs, Url, ip, UrlIs(ip));
    TallyCount(logs, Method, ip, MethodIs(ip));
    TallyCount(logs, Status, status, StatusIs(status));
  }

  lemma {:induction false} Occurs(logs: seq<LogEntry>, ip: string, status: int)
    ensures ip in Map(logs, Ip) <==> Tally(logs, IpIs(ip)) > 0
    ensures ip in Map(logs, Url) <==> Tally(logs, UrlIs(ip)) > 0
    ensures ip in Map(logs, Method) <==> Tally(logs, MethodIs(ip)) > 0
    ensures status in Map(logs, Status) <==> Tally(logs, StatusIs(status)) > 0
  {
    hide Tally, Count, Map;
    Counted(logs, ip, status);
    CountPositive(Map(logs, Ip), ip);
    CountPositive(Map(logs, Url), ip);
    CountPositive(Map(logs, Method), ip);
    CountPositive(Map(logs, Status), status);
  }

  // ---- the replies --------------------------------------------------------------------------------------

  /** Different keys with the number of their records, at least one, in non-increasing order. */
  ghost predicate RanksBy(logs: seq<LogEntry>, has: string -> (LogEntry -> bool), n: int, r: seq<Entry>) {
    && DistinctKeys(r) && Descending(r)
    && (forall i | 0 <= i < |r| :: r[i].1 == Tally(logs, has(r[i].0)) && r[i].1 > 0)
    && (forall k | Tally(logs, has(k)) > 0 && k !in KeysOf(r) ::
          0 < n <= |r| && forall i | 0 <= i < |r| :: Tally(logs, has(k)) <= r[i].1)
    && (n > 0 ==> |r| <= n)
  }

  ghost predicate AnswersSpelled(logs: seq<LogEntry>, q: Query, reply: Reply) {
    match q
    case TopIPs(n) => reply.Ranked? && RanksBy(logs, IpIs, n, reply.entries)
    case TopURLs(n) => reply.Ranked? && RanksBy(logs, UrlIs, n, reply.entries)
    case ByStatus(status) => reply.Selected? && Selects(logs, StatusIs(status), reply.logs)
    case ByMethod(name) => reply.Selected? && Selects(logs, SpelledLike(name), reply.logs)
    case ByIP(ip) => reply.Selected? && Selects(logs, IpIs(ip), reply.logs)
    case ByTimeRange(start, end) => reply.Selected? && Selects(logs, StampWithin(start, end), reply.logs)
    case Failed(threshold) => reply.Selected? && Selects(logs, StatusFrom(threshold), reply.logs)
    case Suspicious(threshold) =>
      reply.Named? && Distinct(reply.ips)
      && forall ip :: ip in reply.ips <==> Tally(logs, IpIs(ip)) > 0 && Tally(logs, IpIs(ip)) > threshold
    case WholeRange =>
      reply.Ranged?
      && (if logs == [] then reply.lo == reply.hi == "" else IsTimeRange(logs, reply.lo, reply.hi))
    case StatusDistribution =>
      reply.StatusCounts?
      && forall status: int ::
           && (status in reply.statuses <==> Tally(logs, StatusIs(status)) > 0)
           && (status in reply.statuses ==> reply.statuses[status] == Tally(logs, StatusIs(status)))
    case MethodDistribution =>
      reply.MethodCounts?
      && forall name: string ::
           && (name in reply.methods <==> Tally(logs, MethodIs(name)) > 0)
           && (name in reply.methods ==> reply.methods[name] == Tally(logs, MethodIs(name)))
    case _ => Answers(logs, q, reply)
  }

  /** A ranking on the counts of a column is one on the tallies of its keys. */
  lemma {:induction false} RankingSpelled(logs: seq<LogEntry>, ks: seq<string>, has: string -> (LogEntry -> bool),
                                          n: int, r: seq<Entry>)
    requires forall k :: Count(ks, k) == Tally(logs, has(k)) && (k in ks <==> Tally(logs, has(k)) > 0)
    ensures IsTop(ks, n, r) <==> RanksBy(logs, has, n, r)
  {
    hide Tally, Count, Descending, DistinctKeys;
    if IsTop(ks, n, r) {
      TopSpelled(logs, ks, has, n, r);
    }
    if RanksBy(logs, has, n, r) {
      SpelledTop(logs, ks, has, n, r);
    }
  }

  lemma {:induction false} TopSpelled(logs: seq<LogEntry>, ks: seq<string>, has: string -> (LogEntry -> bool), n: int,
                                      r: seq<Entry>)
    requires forall k :: Count(ks, k) == Tally(logs, has(k)) && (k in ks <==> Tally(logs, has(k)) > 0)
    requires IsTop(ks, n, r)
    ensures RanksBy(logs, has, n, r)
  {
    hide Tally, Count, Descending;
    forall k | Tally(logs, has(k)) > 0 && k !in KeysOf(r)
      ensures 0 < n <= |r| && forall i | 0 <= i < |r| :: Tally(logs, has(k)) <= r[i].1
    {
      if n <= 0 || n >= |Keys(ks)| {
        DistinctSize(r);
        KeysWithinAll(ks, r);
        FullSubset(KeysOf(r), Keys(ks));
      }
    }
  }

  lemma {:induction false} KeysWithinAll(ks: seq<string>, r: seq<Entry>)
    requires forall i | 0 <= i < |r| :: r[i].0 in ks
    ensures KeysOf(r) <= Keys(ks)
  {
  }

  lemma {:induction false} SpelledTop(logs: seq<LogEntry>, ks: seq<string>, has: string -> (LogEntry -> bool), n: int,
                                      r: seq<Entry>)
    requires forall k :: Count(ks, k) == Tally(logs, has(k)) && (k in ks <==> Tally(logs, has(k)) > 0)
    requires RanksBy(logs, has, n, r)
    ensures IsTop(ks, n, r)
  {
    hide Tally, Count, Descending;
    assert Ranks(ks, r);
    DistinctSize(r);
    KeysWithinAll(ks, r);
    SubsetSize(KeysOf(r), Keys(ks));
    if KeysOf(r) == Keys(ks) {
    } else {
      var k :| k in Keys(ks) && k !in KeysOf(r);
      assert Tally(logs, has(k)) > 0;
      ProperSubset(KeysOf(r), Keys(ks), k);
    }
  }

  lemma {:induction false} ProperSubset<T>(a: set<T>, b: set<T>, x: T)
    requires a <= b && x in b && x !in a
    ensures |a| < |b|
  {
    SubsetSize(a, b - {x});
  }

  /** A reply is right exactly when it is right on the fields of the records. */
  lemma {:induction false} AnswersOnFields(logs: seq<LogEntry>, q: Query, reply: Reply)
    ensures Answers(logs, q, reply) <==> AnswersSpelled(logs, q, reply)
  {
    hide Selects, Tally, Filter, IsTop, RanksBy, CountMap, Count, Map, Upper, SameName, IsTimeRange, IsInTimeRange;
    match q {
      case TopIPs(n) =>
        forall k
          ensures Count(Map(logs, Ip), k) == Tally(logs, IpIs(k)) && (k in Map(logs, Ip) <==> Tally(logs, IpIs(k)) > 0)
        {
          Counted(logs, k, 0);
          Occurs(logs, k, 0);
        }
        if reply.Ranked? {
          RankingSpelled(logs, Map(logs, Ip), IpIs, n, reply.entries);
        }
      case TopURLs(n) =>
        forall k
          ensures Count(Map(logs, Url), k) == Tally(logs, UrlIs(k))
                  && (k in Map(logs, Url) <==> Tally(logs, UrlIs(k)) > 0)
        {
          Counted(logs, k, 0);
          Occurs(logs, k, 0);
        }
        if reply.Ranked? {
          RankingSpelled(logs, Map(logs, Url), UrlIs, n, reply.entries);
        }
      case ByStatus(status) => SelectedBy(logs, KeyIs(Status, status), StatusIs(status), reply);
      case ByMethod(name) =>
        forall e | e in logs ensures KeyIs(UpperMethod, Upper(name))(e) == SpelledLike(name)(e) {
          UpperSame(e.httpMethod, name);
          assert UpperMethod(e) == Upper(e.httpMethod);
        }
        SelectedBy(logs, KeyIs(UpperMethod, Upper(name)), SpelledLike(name), reply);
      case ByIP(ip) => SelectedBy(logs, KeyIs(Ip, ip), IpIs(ip), reply);
      case ByTimeRange(start, end) =>
        forall e: LogEntry | e in logs ensures InRange(start, end)(e) == StampWithin(start, end)(e) {
          WithinSpelled(e, start, end);
        }
        SelectedBy(logs, InRange(start, end), StampWithin(start, end), reply);
      case Failed(threshold) => SelectedBy(logs, StatusAtLeast(threshold), StatusFrom(threshold), reply);
      case Suspicious(threshold) =>
        forall ip ensures ip in Map(logs, Ip) && Count(Map(logs, Ip), ip) > threshold
                          <==> Tally(logs, IpIs(ip)) > 0 && Tally(logs, IpIs(ip)) > threshold {
          Counted(logs, ip, 0);
          Occurs(logs, ip, 0);
        }
      case StatusDistribution => StatusesSpelled(logs, reply);
      case MethodDistribution => MethodsSpelled(logs, reply);
      case _ =>
    }
  }

  lemma {:induction false} SelectedBy(logs: seq<LogEntry>, p: LogEntry -> bool, q: LogEntry -> bool, reply: Reply)
    requires forall e | e in logs :: p(e) == q(e)
    ensures reply == Selected(Filter(logs, p)) <==> reply.Selected? && Selects(logs, q, reply.logs)
  {
    hide Selects, Filter;
    FilterSame(logs, p, q);
    if reply.Selected? {
      SelectedOnce(logs, q, reply.logs);
    }
  }

  lemma {:induction false} WithinSpelled(e: LogEntry, start: string, end: string)
    ensures IsInTimeRange(e.timestamp, start, end) <==> StampWithin(start, end)(e)
  {
  }

  lemma {:induction false} StatusesSpelled(logs: seq<LogEntry>, reply: Reply)
    ensures Answers(logs, StatusDistribution, reply) <==> AnswersSpelled(logs, StatusDistribution, reply)
  {
    hide Tally, Count, Map;
    var counts := CountMap(Map(logs, Status));
    forall status: int
      ensures (status in counts <==> Tally(logs, StatusIs(status)) > 0)
              && (status in counts ==> counts[status] == Tally(logs, StatusIs(status)))
    {
      Counted(logs, "", status);
      Occurs(logs, "", status);
    }
    if AnswersSpelled(logs, StatusDistribution, reply) {
      forall status: int ensures status in reply.statuses <==> status in counts {
      }
      assert reply.statuses.Keys == counts.Keys;
      assert reply.statuses == counts;
    }
  }

  lemma {:induction false} MethodsSpelled(logs: seq<LogEntry>, reply: Reply)
    ensures Answers(logs, MethodDistribution, reply) <==> AnswersSpelled(logs, MethodDistribution, reply)
  {
    hide Tally, Count, Map;
    var counts := CountMap(Map(logs, Method));
    forall name: string
      ensures (name in counts <==> Tally(logs, MethodIs(name)) > 0)
              && (name in counts ==> counts[name] == Tally(logs, MethodIs(name)))
    {
      Counted(logs, name, 0);
      Occurs(logs, name, 0);
    }
    if AnswersSpelled(logs, MethodDistribution, reply) {
      forall name: string ensures name in reply.methods <==> name in counts {
      }
      assert reply.methods.Keys == counts.Keys;
      assert reply.methods == counts;
    }
  }
}
