/** Filtering by a range of timestamps, which are compared as strings. */
module TimeRanges {
  import opened Text
  import opened Counting
  import opened LogEntries

  /** An empty start means no lower limit, an empty end no upper one. */
  predicate IsInTimeRange(ts: string, start: string, end: string) {
    if start == "" && end == "" then true
    else if start == "" then Leq(ts, end)
    else if end == "" then Leq(start, ts)
    else Leq(start, ts) && Leq(ts, end)
  }

  function InRange(start: string, end: string): LogEntry -> bool {
    (e: LogEntry) => IsInTimeRange(e.timestamp, start, end)
  }

  function FilterByTimeRange(logs: seq<LogEntry>, start: string, end: string): seq<LogEntry> {
    Filter(logs, InRange(start, end))
  }

  /** The least and the greatest timestamp. */
  ghost predicate IsTimeRange(logs: seq<LogEntry>, lo: string, hi: string) {
    && (exists i :: 0 <= i < |logs| && logs[i].timestamp == lo)
    && (exists i :: 0 <= i < |logs| && logs[i].timestamp == hi)
    && forall i | 0 <= i < |logs| :: Leq(lo, logs[i].timestamp) && Leq(logs[i].timestamp, hi)
  }

  method TimeRange(logs: seq<LogEntry>) returns (lo: string, hi: string)
    ensures if logs == [] then lo == hi == "" else IsTimeRange(logs, lo, hi)
  {
    if logs == [] {
      return "", "";
    }
    lo, hi := logs[0].timestamp, logs[0].timestamp;
    LessIrreflexive(lo);
    var i := 0;
    while i < |logs|
      invariant 0 <= i <= |logs|
      invariant IsTimeRange(if i == 0 then logs[..1] else logs[..i], lo, hi)
    {
      var before := if i == 0 then logs[..1] else logs[..i];
      var ts := logs[i].timestamp;
      RangeStep(before, logs[..i + 1], lo, hi, if Less(ts, lo) then ts else lo, if Less(hi, ts) then ts else hi);
      if Less(ts, lo) {
        lo := ts;
      }
      if Less(hi, ts) {
        hi := ts;
      }
      i := i + 1;
    }
    assert logs[..i] == logs;
  }

  /** Looking at one more entry. */
  lemma {:induction false} RangeStep(before: seq<LogEntry>, after: seq<LogEntry>, lo: string, hi: string,
                                     lo': string, hi': string)
    requires IsTimeRange(before, lo, hi) && before <= after && |after| <= |before| + 1 && after != []
    requires var ts := after[|after| - 1].timestamp;
             lo' == (if Less(ts, lo) then ts else lo) && hi' == (if Less(hi, ts) then ts else hi)
    ensures IsTimeRange(after, lo', hi')
  {
    var ts := after[|after| - 1].timestamp;
    Endpoints(lo, ts);
    Endpoints(ts, hi);
    forall i | 0 <= i < |after| ensures Leq(lo', after[i].timestamp) && Leq(after[i].timestamp, hi') {
      LessIrreflexive(ts);
      if i < |before| {
        assert after[i] == before[i];
        LeqTransitive(lo', lo, after[i].timestamp);
        LeqTransitive(after[i].timestamp, hi, hi');
      }
    }
    var a :| 0 <= a < |before| && before[a].timestamp == lo;
    var b :| 0 <= b < |before| && before[b].timestamp == hi;
    assert after[a].timestamp == lo && after[b].timestamp == hi;
  }

  /** The smaller of two is below both. */
  lemma {:induction false} Endpoints(a: string, b: string)
    ensures Leq(a, a) && Leq(b, b)
    ensures if Less(b, a) then Leq(b, a) else Leq(a, b)
  {
    LessIrreflexive(a);
    LessIrreflexive(b);
    if Less(b, a) {
      LessAsymmetric(b, a);
    }
  }

  /** The range of a list is the same whoever computes it. */
  lemma {:induction false} TimeRangeUnique(logs: seq<LogEntry>, lo: string, hi: string, lo': string, hi': string)
    requires IsTimeRange(logs, lo, hi) && IsTimeRange(logs, lo', hi')
    ensures lo == lo' && hi == hi'
  {
    LessTotal(lo, lo');
    LessTotal(hi, hi');
  }

  /** Filtering by the range of the whole list keeps the whole list. */
  lemma {:induction false} OwnRangeKeepsAll(logs: seq<LogEntry>, lo: string, hi: string)
    requires if logs == [] then lo == hi == "" else IsTimeRange(logs, lo, hi)
    ensures FilterByTimeRange(logs, lo, hi) == logs
  {
    forall e | e in logs ensures IsInTimeRange(e.timestamp, lo, hi) {
      var i :| 0 <= i < |logs| && logs[i] == e;
      assert Leq(lo, logs[i].timestamp) && Leq(logs[i].timestamp, hi);
    }
    FilterAll(logs, InRange(lo, hi));
  }

  // ---- the algebra of ranges --------------------------------------------------------------

  function LaterStart(a: string, b: string): string {
    if Less(a, b) then b else a
  }

  function EarlierEnd(a: string, b: string): string {
    if a == "" then b else if b == "" then a else if Less(b, a) then b else a
  }

  /** The limits taken apart: an empty one never excludes anything. */
  lemma {:induction false} RangeLimits(ts: string, start: string, end: string)
    ensures IsInTimeRange(ts, start, end) <==> Leq(start, ts) && (end == "" || Leq(ts, end))
  {
  }

  lemma {:induction false} StartsMeet(ts: string, a: string, b: string)
    ensures Leq(LaterStart(a, b), ts) <==> Leq(a, ts) && Leq(b, ts)
  {
    Endpoints(a, b);
    if Less(a, b) {
      LessAsymmetric(a, b);
      if Leq(b, ts) {
        LeqTransitive(a, b, ts);
      }
    } else if Leq(a, ts) {
      LeqTransitive(b, a, ts);
    }
  }

  lemma {:induction false} EndsMeet(ts: string, a: string, b: string)
    ensures EarlierEnd(a, b) == "" || Leq(ts, EarlierEnd(a, b))
            <==> (a == "" || Leq(ts, a)) && (b == "" || Leq(ts, b))
  {
    if a != "" && b != "" {
      if Less(b, a) {
        LessAsymmetric(b, a);
        if Leq(ts, b) {
          LeqTransitive(ts, b, a);
        }
      } else if Leq(ts, a) {
        LeqTransitive(ts, a, b);
      }
    }
  }

  lemma {:induction false} RangesMeet(ts: string, s1: string, e1: string, s2: string, e2: string)
    ensures IsInTimeRange(ts, LaterStart(s1, s2), EarlierEnd(e1, e2))
            <==> IsInTimeRange(ts, s1, e1) && IsInTimeRange(ts, s2, e2)
  {
    hide Less, LaterStart, EarlierEnd, IsInTimeRange, Leq;
    RangeLimits(ts, s1, e1);
    RangeLimits(ts, s2, e2);
    RangeLimits(ts, LaterStart(s1, s2), EarlierEnd(e1, e2));
    StartsMeet(ts, s1, s2);
    EndsMeet(ts, e1, e2);
  }

  /** Filtering twice is filtering once by the intersection, the later start and the earlier end. */
  lemma {:induction false} FilterTwiceMeets(logs: seq<LogEntry>, s1: string, e1: string, s2: string, e2: string)
    ensures FilterByTimeRange(FilterByTimeRange(logs, s1, e1), s2, e2)
         == FilterByTimeRange(logs, LaterStart(s1, s2), EarlierEnd(e1, e2))
  {
    hide LaterStart, EarlierEnd, IsInTimeRange;
    var p, q := InRange(s1, e1), InRange(s2, e2);
    FilterTwice(logs, p, q);
    forall e: LogEntry | e in logs
      ensures Both(p, q)(e) == InRange(LaterStart(s1, s2), EarlierEnd(e1, e2))(e)
    {
      RangesMeet(e.timestamp, s1, e1, s2, e2);
    }
    FilterSame(logs, Both(p, q), InRange(LaterStart(s1, s2), EarlierEnd(e1, e2)));
  }
}
