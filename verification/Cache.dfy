/** The analyzer as a state machine. */
module Cache {
  // The log list, the three cached indexes and the flag that says they were built. Loading resets the
  // flag; adding and clearing do not.

  import opened Counting
  import opened JsonTree
  import opened LogEntries
  import opened LogJson
  import opened Queries

  /** std::map from a key to the positions of its entries. */
  type Index = map<string, seq<nat>>

  function IndexOf(ks: seq<string>): Index {
    map k | k in ks :: Positions(ks, k)
  }

  /** index[key].push_back(i) */
  function Push(index: Index, key: string, i: nat): Index {
    index[key := (if key in index then index[key] else []) + [i]]
  }

  /** The positions listed for a key, none if it is missing. */
  function Listed(index: Index, key: string): seq<nat> {
    if key in index then index[key] else []
  }

  lemma {:induction false} PushStep(ks: seq<string>, i: nat)
    requires i < |ks|
    ensures Push(IndexOf(ks[..i]), ks[i], i) == IndexOf(ks[..i + 1])
  {
    var front := ks[..i + 1];
    assert front[..i] == ks[..i] && front == ks[..i] + [ks[i]];
    PositionsMissing(ks[..i], ks[i]);
    var pushed := Push(IndexOf(ks[..i]), ks[i], i);
    forall k | k in front ensures k in pushed && pushed[k] == Positions(front, k) {
      assert k != ks[i] ==> k in ks[..i];
    }
    assert pushed.Keys == IndexOf(front).Keys;
  }

  lemma {:induction false} PositionsMissing(ks: seq<string>, k: string)
    ensures k !in ks ==> Positions(ks, k) == []
    ensures Listed(IndexOf(ks), k) == Positions(ks, k)
  {
    PositionsExact(ks, k);
    CountPositive(ks, k);
  }

  /** An index determines the keys it was built from, position by position. */
  lemma {:induction false} IndexDetermines(a: seq<string>, b: seq<string>)
    ensures IndexOf(a) == IndexOf(b) <==> a == b
  {
    if IndexOf(a) == IndexOf(b) {
      IndexBelow(a, b);
      IndexBelow(b, a);
    }
  }

  lemma {:induction false} IndexBelow(a: seq<string>, b: seq<string>)
    requires IndexOf(a) == IndexOf(b)
    ensures |a| <= |b| && forall i | 0 <= i < |a| :: a[i] == b[i]
  {
    forall i | 0 <= i < |a| ensures i < |b| && a[i] == b[i] {
      PositionsPartition(a, i, a[i]);
      assert i in IndexOf(a)[a[i]];
      assert i in IndexOf(b)[a[i]];
      PositionsExact(b, a[i]);
    }
    if a != [] {
      var last := a[|a| - 1];
    }
  }

  // ---- states and operations --------------------------------------------------------------

  datatype State = State(logs: seq<LogEntry>, ipIndex: Index, urlIndex: Index, timeIndex: Index, indexesBuilt: bool)

  /** The calls a client can make. */
  datatype Op = Load(json: JsonValue) | Add(e: LogEntry) | Clear | Ask(q: Query)

  /** The two rankings build the indexes; the other queries are const members. */
  predicate BuildsIndexes(q: Query) {
    q.TopIPs? || q.TopURLs?
  }

  function New(entries: seq<LogEntry>): State {
    State(entries, map[], map[], map[], false)
  }

  function Build(st: State): State {
    if st.indexesBuilt then st
    else State(st.logs, IndexOf(Map(st.logs, Ip)), IndexOf(Map(st.logs, Url)), IndexOf(Map(st.logs, Time)), true)
  }

  function Step(st: State, op: Op): State {
    match op
    case Load(json) =>
      (match LogEntriesOf(json)
       case Some(logs) => st.(logs := logs, indexesBuilt := false)
       case None => st)
    case Add(e) => st.(logs := st.logs + [e])
    case Clear => st.(logs := [])
    case Ask(q) => if BuildsIndexes(q) then Build(st) else st
  }

  function Run(st: State, ops: seq<Op>): State {
    if ops == [] then st else Step(Run(st, ops[..|ops| - 1]), ops[|ops| - 1])
  }

  // ---- what the log list holds ------------------------------------------------------------

  /** A call that replaces the whole list: clearing it, or loading an array. */
  predicate Resets(op: Op) {
    op.Clear? || (op.Load? && op.json.Array?)
  }

  /** The records added by a run, in order. */
  function Added(ops: seq<Op>): seq<LogEntry> {
    if ops == [] then []
    else
      var last := ops[|ops| - 1];
      Added(ops[..|ops| - 1]) + if last.Add? then [last.e] else []
  }

  lemma {:induction false} AddedMore(ops: seq<Op>, op: Op)
    ensures Added(ops + [op]) == Added(ops) + if op.Add? then [op.e] else []
  {
    assert (ops + [op])[..|ops|] == ops;
  }

  lemma {:induction false} RunMore(st: State, ops: seq<Op>, op: Op)
    ensures Run(st, ops + [op]) == Step(Run(st, ops), op)
  {
    assert (ops + [op])[..|ops|] == ops;
  }

  /** After a run without a reset the list is the first one followed by what was added. */
  lemma {:induction false} LogsAdded(st: State, ops: seq<Op>)
    requires forall i | 0 <= i < |ops| :: !Resets(ops[i])
    ensures Run(st, ops).logs == st.logs + Added(ops)
  {
    hide IndexOf, EntriesOf;
    if ops == [] {
      assert st.logs + [] == st.logs;
    } else {
      var front, last := ops[..|ops| - 1], ops[|ops| - 1];
      assert ops == front + [last];
      LogsAdded(st, front);
      RunMore(st, front, last);
      AddedMore(front, last);
      var more := if last.Add? then [last.e] else [];
      assert st.logs + (Added(front) + more) == st.logs + Added(front) + more;
    }
  }

  lemma {:induction false} RunParts(st: State, a: seq<Op>, b: seq<Op>)
    ensures Run(st, a + b) == Run(Run(st, a), b)
  {
    if b == [] {
      assert a + b == a;
    } else {
      var front, last := b[..|b| - 1], b[|b| - 1];
      assert a + b == (a + front) + [last] && b == front + [last];
      RunParts(st, a, front);
      RunMore(st, a + front, last);
      RunMore(Run(st, a), front, last);
    }
  }

  /** After any run the list is what the last reset left, the records of the array or nothing, followed
      by what was added since. */
  lemma {:induction false} LogsSinceReset(st: State, before: seq<Op>, reset: Op, after: seq<Op>)
    requires Resets(reset) && forall i | 0 <= i < |after| :: !Resets(after[i])
    ensures Run(st, before + [reset] + after).logs
         == (if reset.Clear? then [] else EntriesOf(reset.json.items)) + Added(after)
  {
    hide Run, Added, EntriesOf, Resets;
    RunParts(st, before + [reset], after);
    RunMore(st, before, reset);
    LogsAdded(Run(st, before + [reset]), after);
    ResetLogs(Run(st, before), reset);
  }

  lemma {:induction false} ResetLogs(st: State, reset: Op)
    requires Resets(reset)
    ensures Step(st, reset).logs == if reset.Clear? then [] else EntriesOf(reset.json.items)
  {
  }

  // ---- what the indexes hold --------------------------------------------------------------

  /** The three indexes are those of the given list. */
  ghost predicate Describes(st: State, logs: seq<LogEntry>) {
    && st.ipIndex == IndexOf(Map(logs, Ip))
    && st.urlIndex == IndexOf(Map(logs, Url))
    && st.timeIndex == IndexOf(Map(logs, Time))
  }

  /** Whether the last call of a run is the one that builds the indexes. */
  predicate Builds(st: State, op: Op) {
    op.Ask? && BuildsIndexes(op.q) && !st.indexesBuilt
  }

  /** The log list at the last build of a run. */
  function LastBuilt(st: State, ops: seq<Op>): seq<LogEntry> {
    if ops == [] then []
    else
      var before := Run(st, ops[..|ops| - 1]);
      if Builds(before, ops[|ops| - 1]) then before.logs else LastBuilt(st, ops[..|ops| - 1])
  }

  /** In every run a set flag means the indexes are those of the log list at the last build. */
  lemma {:induction false} CacheInvariant(entries: seq<LogEntry>, ops: seq<Op>)
    ensures var st := Run(New(entries), ops);
            st.indexesBuilt ==> Describes(st, LastBuilt(New(entries), ops))
  {
    hide LogEntriesOf, IndexOf, Map;
    if ops != [] {
      CacheInvariant(entries, ops[..|ops| - 1]);
    }
  }

  /** The indexed columns of two lists agree. */
  ghost predicate SameColumns(a: seq<LogEntry>, b: seq<LogEntry>) {
    && |a| == |b|
    && forall i | 0 <= i < |a| ::
         a[i].ip == b[i].ip && a[i].url == b[i].url && a[i].timestamp == b[i].timestamp
  }

  lemma {:induction false} ColumnsAgree(a: seq<LogEntry>, b: seq<LogEntry>)
    ensures SameColumns(a, b) <==>
              Map(a, Ip) == Map(b, Ip) && Map(a, Url) == Map(b, Url) && Map(a, Time) == Map(b, Time)
  {
    if Map(a, Ip) == Map(b, Ip) && Map(a, Url) == Map(b, Url) && Map(a, Time) == Map(b, Time) {
      assert |a| == |Map(a, Ip)| == |b|;
      forall i | 0 <= i < |a| ensures a[i].ip == b[i].ip && a[i].url == b[i].url && a[i].timestamp == b[i].timestamp {
        assert Map(a, Ip)[i] == Map(b, Ip)[i] && Map(a, Url)[i] == Map(b, Url)[i] && Map(a, Time)[i] == Map(b, Time)[i];
      }
    }
  }

  /** After asking for the indexes in any reachable state they describe the current list exactly when
      the flag was not set, or ip, url and time of every entry are still those of the last build. */
  lemma {:induction false} CurrentExactly(entries: seq<LogEntry>, ops: seq<Op>)
    ensures var st := Run(New(entries), ops);
            Describes(Build(st), st.logs) <==> !st.indexesBuilt || SameColumns(LastBuilt(New(entries), ops), st.logs)
  {
    var st := Run(New(entries), ops);
    CacheInvariant(entries, ops);
    if st.indexesBuilt {
      var snapshot := LastBuilt(New(entries), ops);
      IndexDetermines(Map(snapshot, Ip), Map(st.logs, Ip));
      IndexDetermines(Map(snapshot, Url), Map(st.logs, Url));
      IndexDetermines(Map(snapshot, Time), Map(st.logs, Time));
      ColumnsAgree(snapshot, st.logs);
    }
  }

  /** A call that can change the log list. */
  function Writes(): Op -> bool {
    (op: Op) => op.Load? || op.Add? || op.Clear?
  }

  /** Leaving all queries out of a run ends in a new analyzer over the very list the whole run ends with. */
  lemma {:induction false} WritesOnly(entries: seq<LogEntry>, ops: seq<Op>)
    ensures Run(New(entries), Filter(ops, Writes())) == New(Run(New(entries), ops).logs)
  {
    hide LogEntriesOf, Build;
    if ops != [] {
      var front, last := ops[..|ops| - 1], ops[|ops| - 1];
      WritesOnly(entries, front);
      BuildKeepsLogs(Run(New(entries), front));
      var written := Filter(front, Writes());
      if Writes()(last) {
        assert (written + [last])[..|written|] == written;
      } else {
        assert Filter(ops, Writes()) == written;
      }
    }
  }

  /** The cache is never seen in a reply: whatever was asked before, and whether the indexes are fresh,
      stale or not built, a reply agrees with that of an analyzer that was asked nothing before. */
  lemma {:induction false} CacheUnobservable(entries: seq<LogEntry>, ops: seq<Op>, q: Query, a: Reply, b: Reply)
    requires Answers(Run(New(entries), ops).logs, q, a)
    requires Answers(Run(New(entries), Filter(ops, Writes())).logs, q, b)
    ensures Agree(Run(New(entries), ops).logs, q, a, b)
  {
    hide Answers, Agree, Run, Filter;
    WritesOnly(entries, ops);
    RepliesAgree(Run(New(entries), ops).logs, q, a, b);
  }

  lemma {:induction false} BuildKeepsLogs(st: State)
    ensures Build(st).logs == st.logs
  {
  }

  /** A load of an array makes the next ranking rebuild the indexes, whatever they held; any other
      value is refused and changes nothing. */
  lemma {:induction false} LoadRefreshes(entries: seq<LogEntry>, ops: seq<Op>, json: JsonValue, n: int)
    ensures var st := Run(New(entries), ops + [Load(json), Ask(TopIPs(n))]);
            if json.Array? then st.logs == EntriesOf(json.items) && Describes(st, st.logs)
            else st == Build(Run(New(entries), ops))
  {
    var loaded, all := ops + [Load(json)], ops + [Load(json), Ask(TopIPs(n))];
    assert all[..|ops| + 1] == loaded && loaded[..|ops|] == ops;
    assert all[|ops| + 1] == Ask(TopIPs(n)) && loaded[|ops|] == Load(json);
    assert Run(New(entries), all) == Step(Run(New(entries), loaded), Ask(TopIPs(n)));
  }

  /** The indexes go stale: after a ranking, adding an entry and ranking again leaves the entry out. */
  lemma {:induction false} StaleExample(e: LogEntry, n: int)
    ensures var st := Run(New([]), [Ask(TopIPs(n)), Add(e), Ask(TopIPs(n))]);
            st.logs == [e] && st.indexesBuilt && st.ipIndex == map[] && !Describes(st, st.logs)
  {
    var top := Ask(TopIPs(n));
    var s1 := Step(New([]), top);
    var s2 := Step(s1, Add(e));
    var s3 := Step(s2, top);
    assert [top, Add(e), top][..2] == [top, Add(e)] && [top, Add(e)][..1] == [top] && [top][..0] == [];
    assert Run(New([]), [top]) == Step(Run(New([]), []), top);
    assert Run(New([]), [top, Add(e)]) == Step(Run(New([]), [top]), Add(e));
    assert Run(New([]), [top, Add(e), top]) == s3;
    assert Map([e], Ip)[0] == e.ip;
    assert e.ip in IndexOf(Map([e], Ip));
  }

  // ---- growth -------------------------------------------------------------------------------

  predicate OnlyAdds(ops: seq<Op>) {
    forall i | 0 <= i < |ops| :: !ops[i].Load? && !ops[i].Clear?
  }

  /** While entries are only added, the indexes stay as they are and every list in them is a prefix of
      what it would be now. */
  lemma {:induction false} GrowthKeepsPrefixes(st: State, ops: seq<Op>, key: string)
    requires st.indexesBuilt && Describes(st, st.logs) && OnlyAdds(ops)
    ensures var now := Run(st, ops);
            && now.indexesBuilt && now.ipIndex == st.ipIndex && now.urlIndex == st.urlIndex
            && now.timeIndex == st.timeIndex
            && st.logs <= now.logs
            && Listed(now.ipIndex, key) <= Positions(Map(now.logs, Ip), key)
            && Listed(now.urlIndex, key) <= Positions(Map(now.logs, Url), key)
            && Listed(now.timeIndex, key) <= Positions(Map(now.logs, Time), key)
  {
    GrowthOnly(st, ops);
    var now := Run(st, ops);
    PositionsMissing(Map(st.logs, Ip), key);
    PositionsMissing(Map(st.logs, Url), key);
    PositionsMissing(Map(st.logs, Time), key);
    PositionsPrefix(Map(st.logs, Ip), Map(now.logs, Ip), key);
    PositionsPrefix(Map(st.logs, Url), Map(now.logs, Url), key);
    PositionsPrefix(Map(st.logs, Time), Map(now.logs, Time), key);
  }

  lemma {:induction false} GrowthOnly(st: State, ops: seq<Op>)
    requires st.indexesBuilt && OnlyAdds(ops)
    ensures var now := Run(st, ops);
            && now.indexesBuilt && now.ipIndex == st.ipIndex && now.urlIndex == st.urlIndex
            && now.timeIndex == st.timeIndex
            && st.logs <= now.logs
  {
    if ops != [] {
      GrowthOnly(st, ops[..|ops| - 1]);
    }
  }

  // ---- a fresh index agrees with a scan -------------------------------------------------------

  /** Right after a build, the entries listed for an ip are those filterByIP finds. */
  lemma {:induction false} IndexIsScan(st: State, ip: string)
    requires !st.indexesBuilt
    ensures var ps, found := Listed(Build(st).ipIndex, ip), Filter(st.logs, KeyIs(Ip, ip));
            && |ps| == |found| == Count(Map(st.logs, Ip), ip)
            && forall i | 0 <= i < |ps| :: ps[i] < |st.logs| && st.logs[ps[i]] == found[i]
  {
    PositionsMissing(Map(st.logs, Ip), ip);
    PositionsExact(Map(st.logs, Ip), ip);
    PickIsFilter(st.logs, Ip, ip);
  }

  ghost predicate Ascending(ps: seq<nat>, n: nat) {
    (forall i | 0 <= i < |ps| :: ps[i] < n) && forall i, j | 0 <= i < j < |ps| :: ps[i] < ps[j]
  }

  /** A column's index lists every position under its own value, under no other, in ascending order. */
  ghost predicate Partitions(index: Index, ks: seq<string>) {
    && (forall key :: Ascending(Listed(index, key), |ks|))
    && forall key, i | 0 <= i < |ks| :: i in Listed(index, key) <==> key == ks[i]
  }

  lemma {:induction false} IndexOfPartitions(ks: seq<string>)
    ensures Partitions(IndexOf(ks), ks)
  {
    hide IndexOf, Positions;
    forall key ensures Ascending(Listed(IndexOf(ks), key), |ks|) {
      PositionsMissing(ks, key);
      PositionsExact(ks, key);
    }
    forall key, i | 0 <= i < |ks| ensures i in Listed(IndexOf(ks), key) <==> key == ks[i] {
      PositionsMissing(ks, key);
      PositionsPartition(ks, i, key);
    }
  }

  /** Right after a build each of the three indexes partitions all positions into ascending lists. */
  lemma {:induction false} IndexPartitions(st: State)
    requires !st.indexesBuilt
    ensures var now := Build(st);
            && Partitions(now.ipIndex, Map(st.logs, Ip)) && Partitions(now.urlIndex, Map(st.logs, Url))
            && Partitions(now.timeIndex, Map(st.logs, Time))
  {
    hide Partitions;
    IndexOfPartitions(Map(st.logs, Ip));
    IndexOfPartitions(Map(st.logs, Url));
    IndexOfPartitions(Map(st.logs, Time));
  }
}
