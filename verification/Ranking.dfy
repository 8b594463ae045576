module Ranking {
  // Counting keys and ranking them: the hash map, its iteration order and std::sort.

  import opened Counting

  type Entry = (string, nat)

  /** ipCounts[key]++ for every element. */
  function CountMap<T>(ks: seq<T>): map<T, nat> {
    map k | k in ks :: Count(ks, k)
  }

  method CountKeys<T(==)>(ks: seq<T>) returns (counts: map<T, nat>)
    ensures counts == CountMap(ks)
  {
    counts := map[];
    var i := 0;
    while i < |ks|
      invariant 0 <= i <= |ks|
      invariant counts == CountMap(ks[..i])
    {
      CountStep(ks, i);
      counts := counts[ks[i] := (if ks[i] in counts then counts[ks[i]] else 0) + 1];
      i := i + 1;
    }
    assert ks[..i] == ks;
  }

  lemma {:induction false} CountStep<T>(ks: seq<T>, i: nat)
    requires i < |ks|
    ensures var m := CountMap(ks[..i]);
            CountMap(ks[..i + 1]) == m[ks[i] := (if ks[i] in m then m[ks[i]] else 0) + 1]
  {
    var front := ks[..i + 1];
    assert front[..i] == ks[..i] && front == ks[..i] + [ks[i]];
    CountPositive(ks[..i], ks[i]);
  }

  /** The pairs of the map in the order the hash map happens to yield them. */
  method EntriesInAnyOrder(counts: map<string, nat>) returns (list: seq<Entry>)
    ensures multiset(list) == multiset(counts.Items)
  {
    list := [];
    var rest := counts.Items;
    while rest != {}
      invariant multiset(list) + multiset(rest) == multiset(counts.Items)
      decreases |rest|
    {
      var p :| p in rest;
      list := list + [p];
      rest := rest - {p};
    }
  }

  ghost predicate Descending(r: seq<Entry>) {
    forall i, j | 0 <= i < j < |r| :: r[i].1 >= r[j].1
  }

  method Swap(a: array<Entry>, j: nat)
    requires 0 < j < a.Length
    modifies a
    ensures a[..] == old(a[..])[j - 1 := old(a[j])][j := old(a[j - 1])]
    ensures multiset(a[..]) == multiset(old(a[..]))
  {
    a[j - 1], a[j] := a[j], a[j - 1];
  }

  /** All of s is in order but possibly the entry at j, which is not below those behind it. */
  ghost predicate AllButOne(s: seq<Entry>, j: nat) {
    && (forall p, q | 0 <= p < q < |s| && q != j :: s[p].1 >= s[q].1)
  }

  lemma {:induction false} SwapStep(s: seq<Entry>, j: nat)
    requires 0 < j < |s| && AllButOne(s, j) && s[j - 1].1 < s[j].1
    ensures AllButOne(s[j - 1 := s[j]][j := s[j - 1]], j - 1)
  {
  }

  lemma {:induction false} OneSorted(s: seq<Entry>, j: nat)
    requires j < |s| && AllButOne(s, j) && (j > 0 ==> s[j - 1].1 >= s[j].1)
    ensures Descending(s)
  {
    forall p | 0 <= p < j ensures s[p].1 >= s[j].1 {
      if p < j - 1 {
        assert s[p].1 >= s[j - 1].1;
      }
    }
  }

  /** Moves the entry at i to its place in the sorted part before it. */
  method InsertLast(a: array<Entry>, i: nat)
    requires i < a.Length && Descending(a[..i])
    modifies a
    ensures Descending(a[..i + 1])
    ensures multiset(a[..]) == multiset(old(a[..]))
  {
    var j := i;
    while j > 0 && a[j - 1].1 < a[j].1
      invariant 0 <= j <= i
      invariant AllButOne(a[..i + 1], j)
      invariant multiset(a[..]) == multiset(old(a[..]))
    {
      ghost var before := a[..i + 1];
      SwapStep(before, j);
      Swap(a, j);
      assert a[..i + 1] == before[j - 1 := before[j]][j := before[j - 1]];
      j := j - 1;
    }
    OneSorted(a[..i + 1], j);
  }

  /** std::sort by descending count; entries of equal count may come in any order. */
  method SortByCount(a: array<Entry>)
    modifies a
    ensures Descending(a[..])
    ensures multiset(a[..]) == multiset(old(a[..]))
  {
    var i := 0;
    while i < a.Length
      invariant 0 <= i <= a.Length
      invariant Descending(a[..i])
      invariant multiset(a[..]) == multiset(old(a[..]))
    {
      InsertLast(a, i);
      i := i + 1;
    }
    assert a[..i] == a[..];
  }

  // ---- what a ranking is ------------------------------------------------------------------

  /** The different keys. */
  function Keys(ks: seq<string>): set<string> {
    set k | k in ks
  }

  function KeysOf(r: seq<Entry>): set<string> {
    set i | 0 <= i < |r| :: r[i].0
  }

  ghost predicate DistinctKeys(r: seq<Entry>) {
    forall i, j | 0 <= i < j < |r| :: r[i].0 != r[j].0
  }

  /** Exact counts of different keys, in non-increasing order. */
  ghost predicate Ranks(ks: seq<string>, r: seq<Entry>) {
    && DistinctKeys(r) && Descending(r)
    && forall i | 0 <= i < |r| :: r[i].0 in ks && r[i].1 == Count(ks, r[i].0)
  }

  /** The first n of a full ranking, or all of it when n is not positive or too large. */
  ghost predicate IsTop(ks: seq<string>, n: int, r: seq<Entry>) {
    && Ranks(ks, r)
    && |r| == (if 0 < n < |Keys(ks)| then n else |Keys(ks)|)
    && forall k | k in ks && k !in KeysOf(r) :: forall i | 0 <= i < |r| :: Count(ks, k) <= r[i].1
  }

  lemma {:induction false} Twice<T>(r: seq<T>, i: nat, j: nat)
    requires i < j < |r|
    ensures r[i] == r[j] ==> multiset(r)[r[i]] >= 2
  {
    assert r == r[..j] + [r[j]] + r[j + 1..];
    assert r[..j][i] == r[i];
    assert multiset(r) == multiset(r[..j]) + multiset{r[j]} + multiset(r[j + 1..]);
  }

  /** A listing of the count map names every key once, with its count. */
  lemma {:induction false} ListedOnce(ks: seq<string>, r: seq<Entry>)
    requires multiset(r) == multiset(CountMap(ks).Items)
    ensures DistinctKeys(r) && KeysOf(r) == Keys(ks)
    ensures forall i | 0 <= i < |r| :: r[i].0 in ks && r[i].1 == Count(ks, r[i].0)
  {
    var items := CountMap(ks).Items;
    forall i | 0 <= i < |r| ensures r[i].0 in ks && r[i].1 == Count(ks, r[i].0) {
      assert r[i] in multiset(r);
      assert r[i] in items;
    }
    forall i, j | 0 <= i < j < |r| ensures r[i].0 != r[j].0 {
      Twice(r, i, j);
      assert multiset(items)[r[i]] == 1;
    }
    forall k | k in ks ensures k in KeysOf(r) {
      assert (k, Count(ks, k)) in items;
      assert (k, Count(ks, k)) in multiset(r);
      var i :| 0 <= i < |r| && r[i] == (k, Count(ks, k));
    }
  }

  lemma {:induction false} KeysOfAppend(front: seq<Entry>, last: Entry)
    ensures KeysOf(front + [last]) == KeysOf(front) + {last.0}
  {
    var r := front + [last];
    forall k | k in KeysOf(r) ensures k in KeysOf(front) + {last.0} {
      var i :| 0 <= i < |r| && r[i].0 == k;
      assert i < |front| ==> front[i].0 == k;
    }
    forall k | k in KeysOf(front) ensures k in KeysOf(r) {
      var i :| 0 <= i < |front| && front[i].0 == k;
      assert r[i].0 == k;
    }
    assert r[|front|].0 == last.0;
  }

  lemma {:induction false} DistinctSize(r: seq<Entry>)
    requires DistinctKeys(r)
    ensures |KeysOf(r)| == |r|
  {
    if r == [] {
      assert KeysOf(r) == {};
    } else {
      var front, last := r[..|r| - 1], r[|r| - 1];
      DistinctSize(front);
      assert r == front + [last];
      KeysOfAppend(front, last);
      forall i | 0 <= i < |front| ensures front[i].0 != last.0 {
        assert r[i].0 != r[|r| - 1].0;
      }
    }
  }

  /** An entry that was cut off is counted at most as often as those that stay. */
  lemma {:induction false} CutOff(full: seq<Entry>, n: nat, k: string, i: nat) returns (j: nat)
    requires n <= |full| && Descending(full) && k in KeysOf(full) && k !in KeysOf(full[..n]) && i < n
    ensures j < |full| && full[j].0 == k && full[j].1 <= full[i].1
  {
    assert forall m | 0 <= m < n :: full[m].0 in KeysOf(full[..n]) by {
      forall m | 0 <= m < n ensures full[m].0 in KeysOf(full[..n]) {
        assert full[..n][m].0 == full[m].0;
      }
    }
    j :| 0 <= j < |full| && full[j].0 == k;
  }

  lemma {:induction false} PrefixRanks(ks: seq<string>, full: seq<Entry>, n: nat)
    requires Ranks(ks, full) && n <= |full|
    ensures Ranks(ks, full[..n])
  {
  }

  /** Cutting a sorted listing leaves a top list. */
  lemma {:induction false} CutIsTop(ks: seq<string>, full: seq<Entry>, n: int)
    requires multiset(full) == multiset(CountMap(ks).Items) && Descending(full)
    ensures IsTop(ks, n, if 0 < n < |full| then full[..n] else full)
  {
    ListedOnce(ks, full);
    DistinctSize(full);
    hide CountMap, KeysOf, Keys, Count, Descending, DistinctKeys;
    assert Ranks(ks, full);
    forall k | k in ks ensures k in KeysOf(full) {
      InKeys(ks, k);
    }
    if 0 < n < |full| {
      var r := full[..n];
      PrefixRanks(ks, full, n);
      forall k, i | k in ks && k !in KeysOf(r) && 0 <= i < |r| ensures Count(ks, k) <= r[i].1 {
        var j := CutOff(full, n, k, i);
      }
    }
  }

  lemma {:induction false} InKeys(ks: seq<string>, k: string)
    ensures k in Keys(ks) <==> k in ks
  {
  }

  method TopKeys(ks: seq<string>, n: int) returns (r: seq<Entry>)
    ensures IsTop(ks, n, r)
  {
    var counts := CountKeys(ks);
    var list := EntriesInAnyOrder(counts);
    var a := new Entry[|list|](i requires 0 <= i < |list| => list[i]);
    assert a[..] == list;
    SortByCount(a);
    r := a[..];
    CutIsTop(ks, r, n);
    if n > 0 && n < |r| {
      r := r[..n];
    }
  }

  // ---- consequences -----------------------------------------------------------------------

  lemma {:induction false} SubsetSize<T>(a: set<T>, b: set<T>)
    requires a <= b
    ensures |a| <= |b|
  {
    if a != {} {
      var x :| x in a;
      SubsetSize(a - {x}, b - {x});
    }
  }

  /** Ties may be broken in any way, but the counts in a top list are determined. */
  lemma {:induction false} TopCountsUnique(ks: seq<string>, n: int, r: seq<Entry>, s: seq<Entry>, i: nat)
    requires IsTop(ks, n, r) && IsTop(ks, n, s) && i < |r|
    ensures |s| == |r| && r[i].1 == s[i].1
  {
    TopCountsBelow(ks, n, r, s, i);
    TopCountsBelow(ks, n, s, r, i);
  }

  /** If s had a larger count at i, its first i + 1 keys would all be among the first i of r. */
  lemma {:induction false} KeysWithin(ks: seq<string>, n: int, r: seq<Entry>, s: seq<Entry>, i: nat, k: string)
    requires IsTop(ks, n, r) && IsTop(ks, n, s) && i < |r| && s[i].1 > r[i].1 && k in KeysOf(s[..i + 1])
    ensures k in KeysOf(r[..i])
  {
    hide Count, Keys;
    var many, few := s[..i + 1], r[..i];
    var j :| 0 <= j < |many| && many[j].0 == k;
    assert s[j].0 == k && s[j].1 >= s[i].1;
    assert k in KeysOf(r);
    var m :| 0 <= m < |r| && r[m].0 == k;
    assert r[m].1 == s[j].1;
    assert few[m].0 == k;
  }

  lemma {:induction false} TopCountsBelow(ks: seq<string>, n: int, r: seq<Entry>, s: seq<Entry>, i: nat)
    requires IsTop(ks, n, r) && IsTop(ks, n, s) && i < |r|
    ensures s[i].1 <= r[i].1
  {
    hide KeysOf, Count, Keys, Descending;
    if s[i].1 > r[i].1 {
      var many, few := s[..i + 1], r[..i];
      DistinctSize(many);
      DistinctSize(few);
      forall k | k in KeysOf(many) ensures k in KeysOf(few) {
        KeysWithin(ks, n, r, s, i, k);
      }
      SubsetSize(KeysOf(many), KeysOf(few));
    }
  }

  function SumEntries(r: seq<Entry>): nat {
    if r == [] then 0 else r[0].1 + SumEntries(r[1..])
  }

  lemma {:induction false} SumEntriesIsCounts(ks: seq<string>, r: seq<Entry>)
    requires forall i | 0 <= i < |r| :: r[i].1 == Count(ks, r[i].0)
    ensures SumEntries(r) == SumCounts(ks, Map(r, (e: Entry) => e.0))
  {
    if r != [] {
      SumEntriesIsCounts(ks, r[1..]);
      var keys := Map(r, (e: Entry) => e.0);
      assert keys[1..] == Map(r[1..], (e: Entry) => e.0);
    }
  }

  /** An untruncated list names every key and its counts sum to the number of elements. */
  lemma {:induction false} FullTop(ks: seq<string>, n: int, r: seq<Entry>)
    requires IsTop(ks, n, r) && (n <= 0 || n >= |Keys(ks)|)
    ensures KeysOf(r) == Keys(ks) && SumEntries(r) == |ks|
  {
    hide Count;
    DistinctSize(r);
    FullSubset(KeysOf(r), Keys(ks));
    var order := Map(r, (e: Entry) => e.0);
    SumEntriesIsCounts(ks, r);
    forall k | k in ks ensures k in order {
      assert k in KeysOf(r);
      var i :| 0 <= i < |r| && r[i].0 == k;
      assert order[i] == k;
    }
    SumAll(ks, order);
  }

  lemma {:induction false} FullSubset<T>(a: set<T>, b: set<T>)
    requires a <= b && |a| == |b|
    ensures a == b
  {
    assert b == a + (b - a);
    assert |b| == |a| + |b - a|;
  }

  // ---- suspicious keys --------------------------------------------------------------------

  /** The keys counted more often than the threshold, in any order. */
  ghost predicate AreSuspicious(ks: seq<string>, threshold: int, r: seq<string>) {
    && Distinct(r)
    && forall k :: k in r <==> k in ks && Count(ks, k) > threshold
  }

  method SuspiciousKeys(ks: seq<string>, threshold: int) returns (r: seq<string>)
    ensures AreSuspicious(ks, threshold, r)
  {
    var counts := CountKeys(ks);
    var list := EntriesInAnyOrder(counts);
    ListedOnce(ks, list);
    r := [];
    var i := 0;
    while i < |list|
      invariant 0 <= i <= |list|
      invariant Distinct(r)
      invariant forall k :: k in r <==> exists j | 0 <= j < i :: list[j].0 == k && list[j].1 > threshold
    {
      if list[i].1 > threshold {
        assert list[i].0 !in r;
        r := r + [list[i].0];
      }
      i := i + 1;
    }
    forall k ensures k in r <==> k in ks && Count(ks, k) > threshold {
      if k in ks {
        assert k in KeysOf(list);
        var j :| 0 <= j < |list| && list[j].0 == k;
      }
    }
  }

  /** How many leading entries exceed the threshold. */
  function Exceeding(r: seq<Entry>, threshold: int): (n: nat)
    ensures n <= |r|
  {
    if r == [] || r[0].1 <= threshold then 0 else 1 + Exceeding(r[1..], threshold)
  }

  lemma {:induction false} ExceedingExact(r: seq<Entry>, threshold: int)
    requires Descending(r)
    ensures forall i | 0 <= i < |r| :: i < Exceeding(r, threshold) <==> r[i].1 > threshold
  {
    if r != [] && r[0].1 > threshold {
      ExceedingExact(r[1..], threshold);
      forall i | 0 <= i < |r| ensures i < Exceeding(r, threshold) <==> r[i].1 > threshold {
        if i > 0 {
          assert r[i] == r[1..][i - 1];
        }
      }
    }
  }

  /** A key is suspicious exactly when it stands among the leading entries that exceed the threshold. */
  lemma {:induction false} SuspiciousInPrefix(ks: seq<string>, threshold: int, suspicious: seq<string>,
                                              top: seq<Entry>, k: string)
    requires AreSuspicious(ks, threshold, suspicious) && IsTop(ks, 0, top) && KeysOf(top) == Keys(ks)
    ensures k in suspicious <==> k in KeysOf(top[..Exceeding(top, threshold)])
  {
    hide Count, Exceeding;
    var prefix := top[..Exceeding(top, threshold)];
    ExceedingExact(top, threshold);
    if k in suspicious {
      assert k in KeysOf(top);
      var i :| 0 <= i < |top| && top[i].0 == k;
      assert prefix[i].0 == k;
    }
    if k in KeysOf(prefix) {
      var i :| 0 <= i < |prefix| && prefix[i].0 == k;
      assert top[i].0 == k;
    }
  }

  /** The suspicious keys are those of the longest prefix of the full ranking above the threshold. */
  lemma {:induction false} SuspiciousIsPrefix(ks: seq<string>, threshold: int, suspicious: seq<string>, top: seq<Entry>)
    requires AreSuspicious(ks, threshold, suspicious) && IsTop(ks, 0, top)
    ensures (set k | k in suspicious) == KeysOf(top[..Exceeding(top, threshold)])
    ensures |suspicious| == Exceeding(top, threshold)
  {
    hide Count, Keys, KeysOf, Exceeding;
    var prefix := top[..Exceeding(top, threshold)];
    FullTop(ks, 0, top);
    forall k ensures k in suspicious <==> k in KeysOf(prefix) {
      SuspiciousInPrefix(ks, threshold, suspicious, top, k);
    }
    DistinctSize(prefix);
    DistinctSeqSize(suspicious);
    assert (set k | k in suspicious) == KeysOf(prefix);
  }

  lemma {:induction false} DistinctSeqSize<T>(r: seq<T>)
    requires Distinct(r)
    ensures |set k | k in r| == |r|
  {
    if r != [] {
      var front, last := r[..|r| - 1], r[|r| - 1];
      DistinctSeqSize(front);
      assert r == front + [last];
      assert (set k | k in r) == (set k | k in front) + {last};
    } else {
      assert (set k | k in r) == {};
    }
  }
}
