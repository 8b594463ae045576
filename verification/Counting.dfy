/** Counting occurrences, listing positions and filtering, and the sums that tie them
    together. */
module Counting {

  function Count<T(==)>(ks: seq<T>, k: T): nat {
    if ks == [] then 0
    else Count(ks[..|ks| - 1], k) + (if ks[|ks| - 1] == k then 1 else 0)
  }

  /** The positions of k, in ascending order. */
  function Positions<T(==)>(ks: seq<T>, k: T): seq<nat> {
    if ks == [] then []
    else Positions(ks[..|ks| - 1], k) + (if ks[|ks| - 1] == k then [|ks| - 1] else [])
  }

  function Filter<T>(xs: seq<T>, p: T -> bool): seq<T> {
    if xs == [] then []
    else Filter(xs[..|xs| - 1], p) + (if p(xs[|xs| - 1]) then [xs[|xs| - 1]] else [])
  }

  function Map<T, U>(xs: seq<T>, f: T -> U): (r: seq<U>)
    ensures |r| == |xs| && forall i | 0 <= i < |xs| :: r[i] == f(xs[i])
  {
    seq(|xs|, i requires 0 <= i < |xs| => f(xs[i]))
  }

  /** The elements whose key is k. */
  function KeyIs<T, U(==)>(f: T -> U, k: U): T -> bool {
    x => f(x) == k
  }

  /** The elements whose key is among the given ones. */
  function KeyAmong<T, U(==)>(f: T -> U, order: seq<U>): T -> bool {
    x => f(x) in order
  }

  lemma {:induction false} CountPositive<T>(ks: seq<T>, k: T)
    ensures Count(ks, k) > 0 <==> k in ks
  {
    if ks != [] {
      CountPositive(ks[..|ks| - 1], k);
      assert ks == ks[..|ks| - 1] + [ks[|ks| - 1]];
    }
  }

  // ---- positions --------------------------------------------------------------------------

  lemma {:induction false} PositionsExact<T>(ks: seq<T>, k: T)
    ensures forall i | 0 <= i < |Positions(ks, k)| :: Positions(ks, k)[i] < |ks| && ks[Positions(ks, k)[i]] == k
    ensures forall i, j | 0 <= i < j < |Positions(ks, k)| :: Positions(ks, k)[i] < Positions(ks, k)[j]
    ensures forall i | 0 <= i < |ks| && ks[i] == k :: i in Positions(ks, k)
    ensures |Positions(ks, k)| == Count(ks, k)
  {
    if ks != [] {
      var front := ks[..|ks| - 1];
      PositionsExact(front, k);
      forall i | 0 <= i < |ks| && ks[i] == k ensures i in Positions(ks, k) {
        if i < |front| {
          assert front[i] == k;
        }
      }
    }
  }

  /** Every position is listed under its own key and under no other. */
  lemma {:induction false} PositionsPartition<T>(ks: seq<T>, i: nat, k: T)
    requires i < |ks|
    ensures i in Positions(ks, k) <==> k == ks[i]
  {
    PositionsExact(ks, k);
  }

  /** Appending to the list only appends to the positions. */
  lemma {:induction false} PositionsPrefix<T>(a: seq<T>, b: seq<T>, k: T)
    requires a <= b
    ensures Positions(a, k) <= Positions(b, k)
    decreases |b|
  {
    if |a| < |b| {
      PositionsPrefix(a, b[..|b| - 1], k);
    } else {
      assert a == b;
    }
  }

  /** Picking the listed positions is filtering. */
  lemma {:induction false} PickIsFilter<T, U>(xs: seq<T>, f: T -> U, k: U)
    ensures var ps := Positions(Map(xs, f), k);
            && (forall i | 0 <= i < |ps| :: ps[i] < |xs|)
            && seq(|ps|, i requires 0 <= i < |ps| => xs[ps[i]]) == Filter(xs, KeyIs(f, k))
  {
    var ks := Map(xs, f);
    PositionsExact(ks, k);
    if xs != [] {
      var front := xs[..|xs| - 1];
      assert Map(front, f) == ks[..|ks| - 1];
      PickIsFilter(front, f, k);
      FilterStep(xs, KeyIs(f, k));
    }
  }

  lemma {:induction false} FilterStep<T>(xs: seq<T>, p: T -> bool)
    requires xs != []
    ensures Filter(xs, p) == Filter(xs[..|xs| - 1], p) + (if p(xs[|xs| - 1]) then [xs[|xs| - 1]] else [])
  {
  }

  /** Filtering by a key keeps as many elements as the key is counted. */
  lemma {:induction false} CountIsFilter<T, U>(xs: seq<T>, f: T -> U, k: U)
    ensures Count(Map(xs, f), k) == |Filter(xs, KeyIs(f, k))|
  {
    if xs != [] {
      var front := xs[..|xs| - 1];
      assert Map(front, f) == Map(xs, f)[..|xs| - 1];
      CountIsFilter(front, f, k);
      FilterStep(xs, KeyIs(f, k));
    }
  }

  // ---- sums of counts ---------------------------------------------------------------------

  ghost predicate Distinct<T>(order: seq<T>) {
    forall i, j | 0 <= i < j < |order| :: order[i] != order[j]
  }

  function SumCounts<T(==)>(ks: seq<T>, order: seq<T>): nat {
    if order == [] then 0 else Count(ks, order[0]) + SumCounts(ks, order[1..])
  }

  /** Adding one element raises the sum over distinct keys by one if its key is among them. */
  lemma {:induction false} SumStep<T>(ks: seq<T>, order: seq<T>)
    requires ks != [] && Distinct(order)
    ensures SumCounts(ks, order) == SumCounts(ks[..|ks| - 1], order) + (if ks[|ks| - 1] in order then 1 else 0)
    decreases |order|
  {
    if order != [] {
      SumStep(ks, order[1..]);
      assert order == [order[0]] + order[1..];
    }
  }

  /** The counts of distinct keys sum to the number of elements with such a key. */
  lemma {:induction false} SumIsFilter<T, U>(xs: seq<T>, f: T -> U, order: seq<U>)
    requires Distinct(order)
    ensures SumCounts(Map(xs, f), order) == |Filter(xs, KeyAmong(f, order))|
  {
    if xs == [] {
      SumOfNothing(Map(xs, f), order);
    } else {
      var front := xs[..|xs| - 1];
      assert Map(front, f) == Map(xs, f)[..|xs| - 1];
      SumIsFilter(front, f, order);
      SumStep(Map(xs, f), order);
      FilterStep(xs, KeyAmong(f, order));
    }
  }

  /** The counts of distinct keys that cover the list sum to its length. */
  lemma {:induction false} SumAll<T>(ks: seq<T>, order: seq<T>)
    requires Distinct(order) && forall k | k in ks :: k in order
    ensures SumCounts(ks, order) == |ks|
  {
    if ks == [] {
      SumOfNothing(ks, order);
    } else {
      assert ks == ks[..|ks| - 1] + [ks[|ks| - 1]];
      SumAll(ks[..|ks| - 1], order);
      SumStep(ks, order);
    }
  }

  lemma {:induction false} SumOfNothing<T>(ks: seq<T>, order: seq<T>)
    requires ks == []
    ensures SumCounts(ks, order) == 0
    decreases |order|
  {
    if order != [] {
      SumOfNothing(ks, order[1..]);
    }
  }

  lemma {:induction false} FilterSame<T>(xs: seq<T>, p: T -> bool, q: T -> bool)
    requires forall x | x in xs :: p(x) == q(x)
    ensures Filter(xs, p) == Filter(xs, q)
  {
    if xs != [] {
      assert xs == xs[..|xs| - 1] + [xs[|xs| - 1]];
      FilterSame(xs[..|xs| - 1], p, q);
    }
  }

  lemma {:induction false} FilterAll<T>(xs: seq<T>, p: T -> bool)
    requires forall x | x in xs :: p(x)
    ensures Filter(xs, p) == xs
  {
    if xs != [] {
      assert xs == xs[..|xs| - 1] + [xs[|xs| - 1]];
      FilterAll(xs[..|xs| - 1], p);
    }
  }

  function Both<T>(p: T -> bool, q: T -> bool): T -> bool {
    x => p(x) && q(x)
  }

  lemma {:induction false} FilterTwice<T>(xs: seq<T>, p: T -> bool, q: T -> bool)
    ensures Filter(Filter(xs, p), q) == Filter(xs, Both(p, q))
  {
    if xs != [] {
      var front, last := xs[..|xs| - 1], xs[|xs| - 1];
      FilterTwice(front, p, q);
      if p(last) {
        var ys := Filter(front, p) + [last];
        assert Filter(xs, p) == ys && ys[..|ys| - 1] == Filter(front, p);
        FilterStep(ys, q);
      } else {
        assert Filter(xs, p) == Filter(front, p);
      }
    }
  }
}
