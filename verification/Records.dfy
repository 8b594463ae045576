module Records {
  // Which elements of an array asLogEntries reads, and as what, told by what their keys look up.

  import opened Text
  import opened Decimal
  import opened JsonTree
  import opened Meaning
  import opened LogEntries
  import opened LogJson

  /** k is r with its fraction cut off. */
  predicate CutTowardZero(r: real, k: int) {
    if r >= 0.0 then k >= 0 && k as real <= r < (k + 1) as real
    else k <= 0 && (k - 1) as real < r <= k as real
  }

  predicate BoundToString(ms: seq<Member>, key: string, s: string) {
    Lookup(ms, key) == Some(String(s))
  }

  /** The element is an object whose members ts, ip, method and url are the strings of the record, and
      whose member status is a number that is cut to the record's status. */
  predicate RecordAt(v: JsonValue, e: LogEntry) {
    && v.Object?
    && BoundToString(v.members, "ts", e.timestamp) && BoundToString(v.members, "ip", e.ip)
    && BoundToString(v.members, "method", e.httpMethod) && BoundToString(v.members, "url", e.url)
    && Lookup(v.members, "status").Some? && Lookup(v.members, "status").value.Number?
    && CutTowardZero(RealOf(Lookup(v.members, "status").value.n), e.status)
  }

  predicate NoString(ms: seq<Member>, key: string) {
    Lookup(ms, key).None? || !Lookup(ms, key).value.String?
  }

  /** The element is no object, or one of the five members is missing or of another type. */
  predicate NoRecord(v: JsonValue) {
    || !v.Object?
    || NoString(v.members, "ts") || NoString(v.members, "ip")
    || NoString(v.members, "method") || NoString(v.members, "url")
    || Lookup(v.members, "status").None? || !Lookup(v.members, "status").value.Number?
  }

  ghost predicate Rising(ps: seq<nat>, n: nat) {
    (forall k | 0 <= k < |ps| :: ps[k] < n) && forall j, k | 0 <= j < k < |ps| :: ps[j] < ps[k]
  }

  /** The records stand at the positions ps, in order, and nothing else is a record. */
  ghost predicate Reads(items: seq<JsonValue>, ps: seq<nat>, logs: seq<LogEntry>) {
    && |ps| == |logs| && Rising(ps, |items|)
    && (forall k | 0 <= k < |ps| :: RecordAt(items[ps[k]], logs[k]))
    && forall i | 0 <= i < |items| && i !in ps :: NoRecord(items[i])
  }

  // ---- the status -----------------------------------------------------------------------------------

  lemma {:induction false} IntReal(m: int, k: nat)
    ensures Scaled(m as real, k) == (m * Pow10(k)) as real
  {
    hide Mul, Tens, Scaled, Pow10;
    ScaledBy(m as real, k);
    IntMul(m, k);
  }

  lemma {:induction false} ProperFraction(r: real, d: real)
    requires d >= 1.0 && 0.0 <= r < d
    ensures 0.0 <= Over(r, d) < 1.0
  {
    var x := Over(r, d);
    assert x * d == r;
  }

  lemma {:induction false} AsProduct(a: real, b: real)
    ensures Mul(a, b) == a * b
  {
  }

  lemma {:induction false} DivisionReal(n: nat, d: nat)
    requires d > 0
    ensures (n / d) as real <= n as real / d as real < (n / d + 1) as real
  {
    hide Mul;
    var q, r := n / d, n % d;
    assert n == q * d + r;
    RealProduct(q, d);
    AsProduct(q as real, d as real);
    SumOver(Mul(q as real, d as real), r as real, d as real);
    OverProduct(q as real, d as real);
    ProperFraction(r as real, d as real);
  }

  lemma {:induction false} NegatedQuotient(n: real, d: real)
    requires d != 0.0
    ensures (-n) / d == -(n / d)
  {
  }

  lemma {:induction false} CutStatus(x: Numeric)
    ensures CutTowardZero(RealOf(x), TruncToInt(x))
  {
    hide Pow10;
    if x.e >= 0 {
      IntReal(x.m, x.e);
      SignOfProduct(x.m, Pow10(x.e));
    } else {
      var n, d := Abs(x.m), Pow10(-x.e);
      DivisionReal(n, d);
      NegatedQuotient(n as real, d as real);
      assert x.m < 0 ==> x.m as real == -(n as real);
      NotNegative(n, d);
    }
  }

  lemma {:induction false} SignOfProduct(m: int, p: nat)
    requires p >= 1
    ensures m >= 0 ==> m * p >= 0
    ensures m < 0 ==> m * p < 0
  {
  }

  lemma {:induction false} NotNegative(n: nat, d: nat)
    requires d > 0
    ensures n as real / d as real >= 0.0 && (n > 0 ==> n as real / d as real > 0.0)
  {
  }

  lemma {:induction false} CutUnique(r: real, j: int, k: int)
    requires CutTowardZero(r, j) && CutTowardZero(r, k)
    ensures j == k
  {
  }

  // ---- the records ------------------------------------------------------------------------------------

  lemma {:induction false} EntryRead(v: JsonValue)
    ensures EntryOf(v).Some? ==> RecordAt(v, EntryOf(v).value)
    ensures EntryOf(v).None? ==> NoRecord(v)
  {
    hide Lookup, TruncToInt, RealOf, CutTowardZero;
    if v.Object? && Lookup(v.members, "status").Some? && Lookup(v.members, "status").value.Number? {
      CutStatus(Lookup(v.members, "status").value.n);
    }
  }

  lemma {:induction false} RecordOnly(v: JsonValue, e: LogEntry, f: LogEntry)
    requires RecordAt(v, e)
    ensures !NoRecord(v) && (RecordAt(v, f) ==> e == f)
  {
    hide Lookup, RealOf, CutTowardZero;
    if RecordAt(v, f) {
      CutUnique(RealOf(Lookup(v.members, "status").value.n), e.status, f.status);
    }
  }

  function Shifted(ps: seq<nat>): (r: seq<nat>)
    ensures |r| == |ps| && forall k | 0 <= k < |ps| :: r[k] == ps[k] + 1
  {
    seq(|ps|, k requires 0 <= k < |ps| => ps[k] + 1)
  }

  lemma {:induction false} ShiftedIn(ps: seq<nat>, i: nat)
    ensures i in ps ==> i + 1 in Shifted(ps)
  {
    if i in ps {
      var k :| 0 <= k < |ps| && ps[k] == i;
      assert Shifted(ps)[k] == i + 1;
    }
  }

  lemma {:induction false} ReadsMore(items: seq<JsonValue>, ps: seq<nat>, logs: seq<LogEntry>)
    requires items != [] && Reads(items[1..], ps, logs)
    ensures EntryOf(items[0]).Some? ==> Reads(items, [0] + Shifted(ps), [EntryOf(items[0]).value] + logs)
    ensures EntryOf(items[0]).None? ==> Reads(items, Shifted(ps), logs)
  {
    hide EntryOf, RecordAt, NoRecord;
    EntryRead(items[0]);
    var qs := Shifted(ps);
    forall i | 0 < i < |items| && i !in qs ensures NoRecord(items[i]) {
      ShiftedIn(ps, i - 1);
      assert items[1..][i - 1] == items[i];
    }
    forall k | 0 <= k < |qs| ensures RecordAt(items[qs[k]], logs[k]) {
      assert items[1..][ps[k]] == items[qs[k]];
    }
  }

  lemma {:induction false} ReadsEntries(items: seq<JsonValue>) returns (ps: seq<nat>)
    ensures Reads(items, ps, EntriesOf(items))
  {
    hide EntryOf, Reads;
    if items == [] {
      ps := [];
      NothingToRead();
    } else {
      var qs := ReadsEntries(items[1..]);
      ReadsMore(items, qs, EntriesOf(items[1..]));
      ps := (if EntryOf(items[0]).Some? then [0] else []) + Shifted(qs);
      if EntryOf(items[0]).None? {
        assert [] + Shifted(qs) == Shifted(qs);
        assert [] + EntriesOf(items[1..]) == EntriesOf(items[1..]);
      }
    }
  }

  lemma {:induction false} NothingToRead()
    ensures Reads([], [], [])
  {
  }

  /** asLogEntries throws on a value that is no array; otherwise it reads exactly the records in it. */
  lemma {:induction false} ImportSpelled(v: JsonValue)
    ensures LogEntriesOf(v).Some? <==> v.Array?
    ensures v.Array? ==> exists ps :: Reads(v.items, ps, LogEntriesOf(v).value)
  {
    hide Reads, EntriesOf;
    if v.Array? {
      var ps := ReadsEntries(v.items);
    }
  }

  // ---- there is only one way to read an array -----------------------------------------------------------

  /** Two ascending lists of the same positions are the same list. */
  lemma {:induction false} RisingSame(ps: seq<nat>, qs: seq<nat>, n: nat)
    requires Rising(ps, n) && Rising(qs, n) && forall i | 0 <= i < n :: i in ps <==> i in qs
    ensures ps == qs
    decreases n
  {
    if n == 0 {
      assert ps == [] && qs == [];
    } else {
      LastPosition(ps, n);
      LastPosition(qs, n);
      assert n - 1 in ps <==> n - 1 in qs;
      var p := if n - 1 in ps then ps[..|ps| - 1] else ps;
      var q := if n - 1 in qs then qs[..|qs| - 1] else qs;
      forall i | 0 <= i < n - 1 ensures i in p <==> i in q {
        assert i in ps <==> i in qs;
      }
      RisingSame(p, q, n - 1);
      if n - 1 in ps {
        assert ps == p + [n - 1] && qs == q + [n - 1];
      }
    }
  }

  lemma {:induction false} LastPosition(ps: seq<nat>, n: nat)
    requires n > 0 && Rising(ps, n)
    ensures var front := if n - 1 in ps then ps[..|ps| - 1] else ps;
            && (n - 1 in ps ==> ps[|ps| - 1] == n - 1)
            && Rising(front, n - 1) && forall i | 0 <= i < n - 1 :: i in front <==> i in ps
  {
    if n - 1 in ps {
      var k :| 0 <= k < |ps| && ps[k] == n - 1;
      assert ps[k] <= ps[|ps| - 1];
      assert ps == ps[..|ps| - 1] + [n - 1];
    }
  }

  lemma {:induction false} ReadsUnique(items: seq<JsonValue>, ps: seq<nat>, logs: seq<LogEntry>, qs: seq<nat>,
                                       more: seq<LogEntry>)
    requires Reads(items, ps, logs) && Reads(items, qs, more)
    ensures ps == qs && logs == more
  {
    hide RecordAt, NoRecord;
    forall i | 0 <= i < |items| ensures i in ps <==> i in qs {
      if i in ps {
        var k :| 0 <= k < |ps| && ps[k] == i;
        RecordOnly(items[i], logs[k], logs[k]);
      }
      if i in qs {
        var k :| 0 <= k < |qs| && qs[k] == i;
        RecordOnly(items[i], more[k], more[k]);
      }
    }
    RisingSame(ps, qs, |items|);
    forall k | 0 <= k < |ps| ensures logs[k] == more[k] {
      RecordOnly(items[ps[k]], logs[k], more[k]);
    }
  }
}
