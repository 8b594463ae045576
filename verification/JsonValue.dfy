/** The value tree of the parser, the sorted map its objects are kept in, and how many values a
    tree holds. */
module JsonTree {
  import opened Text
  import opened Decimal

  datatype JsonValue =
    | Null
    | Boolean(b: bool)
    | Number(n: Numeric)
    | String(s: string)
    | Array(items: seq<JsonValue>)
    | Object(members: seq<Member>)

  /** One binding of a std::map<std::string, JsonValue>. */
  datatype Member = Member(key: string, value: JsonValue)

  /** The bindings of a std::map in iteration order: keys strictly ascending. */
  ghost predicate Sorted(ms: seq<Member>) {
    forall i, j | 0 <= i < j < |ms| :: Less(ms[i].key, ms[j].key)
  }

  /** Every object in the tree is a std::map. */
  ghost predicate WellFormed(v: JsonValue) {
    match v
    case Array(items) => forall i | 0 <= i < |items| :: WellFormed(items[i])
    case Object(ms) => Sorted(ms) && forall i | 0 <= i < |ms| :: WellFormed(ms[i].value)
    case _ => true
  }

  /** obj[key] = value: replaces the binding of key, or inserts one at its place in the order. */
  function Put(ms: seq<Member>, key: string, value: JsonValue): seq<Member> {
    if ms == [] || Less(key, ms[0].key) then [Member(key, value)] + ms
    else if key == ms[0].key then [Member(key, value)] + ms[1..]
    else [ms[0]] + Put(ms[1..], key, value)
  }

  /** objectValue.at(key): the bound value, or std::out_of_range. */
  function Lookup(ms: seq<Member>, key: string): Option<JsonValue> {
    if ms == [] then None
    else if ms[0].key == key then Some(ms[0].value)
    else Lookup(ms[1..], key)
  }

  lemma {:induction false} PutMembers(ms: seq<Member>, key: string, value: JsonValue)
    ensures forall m | m in Put(ms, key, value) :: m == Member(key, value) || m in ms
  {
    if ms == [] || Less(key, ms[0].key) || key == ms[0].key {
    } else {
      PutMembers(ms[1..], key, value);
    }
  }

  lemma {:induction false} PutSorted(ms: seq<Member>, key: string, value: JsonValue)
    requires Sorted(ms)
    ensures Sorted(Put(ms, key, value))
  {
    if ms == [] {
    } else if Less(key, ms[0].key) {
      forall j | 0 <= j < |ms| ensures Less(key, ms[j].key) {
        if j > 0 {
          LessTransitive(key, ms[0].key, ms[j].key);
        }
      }
    } else if key == ms[0].key {
    } else {
      PutSorted(ms[1..], key, value);
      PutMembers(ms[1..], key, value);
      LessTotal(key, ms[0].key);
      var r := Put(ms[1..], key, value);
      forall j | 0 <= j < |r| ensures Less(ms[0].key, r[j].key) {
        assert r[j] in r;
      }
    }
  }

  lemma {:induction false} PutWellFormed(ms: seq<Member>, key: string, value: JsonValue)
    requires WellFormed(Object(ms)) && WellFormed(value)
    ensures WellFormed(Object(Put(ms, key, value)))
  {
    PutSorted(ms, key, value);
    PutMembers(ms, key, value);
    var r := Put(ms, key, value);
    forall i | 0 <= i < |r| ensures WellFormed(r[i].value) {
      assert r[i] in r;
    }
  }

  /** The assignment seen through lookups: the new value at key, everything else unchanged. */
  lemma {:induction false} PutLookup(ms: seq<Member>, key: string, value: JsonValue, other: string)
    requires Sorted(ms)
    ensures Lookup(Put(ms, key, value), other)
         == if other == key then Some(value) else Lookup(ms, other)
  {
    if ms == [] || key == ms[0].key || Less(key, ms[0].key) {
      LessIrreflexive(key);
      var r := Put(ms, key, value);
      assert ms != [] && key == ms[0].key ==> r[1..] == ms[1..];
      assert ms == [] || Less(key, ms[0].key) ==> r[1..] == ms;
    } else {
      PutLookup(ms[1..], key, value, other);
    }
  }

  /** A new key goes between the keys below it and the keys above it. */
  lemma {:induction false} PutBetween(below: seq<Member>, above: seq<Member>, key: string, value: JsonValue)
    requires forall i | 0 <= i < |below| :: Less(below[i].key, key)
    requires above != [] ==> Less(key, above[0].key)
    ensures Put(below + above, key, value) == below + [Member(key, value)] + above
  {
    hide Less;
    if below == [] {
      assert below + above == above;
    } else {
      LessAsymmetric(below[0].key, key);
      LessIrreflexive(key);
      assert (below + above)[1..] == below[1..] + above;
      PutBetween(below[1..], above, key, value);
    }
  }

  /** Assigning a key above all others appends it. */
  lemma {:induction false} PutLast(ms: seq<Member>, key: string, value: JsonValue)
    requires Sorted(ms + [Member(key, value)])
    ensures Put(ms, key, value) == ms + [Member(key, value)]
  {
    if ms != [] {
      var all := ms + [Member(key, value)];
      assert Less(all[0].key, all[|ms|].key);
      LessAsymmetric(ms[0].key, key);
      LessIrreflexive(key);
      assert all[1..] == ms[1..] + [Member(key, value)];
      PutLast(ms[1..], key, value);
    }
  }

  /** Two maps that answer every lookup alike hold the same bindings in the same order. */
  lemma {:induction false} MapExtensional(a: seq<Member>, b: seq<Member>)
    requires Sorted(a) && Sorted(b)
    requires forall key :: Lookup(a, key) == Lookup(b, key)
    ensures a == b
  {
    assert a != [] ==> Lookup(a, a[0].key) == Some(a[0].value);
    assert b != [] ==> Lookup(b, b[0].key) == Some(b[0].value);
    if a != [] && b != [] {
      LookupAbove(a, b[0].key);
      LookupAbove(b, a[0].key);
      LessTotal(a[0].key, b[0].key);
      forall key ensures Lookup(a[1..], key) == Lookup(b[1..], key) {
        assert Lookup(a, key) == Lookup(b, key);
        if key == a[0].key {
          LessIrreflexive(key);
          LookupAbove(a[1..], key);
          LookupAbove(b[1..], key);
        }
      }
      MapExtensional(a[1..], b[1..]);
      assert a == [a[0]] + a[1..] && b == [b[0]] + b[1..];
    }
  }

  /** A key below the first one, or missing below all, is not bound. */
  lemma {:induction false} LookupAbove(ms: seq<Member>, key: string)
    requires Sorted(ms)
    ensures (forall i | 0 <= i < |ms| :: Less(key, ms[i].key)) ==> Lookup(ms, key) == None
    ensures ms != [] && Less(key, ms[0].key) ==> Lookup(ms, key) == None
  {
    if ms != [] {
      LookupAbove(ms[1..], key);
      LessIrreflexive(key);
      if Less(key, ms[0].key) && |ms| > 1 {
        LessTransitive(key, ms[0].key, ms[1].key);
      }
    }
  }

  /** How many values a tree holds, itself included. */
  function Nodes(v: JsonValue): nat {
    match v
    case Array(items) => 1 + ItemNodes(items)
    case Object(ms) => 1 + MemberNodes(ms)
    case _ => 1
  }

  function ItemNodes(items: seq<JsonValue>): nat {
    if items == [] then 0 else Nodes(items[0]) + ItemNodes(items[1..])
  }

  function MemberNodes(ms: seq<Member>): nat {
    if ms == [] then 0 else Nodes(ms[0].value) + MemberNodes(ms[1..])
  }

  lemma {:induction false} PutNodes(ms: seq<Member>, key: string, value: JsonValue)
    ensures MemberNodes(Put(ms, key, value)) <= MemberNodes(ms) + Nodes(value)
  {
    if ms == [] || Less(key, ms[0].key) {
      assert Put(ms, key, value)[1..] == ms;
    } else if key == ms[0].key {
      assert Put(ms, key, value)[1..] == ms[1..];
    } else {
      PutNodes(ms[1..], key, value);
      assert Put(ms, key, value)[1..] == Put(ms[1..], key, value);
    }
  }
}
