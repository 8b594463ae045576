module Copies {
  // What passing values by copy costs: every level of a tree copies the subtrees below it again.

  import opened Text
  import opened JsonTree
  import opened ParserSpec

  /** The values copied while a tree is assembled: each child when it is stored in its local container,
      and again when the container is copied into the tree. */
  function Copied(v: JsonValue): nat {
    match v
    case Array(items) => ItemsCopied(items) + ItemNodes(items)
    case Object(ms) => MembersCopied(ms) + MemberNodes(ms)
    case _ => 0
  }

  function ItemsCopied(items: seq<JsonValue>): nat {
    if items == [] then 0 else Copied(items[0]) + Nodes(items[0]) + ItemsCopied(items[1..])
  }

  function MembersCopied(ms: seq<Member>): nat {
    if ms == [] then 0 else Copied(ms[0].value) + Nodes(ms[0].value) + MembersCopied(ms[1..])
  }

  function Max(a: nat, b: nat): nat {
    if a < b then b else a
  }

  /** How deep the containers of a tree are nested. */
  function Depth(v: JsonValue): nat {
    match v
    case Array(items) => 1 + ItemsDepth(items)
    case Object(ms) => 1 + MembersDepth(ms)
    case _ => 0
  }

  function ItemsDepth(items: seq<JsonValue>): nat {
    if items == [] then 0 else Max(Depth(items[0]), ItemsDepth(items[1..]))
  }

  function MembersDepth(ms: seq<Member>): nat {
    if ms == [] then 0 else Max(Depth(ms[0].value), MembersDepth(ms[1..]))
  }

  // ---- copies against the depth of the tree -------------------------------------------------------

  /** Where nesting is bounded, copying is linear in the size of the tree. */
  lemma {:induction false} CopiedByDepth(v: JsonValue)
    ensures Copied(v) <= 2 * (Depth(v) * Nodes(v))
    decreases v, 1
  {
    match v {
      case Array(items) =>
        ItemsCopiedByDepth(items, ItemsDepth(items));
        Distribute(1 + ItemsDepth(items), 1, ItemNodes(items));
      case Object(ms) =>
        MembersCopiedByDepth(ms, MembersDepth(ms));
        Distribute(1 + MembersDepth(ms), 1, MemberNodes(ms));
      case _ =>
    }
  }

  lemma {:induction false} Distribute(d: nat, m: nat, n: nat)
    ensures d * (m + n) == d * m + d * n
  {
  }

  lemma {:induction false} Scale(c: nat, d: nat, n: nat)
    ensures c <= d ==> c * n <= d * n
  {
    if c <= d {
      assert (d - c) * n >= 0;
      assert d * n == c * n + (d - c) * n;
    }
  }

  lemma {:induction false} ItemsCopiedByDepth(items: seq<JsonValue>, d: nat)
    requires ItemsDepth(items) <= d
    ensures ItemsCopied(items) + ItemNodes(items) <= 2 * ((1 + d) * ItemNodes(items))
    decreases items, 0
  {
    hide Copied, Depth, Nodes;
    if items != [] {
      CopiedByDepth(items[0]);
      ItemsCopiedByDepth(items[1..], d);
      ChildCost(Copied(items[0]), Depth(items[0]), d, Nodes(items[0]), ItemNodes(items[1..]));
    }
  }

  lemma {:induction false} MembersCopiedByDepth(ms: seq<Member>, d: nat)
    requires MembersDepth(ms) <= d
    ensures MembersCopied(ms) + MemberNodes(ms) <= 2 * ((1 + d) * MemberNodes(ms))
    decreases ms, 0
  {
    hide Copied, Depth, Nodes;
    if ms != [] {
      CopiedByDepth(ms[0].value);
      MembersCopiedByDepth(ms[1..], d);
      ChildCost(Copied(ms[0].value), Depth(ms[0].value), d, Nodes(ms[0].value), MemberNodes(ms[1..]));
    }
  }

  /** A child of depth c costs its own copies and twice its nodes. */
  lemma {:induction false} ChildCost(copied: nat, c: nat, d: nat, n: nat, rest: nat)
    requires copied <= 2 * (c * n) && c <= d
    ensures copied + 2 * n + 2 * ((1 + d) * rest) <= 2 * ((1 + d) * (n + rest))
  {
    Scale(c, d, n);
    Distribute(n, 1, d);
    Distribute(1 + d, n, rest);
  }

  // ---- appending and assigning ------------------------------------------------------------------

  lemma {:induction false} EmptyCost()
    ensures ItemNodes([]) == ItemsCopied([]) == MemberNodes([]) == MembersCopied([]) == 0
    ensures Copied(Array([])) == Copied(Object([])) == 0 && Nodes(Array([])) == Nodes(Object([])) == 1
  {
  }

  lemma {:induction false} ContainerCost(items: seq<JsonValue>, ms: seq<Member>)
    ensures Copied(Array(items)) == ItemsCopied(items) + ItemNodes(items) && Nodes(Array(items)) == 1 + ItemNodes(items)
    ensures Copied(Object(ms)) == MembersCopied(ms) + MemberNodes(ms) && Nodes(Object(ms)) == 1 + MemberNodes(ms)
  {
  }

  lemma {:induction false} AppendItem(items: seq<JsonValue>, v: JsonValue)
    ensures ItemNodes(items + [v]) == ItemNodes(items) + Nodes(v)
    ensures ItemsCopied(items + [v]) == ItemsCopied(items) + Copied(v) + Nodes(v)
  {
    hide Nodes, Copied;
    if items == [] {
      assert [] + [v] == [v];
    } else {
      assert (items + [v])[1..] == items[1..] + [v];
      AppendItem(items[1..], v);
    }
  }

  lemma {:induction false} AssignMember(ms: seq<Member>, key: string, v: JsonValue)
    ensures MembersCopied(Put(ms, key, v)) <= MembersCopied(ms) + Copied(v) + Nodes(v)
  {
    hide Nodes, Copied;
    var r := Put(ms, key, v);
    if ms == [] || Less(key, ms[0].key) {
      assert r[1..] == ms;
    } else if key == ms[0].key {
      assert r[1..] == ms[1..];
    } else {
      AssignMember(ms[1..], key, v);
      assert r[1..] == Put(ms[1..], key, v);
    }
  }

  // ---- how deep the parser goes -------------------------------------------------------------------

  /** How deep the calls of the two container parsers are nested when a value is parsed at pos. */
  function NestingAt(s: string, pos: nat): nat
    requires pos <= |s|
    decreases |s| - pos, 2
  {
    var p := SkipWs(s, pos);
    if p < |s| && s[p] == '[' then ArrayNesting(s, p)
    else if p < |s| && s[p] == '{' then ObjectNesting(s, p)
    else 0
  }

  function ArrayNesting(s: string, pos: nat): nat
    requires pos < |s|
    decreases |s| - pos, 1
  {
    var p := SkipWs(s, pos + 1);
    1 + if CharAt(s, p) == ']' then 0 else ItemsNesting(s, p)
  }

  function ItemsNesting(s: string, pos: nat): nat
    requires pos <= |s|
    decreases |s| - pos, 3
  {
    if pos == |s| then 0 else
    var v := ParseValue(s, pos);
    var p := if v.Ok? then SkipWs(s, v.pos) else |s|;
    Max(NestingAt(s, pos), if CharAt(s, p) == ',' then ItemsNesting(s, p + 1) else 0)
  }

  function ObjectNesting(s: string, pos: nat): nat
    requires pos < |s|
    decreases |s| - pos, 1
  {
    var p := SkipWs(s, pos + 1);
    1 + if CharAt(s, p) == '}' then 0 else PairsNesting(s, p)
  }

  /** Nothing is nested in a member that fails before its value. */
  function PairNesting(s: string, pos: nat): nat
    requires pos <= |s|
    decreases |s| - pos, 3
  {
    var k := SkipWs(s, pos);
    if CharAt(s, k) != '\"' || ParseString(s, k).Err? then 0 else
    var c := SkipWs(s, ParseString(s, k).pos);
    if CharAt(s, c) != ':' then 0 else NestingAt(s, c + 1)
  }

  function PairsNesting(s: string, pos: nat): nat
    requires pos <= |s|
    decreases |s| - pos, 4
  {
    if pos == |s| then 0 else
    var m := ParsePair(s, pos);
    var p := if m.Ok? then SkipWs(s, m.pos) else |s|;
    Max(PairNesting(s, pos), if CharAt(s, p) == ',' then PairsNesting(s, p + 1) else 0)
  }

  lemma {:induction false} ItemsNestingStep(s: string, pos: nat)
    requires pos < |s|
    ensures NestingAt(s, pos) <= ItemsNesting(s, pos)
    ensures var v := ParseValue(s, pos);
            v.Ok? && CharAt(s, SkipWs(s, v.pos)) == ',' ==>
              ItemsNesting(s, SkipWs(s, v.pos) + 1) <= ItemsNesting(s, pos)
  {
    hide NestingAt, ParseValue, SkipWs;
  }

  lemma {:induction false} PairsNestingStep(s: string, pos: nat)
    requires pos < |s|
    ensures PairNesting(s, pos) <= PairsNesting(s, pos)
    ensures var m := ParsePair(s, pos);
            m.Ok? && CharAt(s, SkipWs(s, m.pos)) == ',' ==>
              PairsNesting(s, SkipWs(s, m.pos) + 1) <= PairsNesting(s, pos)
  {
    hide PairNesting, ParsePair, SkipWs;
  }

  // ---- the bounds, level by level -----------------------------------------------------------------

  function Times(a: nat, b: nat): nat {
    a * b
  }

  lemma {:induction false} TimesSum(a: nat, b: nat, c: nat)
    ensures Times(a, b + c) == Times(a, b) + Times(a, c) && Times(a + b, c) == Times(a, c) + Times(b, c)
  {
  }

  lemma {:induction false} TimesMore(a: nat, b: nat, c: nat)
    ensures a <= b ==> Times(a, c) <= Times(b, c) && Times(c, a) <= Times(c, b)
  {
    Scale(a, b, c);
  }

  lemma {:induction false} TimesOne(n: nat)
    ensures Times(1, n) == Times(n, 1) == n && Times(0, n) == Times(n, 0) == 0
  {
  }

  lemma {:induction false} SquareSum(x: nat, y: nat)
    ensures Times(x + y, x + y) == Times(x, x) + Times(y, y) + 2 * Times(x, y)
  {
  }

  /** What n characters read at the given depth may copy; a parse that succeeds stays strictly below a
      quarter of the square. */
  ghost predicate Within(copied: nat, depth: nat, n: nat, ok: bool) {
    4 * copied + (if ok then 1 else 0) <= Times(n, n) && copied <= Times(depth, n)
  }

  lemma {:induction false} WithinNothing(depth: nat, n: nat, ok: bool)
    requires ok ==> n >= 1
    ensures Within(0, depth, n, ok)
  {
  }

  lemma {:induction false} WithinMore(copied: nat, depth: nat, n: nat, more: nat, ok: bool)
    requires Within(copied, depth, n, ok) && n <= more
    ensures Within(copied, depth, more, ok)
  {
    hide Times;
    TimesMore(n, more, n);
    TimesMore(n, more, more);
    TimesMore(n, more, depth);
  }

  lemma {:induction false} WithinLess(less: nat, copied: nat, depth: nat, n: nat)
    requires less <= copied
    ensures forall ok :: Within(copied, depth, n, ok) ==> Within(less, depth, n, ok)
  {
  }

  /** A level that has read x characters and copied spent values reads n more for a child of the given
      size, and a separator. */
  lemma {:induction false} LevelStep(spent: nat, depth: nat, x: nat, below: nat, d: nat, n: nat, size: nat, y: nat)
    requires 1 <= x && Within(spent, 1 + depth, x, true) && Within(below, d, n, true) && d <= depth
    requires 2 * size <= n + 1 && x + n + 1 <= y
    ensures Within(spent + below + 2 * size, 1 + depth, y, true)
  {
    hide Times;
    SquareSum(x, n + 1);
    SquareSum(n, 1);
    TimesMore(1, x, n + 1);
    TimesOne(n + 1);
    TimesOne(n);
    TimesOne(1);
    TimesMore(d, depth, n);
    TimesSum(1, depth, n);
    TimesSum(1 + depth, x, n + 1);
    TimesSum(1 + depth, n, 1);
    TimesOne(1 + depth);
    WithinMore(spent + below + 2 * size, 1 + depth, x + n + 1, y, true);
  }

  /** The same level when it ends with the child, read or not. */
  lemma {:induction false} LevelFails(spent: nat, depth: nat, x: nat, below: nat, d: nat, n: nat, size: nat,
                                      ok: bool, y: nat)
    requires 1 <= x && Within(spent, 1 + depth, x, true) && Within(below, d, n, ok) && d <= depth && x + n <= y
    requires if ok then 2 * size <= n + 1 else size == 0
    ensures Within(spent + below + size, 1 + depth, y, false)
  {
    hide Times;
    SquareSum(x, n);
    TimesMore(1, x, n);
    TimesOne(n);
    TimesMore(d, depth, n);
    TimesSum(1, depth, n);
    TimesSum(1 + depth, x, n);
    WithinMore(spent + below + size, 1 + depth, x + n, y, false);
  }

  /** An element has been read: what the level has copied and holds with it, and without the copy of the
      container when it ends here. */
  lemma {:induction false} ElementRead(arr: seq<JsonValue>, v: JsonValue, copied: nat, depth: nat, x: nat, below: nat,
                                       d: nat, n: nat, y: nat, left: nat)
    requires 1 <= x && Within(copied + ItemNodes(arr), depth, x, true) && Within(below, d, n, true) && d < depth
    requires ItemsCopied(arr) <= copied && 2 * ItemNodes(arr) < x
    requires Copied(v) <= below && 2 * Nodes(v) <= n + 1 && x + n + 1 <= y && x + n <= left
    ensures var now, c := arr + [v], copied + below + Nodes(v);
            && ItemsCopied(now) <= c && 2 * ItemNodes(now) < y
            && Within(c + ItemNodes(now), depth, y, true) && Within(c, depth, left, false)
  {
    hide Times, Within, ItemsCopied, ItemNodes, Copied, Nodes;
    AppendItem(arr, v);
    var spent := copied + ItemNodes(arr);
    LevelStep(spent, depth - 1, x, below, d, n, Nodes(v), y);
    LevelFails(spent, depth - 1, x, below, d, n, Nodes(v), true, left);
    WithinLess(copied + below + Nodes(v), spent + below + Nodes(v), depth, left);
  }

  /** The same for a member that has been read and assigned. */
  lemma {:induction false} MemberRead(obj: seq<Member>, m: Member, copied: nat, depth: nat, x: nat, below: nat,
                                      d: nat, n: nat, y: nat, left: nat)
    requires 1 <= x && Within(copied + MemberNodes(obj), depth, x, true) && Within(below, d, n, true) && d < depth
    requires MembersCopied(obj) <= copied && 2 * MemberNodes(obj) < x
    requires Copied(m.value) <= below && 2 * Nodes(m.value) <= n + 1 && x + n + 1 <= y && x + n <= left
    ensures var now, c := Put(obj, m.key, m.value), copied + below + Nodes(m.value);
            && MembersCopied(now) <= c && 2 * MemberNodes(now) < y
            && Within(c + MemberNodes(now), depth, y, true) && Within(c, depth, left, false)
  {
    hide Times, Within, MembersCopied, MemberNodes, Copied, Nodes, Put;
    AssignMember(obj, m.key, m.value);
    PutNodes(obj, m.key, m.value);
    var spent, size := copied + MemberNodes(obj), Nodes(m.value);
    LevelStep(spent, depth - 1, x, below, d, n, size, y);
    LevelFails(spent, depth - 1, x, below, d, n, size, true, left);
    WithinLess(copied + below + size + MemberNodes(Put(obj, m.key, m.value)), spent + below + 2 * size, depth, y);
    WithinLess(copied + below + size, spent + below + size, depth, left);
  }

  /** A child has failed. */
  lemma {:induction false} ChildFailed(copied: nat, held: nat, depth: nat, x: nat, below: nat, d: nat, n: nat)
    requires 1 <= x && Within(copied + held, depth, x, true) && Within(below, d, n, false) && d < depth
    ensures Within(copied + below, depth, x + n, false)
  {
    hide Times, Within;
    LevelFails(copied + held, depth - 1, x, below, d, n, 0, false, x + n);
    WithinLess(copied + below, copied + held + below, depth, x + n);
  }
}
