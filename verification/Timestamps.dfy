/** TimeUtils: reading and writing ISO timestamps, and comparing them as strings. */
module Timestamps {
  import opened Text
  import opened Decimal
  import opened LogEntries
  import P = ParserSpec
  import Scanning

  /** std::tm: years since 1900, months since January. */
  datatype Tm = Tm(year: int, mon: int, mday: int, hour: int, min: int, sec: int)

  // ---- sscanf -----------------------------------------------------------------------------

  /** %d: white space, an optional sign and at least one digit. */
  function ScanInt(s: string, pos: nat): Option<(int, nat)>
    requires pos <= |s|
  {
    var p := P.SkipWs(s, pos);
    var q := P.AfterSign(s, p);
    var end := P.SkipDigits(s, q);
    if end == q then None else Some((Signed(q > p && s[p] == '-', DigitsValue(s[q..end])), end))
  }

  /** The literal characters between the conversions of "%d-%d-%dT%d:%d:%dZ". */
  const MARKS := "--T::Z"

  /** The numbers assigned from the k-th conversion on; scanning stops at the first mismatch. */
  function ScanFields(s: string, pos: nat, k: nat): (r: seq<int>)
    requires pos <= |s| && k <= 6
    ensures |r| <= 6 - k
    decreases 6 - k
  {
    if k == 6 then [] else
    match ScanInt(s, pos)
    case None => []
    case Some((n, p)) =>
      if p < |s| && s[p] == MARKS[k] then [n] + ScanFields(s, p + 1, k + 1) else [n]
  }

  function FieldOr0(fields: seq<int>, k: nat): int {
    if k < |fields| then fields[k] else 0
  }

  function ParseISOTimestamp(ts: string): Tm {
    var f := ScanFields(ts, 0, 0);
    Tm(FieldOr0(f, 0) - 1900, FieldOr0(f, 1) - 1, FieldOr0(f, 2), FieldOr0(f, 3), FieldOr0(f, 4), FieldOr0(f, 5))
  }

  // ---- snprintf ---------------------------------------------------------------------------

  /** %0wd */
  function Pad(n: int, w: nat): string {
    var t := NatText(Abs(n));
    var sign := if n < 0 then "-" else "";
    var used := |sign| + |t|;
    sign + Repeat('0', if used < w then w - used else 0) + t
  }

  function FullText(t: Tm): string {
    Pad(t.year + 1900, 4) + "-" + Pad(t.mon + 1, 2) + "-" + Pad(t.mday, 2) + "T"
    + Pad(t.hour, 2) + ":" + Pad(t.min, 2) + ":" + Pad(t.sec, 2) + "Z"
  }

  /** A buffer of 20 bytes holds 19 characters and the terminating NUL. */
  function FormatISOTimestamp(t: Tm): string {
    var full := FullText(t);
    if |full| > 19 then full[..19] else full
  }

  predicate IsEarlier(t1: string, t2: string) {
    Less(t1, t2)
  }

  predicate IsLater(t1: string, t2: string) {
    Less(t2, t1)
  }

  // ---- the order of times -----------------------------------------------------------------

  function Fields(t: Tm): seq<int> {
    [t.year, t.mon, t.mday, t.hour, t.min, t.sec]
  }

  /** The first field that differs decides. */
  predicate FieldsBefore(a: seq<int>, b: seq<int>)
    requires |a| == |b|
  {
    a != [] && (a[0] < b[0] || (a[0] == b[0] && FieldsBefore(a[1..], b[1..])))
  }

  // ---- the digit groups of a well-shaped timestamp ----------------------------------------

  /** The text of the k-th group of digits. */
  function Group(ts: string, k: nat): string
    requires ValidTimestamp(ts) && k < 6
  {
    if k == 0 then ts[0..4] else ts[2 + 3 * k..4 + 3 * k]
  }

  lemma {:induction false} GroupDigits(ts: string, k: nat)
    requires ValidTimestamp(ts) && k < 6
    ensures AllDigits(Group(ts, k))
  {
    var from := if k == 0 then 0 else 2 + 3 * k;
    forall i | 0 <= i < |Group(ts, k)| ensures IsDigit(Group(ts, k)[i]) {
      assert MatchesShape(ts[from + i], ISO_SHAPE[from + i]);
    }
  }

  /** What stands behind the k-th group. */
  lemma {:induction false} MarkBehind(ts: string, k: nat)
    requires ValidTimestamp(ts) && k < 6
    ensures ts[4 + 3 * k] == MARKS[k]
  {
    assert MatchesShape(ts[4 + 3 * k], ISO_SHAPE[4 + 3 * k]);
  }

  function GroupStart(k: nat): nat {
    if k == 0 then 0 else 2 + 3 * k
  }

  // ---- timestamps that break off ------------------------------------------------------------------

  /** Where the k-th number of a timestamp ends. */
  function GroupEnd(k: nat): nat {
    4 + 3 * k
  }

  /** What is left of the k-th number in the first n characters; 0 when it does not begin there. */
  function PartValue(ts: string, n: nat, k: nat): nat
    requires ValidTimestamp(ts) && n <= 20 && k < 6
  {
    if n <= GroupStart(k) then 0
    else if n < GroupEnd(k) then DigitsValue(ts[GroupStart(k)..n])
    else DigitsValue(ts[GroupStart(k)..GroupEnd(k)])
  }

  /** %d on a run of digits that nothing prolongs. */
  lemma {:induction false} ScanRun(s: string, p: nat, end: nat)
    requires p < end <= |s| && AllDigits(s[p..end]) && (end < |s| ==> !IsDigit(s[end]))
    ensures ScanInt(s, p) == Some((DigitsValue(s[p..end]), end))
  {
    hide DigitsValue;
    assert s[p] == s[p..end][0];
    AtSlice(s, p, end);
    Scanning.SkipDigitsOver(s, p, s[p..end]);
  }

  /** %d at the beginning of a group of which the text may hold a part only. */
  lemma {:induction false} ScanPart(ts: string, n: nat, k: nat)
    requires ValidTimestamp(ts) && k < 6 && GroupStart(k) < n <= 20
    ensures var end := if n < GroupEnd(k) then n else GroupEnd(k);
            ScanInt(ts[..n], GroupStart(k)) == Some((PartValue(ts, n, k), end))
  {
    hide DigitsValue, ScanInt;
    var end := if n < GroupEnd(k) then n else GroupEnd(k);
    var g := Group(ts, k);
    GroupDigits(ts, k);
    MarkBehind(ts, k);
    assert ts[..n][GroupStart(k)..end] == ts[GroupStart(k)..end] == g[..end - GroupStart(k)];
    MarkNoDigit(k);
    ScanRun(ts[..n], GroupStart(k), end);
  }

  lemma {:induction false} MarkNoDigit(k: nat)
    requires k < 6
    ensures !IsDigit(MARKS[k])
  {
  }

  lemma {:induction false} FieldsStep(s: string, pos: nat, k: nat, n: int, p: nat)
    requires pos <= |s| && k < 6 && ScanInt(s, pos) == Some((n, p)) && p <= |s|
    ensures FieldOr0(ScanFields(s, pos, k), 0) == n
    ensures var f := ScanFields(s, pos, k);
            if p < |s| && s[p] == MARKS[k]
            then forall i | 0 < i :: FieldOr0(f, i) == FieldOr0(ScanFields(s, p + 1, k + 1), i - 1)
            else forall i | 0 < i :: FieldOr0(f, i) == 0
  {
    hide ScanInt;
  }

  lemma {:induction false} ScanParts(ts: string, n: nat, k: nat, i: nat)
    requires ValidTimestamp(ts) && k <= i < 6 && GroupStart(k) <= n <= 20
    ensures FieldOr0(ScanFields(ts[..n], GroupStart(k), k), i - k) == PartValue(ts, n, i)
    decreases 6 - k
  {
    hide ScanInt, PartValue, ScanFields, FieldOr0;
    var s, p := ts[..n], GroupStart(k);
    LaterParts(ts, n, i);
    if n == p {
      NoDigitsLeft(s, k);
    } else {
      var end := if n < GroupEnd(k) then n else GroupEnd(k);
      ScanPart(ts, n, k);
      FieldsStep(s, p, k, PartValue(ts, n, k), end);
      if n > GroupEnd(k) && k < 5 {
        MarkStands(ts, n, k);
        if i > k {
          ScanParts(ts, n, k + 1, i);
        }
      }
    }
  }

  lemma {:induction false} MarkStands(ts: string, n: nat, k: nat)
    requires ValidTimestamp(ts) && k < 5 && GroupEnd(k) < n <= 20
    ensures ts[..n][GroupEnd(k)] == MARKS[k] && GroupStart(k + 1) == GroupEnd(k) + 1
  {
    MarkBehind(ts, k);
  }

  lemma {:induction false} NoDigitsLeft(s: string, k: nat)
    requires k < 6
    ensures ScanFields(s, |s|, k) == [] && forall i: nat :: FieldOr0(ScanFields(s, |s|, k), i) == 0
  {
  }

  lemma {:induction false} LaterParts(ts: string, n: nat, i: nat)
    requires ValidTimestamp(ts) && n <= 20 && i < 6
    ensures n <= GroupStart(i) ==> PartValue(ts, n, i) == 0
  {
  }

  /** Of a timestamp that breaks off the numbers begun are read as far as they go, and all later fields
      are zero; the year counts from 1900 and the month from January. */
  lemma {:induction false} BrokenTimestamp(ts: string, n: nat)
    requires ValidTimestamp(ts) && n <= 20
    ensures ParseISOTimestamp(ts[..n])
         == Tm(PartValue(ts, n, 0) - 1900, PartValue(ts, n, 1) - 1, PartValue(ts, n, 2), PartValue(ts, n, 3),
               PartValue(ts, n, 4), PartValue(ts, n, 5))
  {
    hide PartValue, ScanFields, FieldOr0;
    ScanParts(ts, n, 0, 0);
    ScanParts(ts, n, 0, 1);
    ScanParts(ts, n, 0, 2);
    ScanParts(ts, n, 0, 3);
    ScanParts(ts, n, 0, 4);
    ScanParts(ts, n, 0, 5);
  }

  function GroupTime(ts: string): Tm
    requires ValidTimestamp(ts)
  {
    Tm(DigitsValue(Group(ts, 0)) - 1900, DigitsValue(Group(ts, 1)) - 1, DigitsValue(Group(ts, 2)),
       DigitsValue(Group(ts, 3)), DigitsValue(Group(ts, 4)), DigitsValue(Group(ts, 5)))
  }

  /** All six fields are read, whether or not the final Z is there. */
  lemma {:induction false} ParsedFields(ts: string, s: string)
    requires ValidTimestamp(ts) && 19 <= |s| <= 20 && s == ts[..|s|]
    ensures ParseISOTimestamp(s) == GroupTime(ts)
  {
    hide DigitsValue, ParseISOTimestamp;
    BrokenTimestamp(ts, |s|);
  }

  // ---- formatting -----------------------------------------------------------------------------

  lemma {:induction false} NatTextStep(n: nat)
    ensures n < 10 ==> NatText(n) == [DigitChar(n)]
    ensures n >= 10 ==> NatText(n) == NatText(n / 10) + [DigitChar(n % 10)]
  {
  }

  lemma {:induction false} LastDigit(t: string)
    requires t != "" && AllDigits(t)
    ensures var n, m := DigitsValue(t), DigitsValue(t[..|t| - 1]);
            n / 10 == m && n % 10 == DigitValue(t[|t| - 1]) && [DigitChar(n % 10)] == [t[|t| - 1]]
  {
    assert DigitChar(DigitValue(t[|t| - 1])) == t[|t| - 1];
  }

  /** Padding the value of a digit group to its width gives the group. */
  lemma {:induction false} PadDigits(t: string)
    requires t != "" && AllDigits(t)
    ensures |NatText(DigitsValue(t))| <= |t|
    ensures Repeat('0', |t| - |NatText(DigitsValue(t))|) + NatText(DigitsValue(t)) == t
  {
    hide NatText, DigitsValue;
    var m, c := t[..|t| - 1], t[|t| - 1];
    var n := DigitsValue(t);
    LastDigit(t);
    NatTextStep(n);
    NatTextStep(n / 10);
    assert t == m + [c];
    if m == "" {
      assert n / 10 == 0 by {
        NoDigits();
      }
      assert Repeat('0', 0) + [c] == [c];
    } else {
      PadDigits(m);
      var k := |m| - |NatText(n / 10)|;
      if n < 10 {
        assert Repeat('0', k) + "0" == Repeat('0', |m|);
      } else {
        assert Repeat('0', k) + (NatText(n / 10) + [c]) == Repeat('0', k) + NatText(n / 10) + [c];
      }
    }
  }

  lemma {:induction false} NoDigits()
    ensures DigitsValue("") == 0
  {
  }

  lemma {:induction false} GroupPadded(ts: string, k: nat)
    requires ValidTimestamp(ts) && k < 6
    ensures Pad(DigitsValue(Group(ts, k)), if k == 0 then 4 else 2) == Group(ts, k)
  {
    GroupDigits(ts, k);
    PadDigits(Group(ts, k));
    var t := NatText(DigitsValue(Group(ts, k)));
    assert "" + Repeat('0', |Group(ts, k)| - |t|) + t == Repeat('0', |Group(ts, k)| - |t|) + t;
  }

  /** A well-shaped timestamp is its digit groups with the marks between them. */
  lemma {:induction false} GroupsJoined(ts: string)
    requires ValidTimestamp(ts)
    ensures ts == Group(ts, 0) + "-" + Group(ts, 1) + "-" + Group(ts, 2) + "T"
                  + Group(ts, 3) + ":" + Group(ts, 4) + ":" + Group(ts, 5) + "Z"
  {
    hide MARKS;
    MarkBehind(ts, 0);
    MarkBehind(ts, 1);
    MarkBehind(ts, 2);
    MarkBehind(ts, 3);
    MarkBehind(ts, 4);
    MarkBehind(ts, 5);
    assert ts == ts[0..4] + [ts[4]] + ts[5..7] + [ts[7]] + ts[8..10] + [ts[10]] + ts[11..13] + [ts[13]]
                 + ts[14..16] + [ts[16]] + ts[17..19] + [ts[19]];
  }

  lemma {:induction false} FullTextBack(ts: string)
    requires ValidTimestamp(ts)
    ensures FullText(GroupTime(ts)) == ts
  {
    hide Pad, Group, DigitsValue, ValidTimestamp;
    GroupPadded(ts, 0);
    GroupPadded(ts, 1);
    GroupPadded(ts, 2);
    GroupPadded(ts, 3);
    GroupPadded(ts, 4);
    GroupPadded(ts, 5);
    GroupsJoined(ts);
  }

  /** Formatting a parsed timestamp gives all of it but the final Z, so the result is not a valid
      timestamp, yet parsing it once more gives the same time. */
  lemma {:induction false} FormatParsed(ts: string)
    requires ValidTimestamp(ts)
    ensures var t := ParseISOTimestamp(ts);
            var s := FormatISOTimestamp(t);
            s == ts[..19] && !ValidTimestamp(s) && ParseISOTimestamp(s) == t
  {
    hide ParseISOTimestamp, FullText, GroupTime;
    assert ts[..20] == ts;
    ParsedFields(ts, ts);
    FullTextBack(ts);
    ParsedFields(ts, ts[..19]);
  }

  // ---- string order is time order -------------------------------------------------------------

  lemma {:induction false} LessBlock(a: string, b: string, x: string, y: string)
    requires |a| == |b|
    ensures Less(a + x, b + y) <==> Less(a, b) || (a == b && Less(x, y))
    decreases |a|
  {
    if a == "" {
      assert a + x == x && b + y == y;
    } else {
      assert (a + x)[1..] == a[1..] + x && (b + y)[1..] == b[1..] + y;
      LessBlock(a[1..], b[1..], x, y);
      assert a == [a[0]] + a[1..] && b == [b[0]] + b[1..];
    }
  }

  /** Digit runs of one length compare like the numbers they stand for. */
  lemma {:induction false} LessDigits(a: string, b: string)
    requires |a| == |b| && AllDigits(a) && AllDigits(b)
    ensures Less(a, b) <==> DigitsValue(a) < DigitsValue(b)
    ensures a == b <==> DigitsValue(a) == DigitsValue(b)
    decreases |a|
  {
    hide Pow10;
    if a != "" {
      LessDigits(a[1..], b[1..]);
      FirstDigit(a);
      FirstDigit(b);
      DigitsValueBound(a[1..]);
      DigitsValueBound(b[1..]);
      var p := Pow10(|a| - 1);
      assert DigitValue(a[0]) < DigitValue(b[0]) ==> DigitValue(a[0]) * p + p <= DigitValue(b[0]) * p by {
        LeadingDigit(DigitValue(a[0]), DigitValue(b[0]), p);
      }
      assert DigitValue(b[0]) < DigitValue(a[0]) ==> DigitValue(b[0]) * p + p <= DigitValue(a[0]) * p by {
        LeadingDigit(DigitValue(b[0]), DigitValue(a[0]), p);
      }
      assert a == [a[0]] + a[1..] && b == [b[0]] + b[1..];
    }
  }

  lemma {:induction false} LeadingDigit(x: nat, y: nat, p: nat)
    ensures x < y ==> x * p + p <= y * p
  {
    if x < y {
      LeadingDigit(x, y - 1, p);
      assert y * p == (y - 1) * p + p;
    }
  }

  lemma {:induction false} FirstDigit(t: string)
    requires t != ""
    ensures DigitsValue(t) == DigitValue(t[0]) * Pow10(|t| - 1) + DigitsValue(t[1..])
  {
    DigitsValueConcat([t[0]], t[1..]);
    assert [t[0]] + t[1..] == t;
    assert [t[0]][..0] == "";
  }

  /** Comparing two groups and what follows them. */
  lemma {:induction false} GroupStep(a: string, b: string, k: nat, x: string, y: string)
    requires ValidTimestamp(a) && ValidTimestamp(b) && k < 6
    ensures var m, n := DigitsValue(Group(a, k)), DigitsValue(Group(b, k));
            Less(Group(a, k) + x, Group(b, k) + y) <==> m < n || (m == n && Less(x, y))
  {
    GroupDigits(a, k);
    GroupDigits(b, k);
    LessDigits(Group(a, k), Group(b, k));
    LessBlock(Group(a, k), Group(b, k), x, y);
  }

  lemma {:induction false} MarkStep(mark: string, x: string, y: string)
    ensures Less(mark + x, mark + y) <==> Less(x, y)
  {
    LessIrreflexive(mark);
    LessBlock(mark, mark, x, y);
  }

  /** The rest of a timestamp from its k-th group on. */
  function Tail(ts: string, k: nat): string
    requires ValidTimestamp(ts) && k <= 6
    decreases 6 - k
  {
    if k == 6 then "" else Group(ts, k) + ([MARKS[k]] + Tail(ts, k + 1))
  }

  function TailValues(ts: string, k: nat): (r: seq<int>)
    requires ValidTimestamp(ts) && k <= 6
    ensures |r| == 6 - k
    decreases 6 - k
  {
    if k == 6 then [] else [DigitsValue(Group(ts, k))] + TailValues(ts, k + 1)
  }

  lemma {:induction false} TailOrder(a: string, b: string, k: nat)
    requires ValidTimestamp(a) && ValidTimestamp(b) && k <= 6
    ensures Less(Tail(a, k), Tail(b, k)) <==> FieldsBefore(TailValues(a, k), TailValues(b, k))
    decreases 6 - k
  {
    hide Group, DigitsValue, ValidTimestamp;
    if k < 6 {
      TailOrder(a, b, k + 1);
      MarkStep([MARKS[k]], Tail(a, k + 1), Tail(b, k + 1));
      GroupStep(a, b, k, [MARKS[k]] + Tail(a, k + 1), [MARKS[k]] + Tail(b, k + 1));
      assert TailValues(a, k)[1..] == TailValues(a, k + 1) && TailValues(b, k)[1..] == TailValues(b, k + 1);
    }
  }

  lemma {:induction false} TailWhole(ts: string)
    requires ValidTimestamp(ts)
    ensures Tail(ts, 0) == ts
  {
    hide Group, Pad, ValidTimestamp;
    GroupsJoined(ts);
    assert Tail(ts, 5) == Group(ts, 5) + ("Z" + "");
    assert Tail(ts, 4) == Group(ts, 4) + (":" + Tail(ts, 5));
    assert Tail(ts, 3) == Group(ts, 3) + (":" + Tail(ts, 4));
    assert Tail(ts, 2) == Group(ts, 2) + ("T" + Tail(ts, 3));
    assert Tail(ts, 1) == Group(ts, 1) + ("-" + Tail(ts, 2));
    assert Tail(ts, 0) == Group(ts, 0) + ("-" + Tail(ts, 1));
  }

  lemma {:induction false} TailFields(ts: string)
    requires ValidTimestamp(ts)
    ensures var v := TailValues(ts, 0);
            Fields(GroupTime(ts)) == [v[0] - 1900, v[1] - 1, v[2], v[3], v[4], v[5]]
  {
    hide Group, DigitsValue;
    assert TailValues(ts, 5) == [DigitsValue(Group(ts, 5))] + TailValues(ts, 6);
    assert TailValues(ts, 4) == [DigitsValue(Group(ts, 4))] + TailValues(ts, 5);
    assert TailValues(ts, 3) == [DigitsValue(Group(ts, 3))] + TailValues(ts, 4);
    assert TailValues(ts, 2) == [DigitsValue(Group(ts, 2))] + TailValues(ts, 3);
    assert TailValues(ts, 1) == [DigitsValue(Group(ts, 1))] + TailValues(ts, 2);
  }

  /** Shifting years and months alike does not change which field differs first. */
  lemma {:induction false} ShiftedBefore(v: seq<int>, w: seq<int>)
    requires |v| == 6 && |w| == 6
    ensures FieldsBefore([v[0] - 1900, v[1] - 1, v[2], v[3], v[4], v[5]],
                         [w[0] - 1900, w[1] - 1, w[2], w[3], w[4], w[5]])
            <==> FieldsBefore(v, w)
  {
    var v', w' := [v[0] - 1900, v[1] - 1, v[2], v[3], v[4], v[5]], [w[0] - 1900, w[1] - 1, w[2], w[3], w[4], w[5]];
    assert v'[1..][1..] == v[1..][1..] && w'[1..][1..] == w[1..][1..];
    assert v'[1..][0] == v[1..][0] - 1 && w'[1..][0] == w[1..][0] - 1;
  }

  /** For well-shaped timestamps the string order isEarlier uses is the order of the times they denote. */
  lemma {:induction false} StringOrderIsTimeOrder(a: string, b: string)
    requires ValidTimestamp(a) && ValidTimestamp(b)
    ensures IsEarlier(a, b) <==> FieldsBefore(Fields(ParseISOTimestamp(a)), Fields(ParseISOTimestamp(b)))
    ensures IsLater(a, b) <==> FieldsBefore(Fields(ParseISOTimestamp(b)), Fields(ParseISOTimestamp(a)))
    ensures a == b <==> ParseISOTimestamp(a) == ParseISOTimestamp(b)
  {
    hide ParseISOTimestamp, Fields, FieldsBefore, GroupTime, TailValues, Tail, Less;
    assert a[..20] == a && b[..20] == b;
    ParsedFields(a, a);
    ParsedFields(b, b);
    TailWhole(a);
    TailWhole(b);
    TailFields(a);
    TailFields(b);
    TailOrder(a, b, 0);
    TailOrder(b, a, 0);
    ShiftedBefore(TailValues(a, 0), TailValues(b, 0));
    ShiftedBefore(TailValues(b, 0), TailValues(a, 0));
    FullTextBack(a);
    FullTextBack(b);
  }

  // ---- ranges -----------------------------------------------------------------------------------

  /** The fields are those of a date and a time of day; the length of the month is not looked at. */
  predicate InRange(t: Tm) {
    0 <= t.mon <= 11 && 1 <= t.mday <= 31 && 0 <= t.hour <= 23 && 0 <= t.min <= 59 && 0 <= t.sec <= 59
  }

  /** What a caller can check on the text: the digit groups stand between the texts of their limits. */
  predicate GroupsInRange(ts: string)
    requires ValidTimestamp(ts)
  {
    && Leq("01", Group(ts, 1)) && Leq(Group(ts, 1), "12") && Leq("01", Group(ts, 2)) && Leq(Group(ts, 2), "31")
    && Leq(Group(ts, 3), "23") && Leq(Group(ts, 4), "59") && Leq(Group(ts, 5), "59")
  }

  lemma {:induction false} TwoDigits(a: char, b: char)
    requires IsDigit(a) && IsDigit(b)
    ensures DigitsValue([a, b]) == 10 * DigitValue(a) + DigitValue(b) && AllDigits([a, b])
  {
    var one: string, two: string := [a], [a, b];
    assert two[..1] == one && two[1] == b && one[..0] == "";
    assert DigitsValue(one) == 10 * DigitsValue("") + DigitValue(a);
  }

  lemma {:induction false} GroupLength(ts: string, k: nat)
    requires ValidTimestamp(ts) && 1 <= k < 6
    ensures |Group(ts, k)| == 2
  {
  }

  lemma {:induction false} GroupLimit(ts: string, k: nat, a: char, b: char)
    requires ValidTimestamp(ts) && 1 <= k < 6 && IsDigit(a) && IsDigit(b)
    ensures var n := 10 * DigitValue(a) + DigitValue(b);
            && (Leq([a, b], Group(ts, k)) <==> n <= DigitsValue(Group(ts, k)))
            && (Leq(Group(ts, k), [a, b]) <==> DigitsValue(Group(ts, k)) <= n)
  {
    hide DigitsValue, Group;
    var limit, g: string := [a, b], Group(ts, k);
    GroupDigits(ts, k);
    TwoDigits(a, b);
    assert |g| == 2 by {
      GroupLength(ts, k);
    }
    LessDigits(limit, g);
    LessDigits(g, limit);
    assert Leq(limit, g) == !Less(g, limit) && Leq(g, limit) == !Less(limit, g);
  }

  /** The validator looks at the shape alone; a valid timestamp is one of a time in range exactly when its
      digit groups stand between the limits. */
  lemma {:induction false} RangesExactly(ts: string)
    requires ValidTimestamp(ts)
    ensures InRange(ParseISOTimestamp(ts)) <==> GroupsInRange(ts)
  {
    hide ParseISOTimestamp, Group, DigitsValue, Leq;
    assert ts[..20] == ts;
    ParsedFields(ts, ts);
    GroupLimit(ts, 1, '0', '1');
    GroupLimit(ts, 1, '1', '2');
    GroupLimit(ts, 2, '0', '1');
    GroupLimit(ts, 2, '3', '1');
    GroupLimit(ts, 3, '2', '3');
    GroupLimit(ts, 4, '5', '9');
    GroupLimit(ts, 5, '5', '9');
  }

  lemma {:induction false} OutOfRange(ts: string, k: nat)
    requires ValidTimestamp(ts) && 1 <= k < 6
    requires Less((if k == 1 then "12" else if k == 3 then "23" else "59"), Group(ts, k)) && k != 2
    ensures !InRange(ParseISOTimestamp(ts))
  {
    hide ParseISOTimestamp, Group;
    RangesExactly(ts);
  }

  /** Month 13, hour 25, minute 60 and second 61 are all accepted. */
  lemma {:induction false} ShapeOnly()
    ensures ValidTimestamp("2025-13-14T12:03:21Z") && !InRange(ParseISOTimestamp("2025-13-14T12:03:21Z"))
    ensures ValidTimestamp("2025-03-14T25:03:21Z") && !InRange(ParseISOTimestamp("2025-03-14T25:03:21Z"))
    ensures ValidTimestamp("2025-03-14T12:60:21Z") && !InRange(ParseISOTimestamp("2025-03-14T12:60:21Z"))
    ensures ValidTimestamp("2025-03-14T12:03:61Z") && !InRange(ParseISOTimestamp("2025-03-14T12:03:61Z"))
  {
    hide ParseISOTimestamp, InRange;
    BadMonthOrHour();
    BadMinuteOrSecond();
  }

  lemma {:induction false} BadMonthOrHour()
    ensures ValidTimestamp("2025-13-14T12:03:21Z") && !InRange(ParseISOTimestamp("2025-13-14T12:03:21Z"))
    ensures ValidTimestamp("2025-03-14T25:03:21Z") && !InRange(ParseISOTimestamp("2025-03-14T25:03:21Z"))
  {
    hide ParseISOTimestamp, InRange;
    assert "2025-13-14T12:03:21Z"[5..7] == "13";
    OutOfRange("2025-13-14T12:03:21Z", 1);
    assert "2025-03-14T25:03:21Z"[11..13] == "25";
    OutOfRange("2025-03-14T25:03:21Z", 3);
  }

  lemma {:induction false} BadMinuteOrSecond()
    ensures ValidTimestamp("2025-03-14T12:60:21Z") && !InRange(ParseISOTimestamp("2025-03-14T12:60:21Z"))
    ensures ValidTimestamp("2025-03-14T12:03:61Z") && !InRange(ParseISOTimestamp("2025-03-14T12:03:61Z"))
  {
    hide ParseISOTimestamp, InRange;
    assert "2025-03-14T12:60:21Z"[14..16] == "60";
    OutOfRange("2025-03-14T12:60:21Z", 4);
    assert "2025-03-14T12:03:61Z"[17..19] == "61";
    OutOfRange("2025-03-14T12:03:61Z", 5);
  }
}
