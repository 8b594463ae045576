/**
 The parser decides by what it has read: a text that agrees that far gives the same result, at
 the same place.
 */
module Locality {
  import opened Text
  import opened JsonTree
  import opened ParserSpec

  /** How many characters from the reported position on decide a failure. A keyword and a number are
      reported at their start; a short \u escape is a matter of where the text ends. */
  function Reach(f: Fault): nat {
    match f
    case UnknownKeyword => 5
    case BadNumber => 3
    case ShortUnicode => 4
    case _ => 1
  }

  /** The length of the part of a text that decides a result. */
  function Decided<T>(r: Result<T>): nat {
    r.pos + if r.Ok? then 1 else Reach(r.fault)
  }

  /** Both texts have at least n characters, and the first n agree. */
  ghost predicate Agree(s: string, t: string, n: nat) {
    n <= |s| && n <= |t| && forall i | 0 <= i < n :: s[i] == t[i]
  }

  // ---- scanners -----------------------------------------------------------------------------------

  lemma {:induction false} SkipWsLocal(s: string, t: string, pos: nat)
    requires pos <= |s| && pos <= |t| && Agree(s, t, SkipWs(s, pos) + 1)
    ensures SkipWs(t, pos) == SkipWs(s, pos)
    decreases |s| - pos
  {
    if IsSpace(s[pos]) {
      SkipWsLocal(s, t, pos + 1);
    }
  }

  lemma {:induction false} SkipDigitsLocal(s: string, t: string, pos: nat)
    requires pos <= |s| && pos <= |t| && Agree(s, t, SkipDigits(s, pos) + 1)
    ensures SkipDigits(t, pos) == SkipDigits(s, pos)
    decreases |s| - pos
  {
    if IsDigit(s[pos]) {
      SkipDigitsLocal(s, t, pos + 1);
    }
  }

  lemma {:induction false} LexLocal(s: string, t: string, pos: nat)
    requires pos <= |s| && pos <= |t| && Agree(s, t, LexNumber(s, pos) + 1)
    ensures LexNumber(t, pos) == LexNumber(s, pos)
  {
    hide AfterFraction, AfterExponent, SkipDigits;
    var a := AfterMinus(s, pos);
    var b := SkipDigits(s, a);
    SkipDigitsLocal(s, t, a);
    FractionLocal(s, t, b);
    ExponentLocal(s, t, AfterFraction(s, b));
  }

  lemma {:induction false} FractionLocal(s: string, t: string, pos: nat)
    requires pos <= |s| && pos <= |t| && Agree(s, t, AfterFraction(s, pos) + 1)
    ensures AfterFraction(t, pos) == AfterFraction(s, pos)
  {
    hide SkipDigits;
    if s[pos] == '.' {
      SkipDigitsLocal(s, t, pos + 1);
    }
  }

  lemma {:induction false} ExponentLocal(s: string, t: string, pos: nat)
    requires pos <= |s| && pos <= |t| && Agree(s, t, AfterExponent(s, pos) + 1)
    ensures AfterExponent(t, pos) == AfterExponent(s, pos)
  {
    hide SkipDigits;
    if IsExpMark(s[pos]) {
      SkipDigitsLocal(s, t, AfterSign(s, pos + 1));
    }
  }

  lemma {:induction false} AtLocal(s: string, t: string, pos: nat, w: string)
    requires Agree(s, t, pos + |w|)
    ensures At(t, pos, w) <==> At(s, pos, w)
  {
    AtIsSlice(s, pos, w);
    AtIsSlice(t, pos, w);
    assert s[pos..pos + |w|] == t[pos..pos + |w|];
  }

  // ---- scalars ------------------------------------------------------------------------------------

  /** A number fails when neither the sign nor a point behind it has a digit behind it. */
  predicate NoDigits(s: string, pos: nat) {
    && pos < |s| && s[pos] == '-'
    && (pos + 1 < |s| ==> !IsDigit(s[pos + 1]))
    && (pos + 2 < |s| && s[pos + 1] == '.' ==> !IsDigit(s[pos + 2]))
  }

  lemma {:induction false} DigitsRun(s: string, pos: nat)
    requires pos <= |s|
    ensures SkipDigits(s, pos) == pos <==> pos == |s| || !IsDigit(s[pos])
  {
  }

  /** What stod sees of the scanned run. */
  lemma {:induction false} LexedParts(s: string, pos: nat)
    requires pos < |s| && (s[pos] == '-' || IsDigit(s[pos]))
    ensures var t := s[pos..LexNumber(s, pos)];
            Stod(t).None? <==> NoDigits(s, pos)
  {
    var end := LexNumber(s, pos);
    var t := s[pos..end];
    forall i | 0 <= i < |t| ensures t[i] == s[pos + i] {
    }
    var a := AfterMinus(s, pos);
    var b := SkipDigits(s, a);
    DigitsRun(s, a);
    if b < |s| && s[b] == '.' {
      DigitsRun(s, b + 1);
    }
    var p0 := AfterMinus(t, 0);
    var p1 := SkipDigits(t, p0);
    DigitsRun(t, p0);
    if p1 < |t| && t[p1] == '.' {
      DigitsRun(t, p1 + 1);
    }
    if NoDigits(s, pos) {
      assert a == b == pos + 1;
      assert p0 == p1 == 1;
      assert AfterFraction(t, 1) <= 2;
    } else {
      LexReaches(s, pos);
    }
  }

  /** The scanned run holds the first digit. */
  lemma {:induction false} LexReaches(s: string, pos: nat)
    requires pos < |s| && (s[pos] == '-' || IsDigit(s[pos])) && !NoDigits(s, pos)
    ensures var end := LexNumber(s, pos);
            if IsDigit(s[pos]) then pos < end
            else if IsDigit(s[pos + 1]) then pos + 1 < end
            else pos + 2 < end && s[pos + 1] == '.'
  {
    var a := AfterMinus(s, pos);
    DigitsRun(s, a);
    if s[pos] == '-' && !IsDigit(s[pos + 1]) {
      assert SkipDigits(s, a) == a == pos + 1;
      DigitsRun(s, a + 1);
    }
  }

  lemma {:induction false} NumberLocal(s: string, t: string, pos: nat)
    requires pos < |s| && pos < |t| && (s[pos] == '-' || IsDigit(s[pos])) && t[pos] == s[pos]
    requires Agree(s, t, Decided(ParseNumber(s, pos)))
    ensures ParseNumber(t, pos) == ParseNumber(s, pos)
  {
    hide Stod, LexNumber;
    LexedParts(s, pos);
    if ParseNumber(s, pos).Ok? {
      LexLocal(s, t, pos);
      var end := LexNumber(s, pos);
      assert s[pos..end] == t[pos..end];
    } else {
      LexedParts(t, pos);
    }
  }

  lemma {:induction false} EscapeLocal(s: string, t: string, pos: nat)
    requires pos < |s| && pos < |t| && Agree(s, t, Decided(ParseEscape(s, pos)))
    ensures ParseEscape(t, pos) == ParseEscape(s, pos)
  {
  }

  lemma {:induction false} ScanLocal(s: string, t: string, pos: nat, str: string)
    requires pos <= |s| && pos <= |t| && Agree(s, t, Decided(ScanString(s, pos, str)))
    ensures ScanString(t, pos, str) == ScanString(s, pos, str)
    decreases |s| - pos
  {
    hide ParseEscape;
    if pos >= |s| || s[pos] == '\"' {
    } else if s[pos] == '\\' {
      if pos + 1 < |s| {
        var e := ParseEscape(s, pos + 1);
        if e.Ok? {
          EscapeAgrees(s, t, pos, str);
          ScanLocal(s, t, e.pos, str + [e.value]);
        } else {
          EscapeLocal(s, t, pos + 1);
        }
      }
    } else {
      ScanLocal(s, t, pos + 1, str + [s[pos]]);
    }
  }

  /** An escape inside a literal is decided before the literal is. */
  lemma {:induction false} EscapeAgrees(s: string, t: string, pos: nat, str: string)
    requires pos + 1 < |s| && pos <= |t| && s[pos] == '\\' && ParseEscape(s, pos + 1).Ok?
    requires Agree(s, t, Decided(ScanString(s, pos, str)))
    ensures pos + 1 < |t| && ParseEscape(t, pos + 1) == ParseEscape(s, pos + 1)
  {
    var e := ParseEscape(s, pos + 1);
    ScanPasses(s, e.pos, str + [e.value]);
    EscapeLocal(s, t, pos + 1);
  }

  lemma {:induction false} ScanPasses(s: string, pos: nat, str: string)
    requires pos <= |s|
    ensures Decided(ScanString(s, pos, str)) > pos
  {
  }

  lemma {:induction false} KeywordLocal(s: string, t: string, pos: nat)
    requires pos <= |s| && pos <= |t| && Agree(s, t, Decided(ParseKeyword(s, pos)))
    ensures ParseKeyword(t, pos) == ParseKeyword(s, pos)
  {
    hide At;
    var r := ParseKeyword(s, pos);
    if r.Err? {
      AtLocal(s, t, pos, "true");
      AtLocal(s, t, pos, "false");
      AtLocal(s, t, pos, "null");
    } else if At(s, pos, "true") {
      AtLocal(s, t, pos, "true");
    } else if At(s, pos, "false") {
      AtLocal(s, t, pos, "false");
      NotBoth(t, pos, "false", "true");
    } else {
      AtLocal(s, t, pos, "null");
      NotBoth(t, pos, "null", "true");
      NotBoth(t, pos, "null", "false");
    }
  }

  lemma {:induction false} NotBoth(t: string, pos: nat, a: string, b: string)
    requires a != "" && b != "" && a[0] != b[0] && At(t, pos, a)
    ensures !At(t, pos, b)
  {
  }

  // ---- values -------------------------------------------------------------------------------------

  lemma {:induction false} ValueLocal(s: string, t: string, pos: nat)
    requires pos <= |s| && pos <= |t| && Agree(s, t, Decided(ParseValue(s, pos)))
    ensures ParseValue(t, pos) == ParseValue(s, pos)
    decreases |s| - pos, 2
  {
    hide ParseObject, ParseArray, ParseString, ParseNumber, ParseKeyword, SkipWs;
    var p := SkipWs(s, pos);
    if p < |s| {
      SkipWsLocal(s, t, pos);
      if s[p] == '{' {
        ObjectLocal(s, t, p);
      } else if s[p] == '[' {
        ArrayLocal(s, t, p);
      } else if s[p] == '\"' {
        SameString(s, t, p);
        ScanLocal(s, t, p + 1, "");
      } else if s[p] == '-' || IsDigit(s[p]) {
        NumberLocal(s, t, p);
      } else if s[p] == 't' || s[p] == 'f' || s[p] == 'n' {
        KeywordLocal(s, t, p);
      }
    }
  }

  lemma {:induction false} SameString(s: string, t: string, pos: nat)
    requires pos < |s| && pos < |t|
    ensures ParseString(s, pos) == ScanString(s, pos + 1, "") && ParseString(t, pos) == ScanString(t, pos + 1, "")
  {
  }

  lemma {:induction false} ArrayLocal(s: string, t: string, pos: nat)
    requires pos < |s| && pos < |t| && Agree(s, t, Decided(ParseArray(s, pos)))
    ensures ParseArray(t, pos) == ParseArray(s, pos)
    decreases |s| - pos, 1
  {
    hide ParseItems, SkipWs;
    var p := SkipWs(s, pos + 1);
    SkipWsLocal(s, t, pos + 1);
    if s[p] != ']' {
      ItemsLocal(s, t, p, []);
    }
  }

  lemma {:induction false} ItemsLocal(s: string, t: string, pos: nat, arr: seq<JsonValue>)
    requires pos < |s| && pos < |t| && Agree(s, t, Decided(ParseItems(s, pos, arr)))
    ensures ParseItems(t, pos, arr) == ParseItems(s, pos, arr)
    decreases |s| - pos, 3
  {
    hide ParseItems, ParseValue, SkipWs;
    ItemsTurn(s, pos, arr);
    ItemsTurn(t, pos, arr);
    var v := ParseValue(s, pos);
    if v.Ok? {
      var p := SkipWs(s, v.pos);
      if p < |s| && s[p] == ',' {
        ItemsPass(s, p + 1, arr + [v.value]);
      }
      ValueLocal(s, t, pos);
      SkipWsLocal(s, t, v.pos);
      if s[p] == ',' {
        ItemsLocal(s, t, p + 1, arr + [v.value]);
      }
    } else {
      ValueLocal(s, t, pos);
    }
  }

  lemma {:induction false} ItemsPass(s: string, pos: nat, arr: seq<JsonValue>)
    requires pos <= |s|
    ensures Decided(ParseItems(s, pos, arr)) > pos
  {
  }

  lemma {:induction false} ObjectLocal(s: string, t: string, pos: nat)
    requires pos < |s| && pos < |t| && Agree(s, t, Decided(ParseObject(s, pos)))
    ensures ParseObject(t, pos) == ParseObject(s, pos)
    decreases |s| - pos, 1
  {
    hide ParsePairs, SkipWs;
    var p := SkipWs(s, pos + 1);
    SkipWsLocal(s, t, pos + 1);
    if s[p] != '}' {
      PairsLocal(s, t, p, []);
    }
  }

  lemma {:induction false} PairLocal(s: string, t: string, pos: nat)
    requires pos <= |s| && pos <= |t| && Agree(s, t, Decided(ParsePair(s, pos)))
    ensures ParsePair(t, pos) == ParsePair(s, pos)
    decreases |s| - pos, 3
  {
    hide ParseValue, SkipWs, ScanString, ParseString;
    var k := SkipWs(s, pos);
    SkipWsLocal(s, t, pos);
    if s[k] == '\"' {
      var key := ParseString(s, k);
      SameString(s, t, k);
      ScanLocal(s, t, k + 1, "");
      if key.Ok? {
        var c := SkipWs(s, key.pos);
        SkipWsLocal(s, t, key.pos);
        if s[c] == ':' {
          ValueLocal(s, t, c + 1);
        }
      }
    }
  }

  lemma {:induction false} PairsLocal(s: string, t: string, pos: nat, obj: seq<Member>)
    requires pos < |s| && pos < |t| && Agree(s, t, Decided(ParsePairs(s, pos, obj)))
    ensures ParsePairs(t, pos, obj) == ParsePairs(s, pos, obj)
    decreases |s| - pos, 4
  {
    hide ParsePairs, ParsePair, SkipWs, Put;
    PairsTurn(s, pos, obj);
    PairsTurn(t, pos, obj);
    var m := ParsePair(s, pos);
    if m.Ok? {
      var p := SkipWs(s, m.pos);
      if p < |s| && s[p] == ',' {
        PairsPass(s, p + 1, Put(obj, m.value.key, m.value.value));
      }
      PairLocal(s, t, pos);
      SkipWsLocal(s, t, m.pos);
      if s[p] == ',' {
        PairsLocal(s, t, p + 1, Put(obj, m.value.key, m.value.value));
      }
    } else {
      PairLocal(s, t, pos);
    }
  }

  lemma {:induction false} PairsPass(s: string, pos: nat, obj: seq<Member>)
    requires pos <= |s|
    ensures Decided(ParsePairs(s, pos, obj)) > pos
  {
  }
}
