/** How a failed parse could have gone on: a text is completed from where it failed, and what is found
    at the position of a failure is followed through the parser. */
module Failures {
  import opened Text
  import opened JsonTree
  import opened Grammar
  import opened ParserSpec
  import opened Scanning
  import opened Soundness
  import opened Locality

  // ---- what could have followed -------------------------------------------------------------------

  /** A continuation that could stand at the position of a failure. */
  function Wanted(f: Fault): string {
    match f
    case TrailingText => ""
    case UnexpectedEnd => "0"
    case UnexpectedChar => "0"
    case ExpectedKey => "\""
    case ExpectedColon => ":"
    case ExpectedCommaOrBrace => "}"
    case ExpectedCommaOrBracket => "]"
    case UnfinishedEscape => "n"
    case UnterminatedString => "\""
    case ShortUnicode => "0000"
    case UnknownEscape => "n"
    case BadNumber => "0"
    case UnknownKeyword => "0"
  }

  function Zero(): Syntax {
    Num(Numeral(false, "0", None, None))
  }

  lemma {:induction false} ZeroText()
    ensures SyntaxText(Zero()) == "0" && Admitted(Zero())
  {
  }

  /** t starts with what the fault wants, but where the text ends inside a nested container. */
  ghost predicate Continues(s: string, f: Fault, p: nat, t: string) {
    p < |s| ==> Wanted(f) <= t
  }

  /** The text from pos to the failure, continued by t, is w. */
  ghost predicate Extends(s: string, pos: nat, p: nat, t: string, w: string) {
    pos <= p <= |s| && s[pos..p] + t == w
  }

  lemma {:induction false} Prepended(s: string, pos: nat, mid: nat, p: nat, t: string, a: string, w: string)
    requires At(s, pos, a) && mid == pos + |a| && Extends(s, mid, p, t, w)
    ensures Extends(s, pos, p, t, a + w)
  {
    AtIsSlice(s, pos, a);
    assert s[pos..p] == s[pos..mid] + s[mid..p];
  }

  // ---- strings --------------------------------------------------------------------------------------

  lemma {:induction false} StringViable(s: string, pos: nat, str: string) returns (t: string, ps: seq<Piece>)
    requires pos <= |s| && ScanString(s, pos, str).Err?
    ensures AdmittedPieces(ps) && Extends(s, pos, ScanString(s, pos, str).pos, t, PiecesText(ps) + "\"")
    ensures Wanted(ScanString(s, pos, str).fault) <= t
    decreases |s| - pos
  {
    hide PieceText, AdmittedPiece, PieceValue;
    var r := ScanString(s, pos, str);
    if pos == |s| {
      t, ps := "\"", [];
      assert s[pos..pos] + t == PiecesText(ps) + "\"";
    } else if s[pos] == '\\' && (pos + 1 == |s| || ParseEscape(s, pos + 1).Err?) {
      t, ps := BrokenEscape(s, pos, str);
    } else {
      var p: Piece;
      if s[pos] == '\\' {
        p := EscapeSound(s, pos);
      } else {
        p := Raw(s[pos]);
        RawPiece(s, pos);
      }
      var more;
      t, more := StringViable(s, pos + |PieceText(p)|, str + [PieceValue(p)]);
      ps := [p] + more;
      assert PiecesText(ps) + "\"" == PieceText(p) + (PiecesText(more) + "\"");
      Prepended(s, pos, pos + |PieceText(p)|, r.pos, t, PieceText(p), PiecesText(more) + "\"");
    }
  }

  lemma {:induction false} RawPiece(s: string, pos: nat)
    requires pos < |s| && s[pos] != '\"' && s[pos] != '\\'
    ensures AdmittedPiece(Raw(s[pos])) && PieceText(Raw(s[pos])) == [s[pos]] && PieceValue(Raw(s[pos])) == s[pos]
    ensures At(s, pos, [s[pos]])
  {
  }

  lemma {:induction false} BrokenEscape(s: string, pos: nat, str: string) returns (t: string, ps: seq<Piece>)
    requires pos < |s| && s[pos] == '\\' && (pos + 1 == |s| || ParseEscape(s, pos + 1).Err?)
    ensures ScanString(s, pos, str).Err? && AdmittedPieces(ps)
    ensures Extends(s, pos, ScanString(s, pos, str).pos, t, PiecesText(ps) + "\"")
    ensures Wanted(ScanString(s, pos, str).fault) <= t
  {
    var r := ScanString(s, pos, str);
    if r.fault == ShortUnicode {
      t, ps := "0000\"", [Unicode("0000")];
      assert s[pos..r.pos] == "\\u";
      assert PiecesText(ps) == "\\u0000" + PiecesText(ps[1..]);
    } else {
      t, ps := "n\"", [Escape('n')];
      assert s[pos..r.pos] == "\\";
      assert PiecesText(ps) == "\\n" + PiecesText(ps[1..]);
    }
  }

  // ---- closing what breaks off --------------------------------------------------------------------

  function ThenItem(items: Items, d: Syntax): Items {
    if items.LastItem? then MoreItems(items.lead, items.v, items.trail, LastItem("", d, ""))
    else MoreItems(items.lead, items.v, items.trail, ThenItem(items.rest, d))
  }

  lemma {:induction false} ThenItemText(items: Items, d: Syntax)
    requires AdmittedItems(items) && Admitted(d)
    ensures AdmittedItems(ThenItem(items, d)) && ThenItem(items, d).lead == items.lead
    ensures ItemsText(ThenItem(items, d)) == ItemsText(items) + "," + SyntaxText(d)
  {
    hide SyntaxText, Admitted;
    var head := items.lead + SyntaxText(items.v) + items.trail;
    if items.LastItem? {
      assert ItemsText(LastItem("", d, "")) == SyntaxText(d);
      assert ItemsText(ThenItem(items, d)) == head + ("," + SyntaxText(d));
      assert ItemsText(items) == head;
    } else {
      ThenItemText(items.rest, d);
      assert ItemsText(ThenItem(items, d)) == head + ("," + ItemsText(ThenItem(items.rest, d)));
      assert ItemsText(items) == head + ("," + ItemsText(items.rest));
    }
  }

  function EmptyPair(d: Syntax): Pair {
    Pair("", [], "", "", d, "")
  }

  function ThenPair(pairs: Pairs, p: Pair): Pairs {
    if pairs.LastPair? then MorePairs(pairs.p, LastPair(p)) else MorePairs(pairs.p, ThenPair(pairs.rest, p))
  }

  lemma {:induction false} ThenPairText(pairs: Pairs, p: Pair)
    requires AdmittedPairs(pairs) && AdmittedPair(p)
    ensures AdmittedPairs(ThenPair(pairs, p)) && ThenPair(pairs, p).p == pairs.p
    ensures PairsText(ThenPair(pairs, p)) == PairsText(pairs) + "," + PairText(p)
  {
    hide PairText, AdmittedPair;
    if pairs.LastPair? {
      assert PairsText(LastPair(p)) == PairText(p);
      assert PairsText(ThenPair(pairs, p)) == PairText(pairs.p) + ("," + PairText(p));
      assert PairsText(pairs) == PairText(pairs.p);
    } else {
      ThenPairText(pairs.rest, p);
      assert PairsText(ThenPair(pairs, p)) == PairText(pairs.p) + ("," + PairsText(ThenPair(pairs.rest, p)));
      assert PairsText(pairs) == PairText(pairs.p) + ("," + PairsText(pairs.rest));
    }
  }

  lemma {:induction false} EmptyPairText()
    ensures PairText(EmptyPair(Zero())) == "\"\":0" && AdmittedPair(EmptyPair(Zero()))
  {
    ZeroText();
    assert QuotedText([]) == "\"\"";
  }

  /** Any form becomes a closed value when its bracket is closed. */
  lemma {:induction false} CloseForm(f: Form) returns (t: string, d: Syntax)
    requires AdmittedForm(f)
    ensures Admitted(d) && FormText(f) + t == SyntaxText(d)
  {
    hide ItemsText, PairsText, AdmittedItems, AdmittedPairs;
    match f {
      case Closed(d') =>
        t, d := "", d';
      case OpenArray(gap) =>
        t, d := "]", EmptyArr(gap);
      case OpenItems(gap, items) =>
        ZeroText();
        ThenItemText(items, Zero());
        t, d := "0]", Arr(gap, ThenItem(items, Zero()));
        assert SyntaxText(d) == "[" + gap + (ItemsText(items) + "," + "0") + "]";
      case OpenObject(gap) =>
        t, d := "}", EmptyObj(gap);
      case OpenPairs(gap, pairs) =>
        EmptyPairText();
        ThenPairText(pairs, EmptyPair(Zero()));
        t, d := "\"\":0}", Obj(gap, ThenPair(pairs, EmptyPair(Zero())));
        assert SyntaxText(d) == "{" + gap + (PairsText(pairs) + "," + "\"\":0") + "}";
    }
  }

  // ---- values -----------------------------------------------------------------------------------------

  lemma {:induction false} NothingRead(s: string, pos: nat, t: string)
    requires pos <= |s|
    ensures Extends(s, pos, pos, t, t)
  {
    assert s[pos..pos] + t == t;
  }

  lemma {:induction false} Longer(s: string, pos: nat, p: nat, t: string, w: string, more: string)
    requires Extends(s, pos, p, t, w)
    ensures Extends(s, pos, p, t + more, w + more)
  {
    assert s[pos..p] + (t + more) == s[pos..p] + t + more;
  }

  lemma {:induction false} WholeRead(s: string, pos: nat, w: string)
    requires At(s, pos, w)
    ensures Extends(s, pos, pos + |w|, "", w)
  {
    AtIsSlice(s, pos, w);
  }

  lemma {:induction false} AtGap(s: string, p: nat)
    requires p <= |s| && (p < |s| ==> !IsSpace(s[p]))
    ensures SkipWs(s, p) == p
  {
  }

  lemma {:induction false} ValueViable(s: string, pos: nat) returns (t: string, gap: string, d: Syntax)
    requires pos <= |s| && ParseValue(s, pos).Err?
    ensures AllSpace(gap) && SkipWs(s, pos) == pos + |gap| && Admitted(d)
    ensures var r := ParseValue(s, pos);
            Extends(s, pos, r.pos, t, gap + SyntaxText(d)) && Continues(s, r.fault, r.pos, t)
    decreases |s| - pos, 2
  {
    hide ParseObject, ParseArray, ParseString, SkipWs, At, SyntaxText, Admitted, Extends, LexNumber, Stod;
    var r := ParseValue(s, pos);
    gap := GapSound(s, pos);
    var p := pos + |gap|;
    if p < |s| && s[p] == '{' {
      t, d := ObjectViable(s, p);
    } else if p < |s| && s[p] == '[' {
      t, d := ArrayViable(s, p);
    } else if p < |s| && s[p] == '\"' {
      t, d := QuotedViable(s, p);
    } else {
      t, d := "0", Zero();
      ZeroText();
      NothingRead(s, p, "0");
    }
    Prepended(s, pos, p, r.pos, t, gap, SyntaxText(d));
  }

  lemma {:induction false} QuotedViable(s: string, pos: nat) returns (t: string, d: Syntax)
    requires pos < |s| && s[pos] == '\"' && ParseString(s, pos).Err?
    ensures d.Str? && Admitted(d)
    ensures var r := ParseString(s, pos); Extends(s, pos, r.pos, t, SyntaxText(d)) && Wanted(r.fault) <= t
  {
    hide ScanString, PiecesText, AdmittedPieces, Extends, At;
    var ps;
    t, ps := StringViable(s, pos + 1, "");
    d := Str(ps);
    AtChar(s, pos);
    Prepended(s, pos, pos + 1, ParseString(s, pos).pos, t, "\"", PiecesText(ps) + "\"");
    assert SyntaxText(d) == "\"" + (PiecesText(ps) + "\"");
  }

  /** A body between its brackets. */
  lemma {:induction false} Enclosed(s: string, pos: nat, gap: string, p: nat, t: string, open: string, body: string,
                                    close: string)
    requires pos < |s| && open == [s[pos]] && At(s, pos + 1, gap) && Extends(s, pos + 1 + |gap|, p, t, body)
    ensures Extends(s, pos, p, t + close, open + gap + body + close)
  {
    hide At, Extends;
    AtChar(s, pos);
    Longer(s, pos + 1 + |gap|, p, t, body, close);
    Prepended(s, pos + 1, pos + 1 + |gap|, p, t + close, gap, body + close);
    Prepended(s, pos, pos + 1, p, t + close, open, gap + (body + close));
    assert open + (gap + (body + close)) == open + gap + body + close;
  }

  lemma {:induction false} ArrayViable(s: string, pos: nat) returns (t: string, d: Syntax)
    requires pos < |s| && s[pos] == '[' && ParseArray(s, pos).Err?
    ensures Admitted(d)
    ensures var r := ParseArray(s, pos); Extends(s, pos, r.pos, t, SyntaxText(d)) && Continues(s, r.fault, r.pos, t)
    decreases |s| - pos, 1
  {
    hide ParseItems, At, ItemsText, AdmittedItems, Extends, SkipWs;
    var r := ParseArray(s, pos);
    var gap := GapSound(s, pos + 1);
    var p := pos + 1 + |gap|;
    AtGap(s, p);
    ItemsTurn(s, p, []);
    var u, items := ItemsViable(s, p, []);
    t, d := u + "]", Arr(gap, items);
    Enclosed(s, pos, gap, r.pos, u, "[", ItemsText(items), "]");
  }

  /** An element after which the text ends, closed if it breaks off. */
  lemma {:induction false} ItemAtEnd(s: string, pos: nat) returns (t: string, items: Items)
    requires pos < |s| && ParseValue(s, pos).Ok? && SkipWs(s, ParseValue(s, pos).pos) == |s|
    ensures AdmittedItems(items) && SkipWs(s, pos) == pos + |items.lead| && items.LastItem?
    ensures Extends(s, pos, |s|, t, ItemsText(items))
  {
    hide ParseValue, SkipWs, At, SyntaxText, Admitted, FormText, AdmittedForm, Extends;
    var lead, f := ValueSound(s, pos);
    var q := pos + |lead| + |FormText(f)|;
    var trail := GapSound(s, q);
    var u, d := CloseForm(f);
    t := u;
    if f.Closed? {
      ClosedText(f);
    }
    items := LastItem(lead, if f.Closed? then f.d else d, trail);
    if f.Closed? {
      t := "";
      WholeRead(s, q, trail);
      Prepended(s, pos + |lead|, q, |s|, "", FormText(f), trail);
      Prepended(s, pos, pos + |lead|, |s|, "", lead, FormText(f) + trail);
      assert ItemsText(items) == lead + (FormText(f) + trail);
    } else {
      NothingRead(s, q, u);
      Prepended(s, pos + |lead|, q, |s|, u, FormText(f), u);
      Prepended(s, pos, pos + |lead|, |s|, u, lead, FormText(f) + u);
      assert trail == "" && ItemsText(items) == lead + SyntaxText(d);
    }
  }

  lemma {:induction false} ClosedText(f: Form)
    requires f.Closed? && AdmittedForm(f)
    ensures FormText(f) == SyntaxText(f.d) && Admitted(f.d)
  {
  }

  lemma {:induction false} ItemsViable(s: string, pos: nat, arr: seq<JsonValue>) returns (t: string, items: Items)
    requires pos < |s| && ParseItems(s, pos, arr).Err?
    ensures AdmittedItems(items) && SkipWs(s, pos) == pos + |items.lead|
    ensures var r := ParseItems(s, pos, arr);
            Extends(s, pos, r.pos, t, ItemsText(items)) && Continues(s, r.fault, r.pos, t + "]")
    decreases |s| - pos, 3
  {
    hide ParseItems, ParseValue, SkipWs, At, SyntaxText, Admitted, Extends;
    var r := ParseItems(s, pos, arr);
    ItemsTurn(s, pos, arr);
    var v := ParseValue(s, pos);
    if v.Err? {
      var gap, d;
      t, gap, d := ValueViable(s, pos);
      items := LastItem(gap, d, "");
      assert ItemsText(items) == gap + SyntaxText(d);
    } else if SkipWs(s, v.pos) == |s| {
      t, items := ItemAtEnd(s, pos);
    } else {
      var p := SkipWs(s, v.pos);
      var lead, d, trail := ItemSound(s, pos);
      var first := lead + SyntaxText(d) + trail;
      if s[p] == ',' {
        ItemsTurn(s, p + 1, arr + [v.value]);
        var rest;
        t, rest := ItemsViable(s, p + 1, arr + [v.value]);
        items := MoreItems(lead, d, trail, rest);
        AtChar(s, p);
        Prepended(s, p, p + 1, r.pos, t, ",", ItemsText(rest));
        Prepended(s, pos, p, r.pos, t, first, "," + ItemsText(rest));
        assert ItemsText(items) == first + ("," + ItemsText(rest));
      } else {
        t, items := "", LastItem(lead, d, trail);
        WholeRead(s, pos, first);
        assert ItemsText(items) == first;
      }
    }
  }

  lemma {:induction false} ObjectViable(s: string, pos: nat) returns (t: string, d: Syntax)
    requires pos < |s| && s[pos] == '{' && ParseObject(s, pos).Err?
    ensures Admitted(d)
    ensures var r := ParseObject(s, pos); Extends(s, pos, r.pos, t, SyntaxText(d)) && Continues(s, r.fault, r.pos, t)
    decreases |s| - pos, 1
  {
    hide ParsePairs, At, PairsText, AdmittedPairs, Extends, SkipWs;
    var r := ParseObject(s, pos);
    var gap := GapSound(s, pos + 1);
    var p := pos + 1 + |gap|;
    AtGap(s, p);
    PairsTurn(s, p, []);
    var u, pairs := PairsViable(s, p, []);
    t, d := u + "}", Obj(gap, pairs);
    Enclosed(s, pos, gap, r.pos, u, "{", PairsText(pairs), "}");
  }

  /** A member's text from its parts, grouped from the right. */
  lemma {:induction false} PairGrouped(p: Pair)
    ensures PairText(p) == p.lead + (QuotedText(p.key)
                           + (p.beforeColon + (":" + (p.afterColon + (SyntaxText(p.v) + p.trail)))))
  {
  }

  /** What stands before the value of a member put in front of it. */
  lemma {:induction false} KeyPrepended(s: string, pos: nat, lead: string, key: seq<Piece>, before: string, p: nat,
                                        t: string, w: string)
    requires At(s, pos, lead) && At(s, pos + |lead|, QuotedText(key))
    requires At(s, pos + |lead| + |QuotedText(key)|, before)
    requires Extends(s, pos + |lead| + |QuotedText(key)| + |before|, p, t, w)
    ensures Extends(s, pos, p, t, lead + (QuotedText(key) + (before + w)))
  {
    hide At, Extends, QuotedText;
    var k := pos + |lead|;
    var b := k + |QuotedText(key)|;
    Prepended(s, b, b + |before|, p, t, before, w);
    Prepended(s, k, b, p, t, QuotedText(key), before + w);
    Prepended(s, pos, k, p, t, lead, QuotedText(key) + (before + w));
  }

  lemma {:induction false} PairViable(s: string, pos: nat) returns (t: string, p: Pair)
    requires pos <= |s| && ParsePair(s, pos).Err?
    ensures AdmittedPair(p) && SkipWs(s, pos) == pos + |p.lead|
    ensures var r := ParsePair(s, pos);
            Extends(s, pos, r.pos, t, PairText(p)) && Continues(s, r.fault, r.pos, t)
    decreases |s| - pos, 3
  {
    hide ParseValue, ParseString, SkipWs, At, SyntaxText, Admitted, Extends, PairText, QuotedText;
    var r := ParsePair(s, pos);
    var k := SkipWs(s, pos);
    if k == |s| || s[k] != '\"' {
      t, p := NoKey(s, pos);
    } else if ParseString(s, k).Err? {
      t, p := BrokenKey(s, pos);
    } else {
      var c := SkipWs(s, ParseString(s, k).pos);
      var lead, key, before := KeySound(s, pos, k, c);
      if c == |s| || s[c] != ':' {
        t, p := ":0", Pair(lead, key, before, "", Zero(), "");
        ZeroText();
        NothingRead(s, c, ":0");
        PairGrouped(p);
        KeyPrepended(s, pos, lead, key, before, c, t, ":0");
        assert ":" + ("" + ("0" + "")) == ":0";
      } else {
        var gap, d;
        t, gap, d := ValueViable(s, c + 1);
        p := Pair(lead, key, before, gap, d, "");
        AtChar(s, c);
        Prepended(s, c, c + 1, r.pos, t, ":", gap + SyntaxText(d));
        KeyPrepended(s, pos, lead, key, before, r.pos, t, ":" + (gap + SyntaxText(d)));
        PairGrouped(p);
        assert SyntaxText(d) + "" == SyntaxText(d);
      }
    }
  }

  lemma {:induction false} NoKey(s: string, pos: nat) returns (t: string, p: Pair)
    requires pos <= |s| && (SkipWs(s, pos) == |s| || s[SkipWs(s, pos)] != '\"')
    ensures AdmittedPair(p) && SkipWs(s, pos) == pos + |p.lead|
    ensures Extends(s, pos, SkipWs(s, pos), t, PairText(p)) && Wanted(ExpectedKey) <= t
  {
    hide SkipWs, At, Extends;
    var lead := GapSound(s, pos);
    t, p := "\"\":0", Pair(lead, [], "", "", Zero(), "");
    ZeroText();
    NothingRead(s, pos + |lead|, t);
    Prepended(s, pos, pos + |lead|, pos + |lead|, t, lead, t);
    PairGrouped(p);
    assert QuotedText([]) == "\"\"";
    assert QuotedText([]) + ("" + (":" + ("" + ("0" + "")))) == t;
  }

  lemma {:induction false} BrokenKey(s: string, pos: nat) returns (t: string, p: Pair)
    requires pos <= |s| && SkipWs(s, pos) < |s| && s[SkipWs(s, pos)] == '\"' && ParseString(s, SkipWs(s, pos)).Err?
    ensures AdmittedPair(p) && SkipWs(s, pos) == pos + |p.lead|
    ensures var r := ParseString(s, SkipWs(s, pos)); Extends(s, pos, r.pos, t, PairText(p)) && Wanted(r.fault) <= t
  {
    hide SkipWs, At, Extends, ParseString, QuotedText;
    var k := SkipWs(s, pos);
    var lead := GapSound(s, pos);
    var u, key := QuotedViable(s, k);
    t, p := u + ":0", Pair(lead, key.pieces, "", "", Zero(), "");
    ZeroText();
    Longer(s, k, ParseString(s, k).pos, u, QuotedText(key.pieces), ":0");
    Prepended(s, pos, k, ParseString(s, k).pos, t, lead, QuotedText(key.pieces) + ":0");
    PairGrouped(p);
    assert "" + (":" + ("" + ("0" + ""))) == ":0";
  }

  /** A member after whose value the text ends, closed if it breaks off. */
  lemma {:induction false} PairAtEnd(s: string, pos: nat) returns (t: string, p: Pair)
    requires pos < |s| && ParsePair(s, pos).Ok? && SkipWs(s, ParsePair(s, pos).pos) == |s|
    ensures AdmittedPair(p) && SkipWs(s, pos) == pos + |p.lead|
    ensures Extends(s, pos, |s|, t, PairText(p))
  {
    hide ParsePair, ParseValue, ParseString, SkipWs, At, SyntaxText, Admitted, Extends, PairText, QuotedText, ItemsText;
    KeyTurn(s, pos);
    var k := SkipWs(s, pos);
    var c := SkipWs(s, ParseString(s, k).pos);
    var lead, key, before := KeySound(s, pos, k, c);
    var items;
    t, items := ItemAtEnd(s, c + 1);
    p := Pair(lead, key, before, items.lead, items.v, items.trail);
    AtChar(s, c);
    Prepended(s, c, c + 1, |s|, t, ":", ItemsText(items));
    KeyPrepended(s, pos, lead, key, before, |s|, t, ":" + ItemsText(items));
    PairGrouped(p);
    ItemGrouped(items);
  }

  lemma {:induction false} ItemGrouped(items: Items)
    requires items.LastItem?
    ensures ItemsText(items) == items.lead + (SyntaxText(items.v) + items.trail)
  {
  }

  lemma {:induction false} PairsViable(s: string, pos: nat, obj: seq<Member>) returns (t: string, pairs: Pairs)
    requires pos < |s| && ParsePairs(s, pos, obj).Err?
    ensures AdmittedPairs(pairs) && SkipWs(s, pos) == pos + |pairs.p.lead|
    ensures var r := ParsePairs(s, pos, obj);
            Extends(s, pos, r.pos, t, PairsText(pairs)) && Continues(s, r.fault, r.pos, t + "}")
    decreases |s| - pos, 4
  {
    hide ParsePairs, ParsePair, SkipWs, At, PairText, AdmittedPair, Extends, Put;
    var r := ParsePairs(s, pos, obj);
    PairsTurn(s, pos, obj);
    var m := ParsePair(s, pos);
    if m.Err? {
      var p;
      t, p := PairViable(s, pos);
      pairs := LastPair(p);
      assert PairsText(pairs) == PairText(p);
    } else if SkipWs(s, m.pos) == |s| {
      var p;
      t, p := PairAtEnd(s, pos);
      pairs := LastPair(p);
      assert PairsText(pairs) == PairText(p);
    } else {
      var e := SkipWs(s, m.pos);
      var now := Put(obj, m.value.key, m.value.value);
      var p := PairSound(s, pos);
      if s[e] == ',' {
        PairsTurn(s, e + 1, now);
        var rest;
        t, rest := PairsViable(s, e + 1, now);
        pairs := MorePairs(p, rest);
        AtChar(s, e);
        Prepended(s, e, e + 1, r.pos, t, ",", PairsText(rest));
        Prepended(s, pos, e, r.pos, t, PairText(p), "," + PairsText(rest));
        assert PairsText(pairs) == PairText(p) + ("," + PairsText(rest));
      } else {
        t, pairs := "", LastPair(p);
        WholeRead(s, pos, PairText(p));
        assert PairsText(pairs) == PairText(p);
      }
    }
  }

  // ---- what is found there --------------------------------------------------------------------------

  /** A character other than those given, or the end. */
  predicate Lacks(s: string, p: nat, wanted: set<char>) {
    p == |s| || (p < |s| && s[p] !in wanted)
  }

  /** What each fault says about the text at its position. */
  predicate FoundAt(s: string, f: Fault, p: nat) {
    match f
    case TrailingText => p < |s| && !IsSpace(s[p])
    case UnexpectedEnd => p == |s|
    case UnexpectedChar =>
      p < |s| && !IsSpace(s[p]) && !IsDigit(s[p]) && Lacks(s, p, {'{', '[', '\"', '-', 't', 'f', 'n'})
    case ExpectedKey => Lacks(s, p, {'\"'})
    case ExpectedColon => Lacks(s, p, {':'})
    case ExpectedCommaOrBrace => Lacks(s, p, {',', '}'})
    case ExpectedCommaOrBracket => Lacks(s, p, {',', ']'})
    case UnfinishedEscape => p == |s| && p > 0 && s[p - 1] == '\\'
    case UnterminatedString => p == |s|
    case ShortUnicode => 2 <= p <= |s| < p + 4 && s[p - 2] == '\\' && s[p - 1] == 'u'
    case UnknownEscape =>
      0 < p < |s| && s[p - 1] == '\\' && Lacks(s, p, {'\"', '\\', '/', 'b', 'f', 'n', 'r', 't', 'u'})
    case BadNumber => NoDigits(s, p)
    case UnknownKeyword =>
      p < |s| && s[p] in {'t', 'f', 'n'} && !At(s, p, "true") && !At(s, p, "false") && !At(s, p, "null")
  }

  lemma {:induction false} ScanFound(s: string, pos: nat, str: string)
    requires 0 < pos <= |s| && ScanString(s, pos, str).Err?
    ensures var r := ScanString(s, pos, str); FoundAt(s, r.fault, r.pos)
    decreases |s| - pos
  {
    hide At, NoDigits;
    if pos < |s| && s[pos] == '\\' {
      if pos + 1 < |s| && ParseEscape(s, pos + 1).Ok? {
        ScanFound(s, ParseEscape(s, pos + 1).pos, str + [ParseEscape(s, pos + 1).value]);
      }
    } else if pos < |s| {
      ScanFound(s, pos + 1, str + [s[pos]]);
    }
  }

  lemma {:induction false} Stopped(s: string, pos: nat)
    requires pos <= |s|
    ensures SkipWs(s, pos) < |s| ==> !IsSpace(s[SkipWs(s, pos)])
  {
    SkipWsSpaces(s, pos);
  }

  lemma {:induction false} ValueFound(s: string, pos: nat)
    requires pos <= |s| && ParseValue(s, pos).Err?
    ensures var r := ParseValue(s, pos); FoundAt(s, r.fault, r.pos)
    decreases |s| - pos, 2
  {
    hide ParseObject, ParseArray, ScanString, SkipWs, At, LexNumber, Stod, NoDigits;
    var p := SkipWs(s, pos);
    Stopped(s, pos);
    if p == |s| {
    } else if s[p] == '{' {
      ObjectFound(s, p);
    } else if s[p] == '[' {
      ArrayFound(s, p);
    } else if s[p] == '\"' {
      ScanFound(s, p + 1, "");
    } else if s[p] == '-' || IsDigit(s[p]) {
      LexedParts(s, p);
    }
  }

  lemma {:induction false} ArrayFound(s: string, pos: nat)
    requires pos < |s| && ParseArray(s, pos).Err?
    ensures var r := ParseArray(s, pos); FoundAt(s, r.fault, r.pos)
    decreases |s| - pos, 1
  {
    hide ParseItems, SkipWs, FoundAt;
    ItemsFound(s, SkipWs(s, pos + 1), []);
  }

  lemma {:induction false} ItemsFound(s: string, pos: nat, arr: seq<JsonValue>)
    requires pos <= |s| && ParseItems(s, pos, arr).Err?
    ensures var r := ParseItems(s, pos, arr); FoundAt(s, r.fault, r.pos)
    decreases |s| - pos, 3
  {
    hide ParseItems, ParseValue, SkipWs, At, NoDigits;
    ItemsTurn(s, pos, arr);
    var v := ParseValue(s, pos);
    if v.Err? {
      ValueFound(s, pos);
    } else {
      var p := SkipWs(s, v.pos);
      if CharAt(s, p) == ',' {
        ItemsFound(s, p + 1, arr + [v.value]);
      }
    }
  }

  lemma {:induction false} ObjectFound(s: string, pos: nat)
    requires pos < |s| && ParseObject(s, pos).Err?
    ensures var r := ParseObject(s, pos); FoundAt(s, r.fault, r.pos)
    decreases |s| - pos, 1
  {
    hide ParsePairs, SkipWs, FoundAt;
    PairsFound(s, SkipWs(s, pos + 1), []);
  }

  lemma {:induction false} PairFound(s: string, pos: nat)
    requires pos <= |s| && ParsePair(s, pos).Err?
    ensures var r := ParsePair(s, pos); FoundAt(s, r.fault, r.pos)
    decreases |s| - pos, 3
  {
    hide ParseValue, ScanString, SkipWs, At, NoDigits;
    var k := SkipWs(s, pos);
    if CharAt(s, k) == '\"' {
      if ParseString(s, k).Err? {
        ScanFound(s, k + 1, "");
      } else if CharAt(s, SkipWs(s, ParseString(s, k).pos)) == ':' {
        ValueFound(s, SkipWs(s, ParseString(s, k).pos) + 1);
      }
    }
  }

  lemma {:induction false} PairsFound(s: string, pos: nat, obj: seq<Member>)
    requires pos <= |s| && ParsePairs(s, pos, obj).Err?
    ensures var r := ParsePairs(s, pos, obj); FoundAt(s, r.fault, r.pos)
    decreases |s| - pos, 4
  {
    hide ParsePairs, ParsePair, SkipWs, At, NoDigits, Put;
    PairsTurn(s, pos, obj);
    var m := ParsePair(s, pos);
    if m.Err? {
      PairFound(s, pos);
    } else {
      var p := SkipWs(s, m.pos);
      if CharAt(s, p) == ',' {
        PairsFound(s, p + 1, Put(obj, m.value.key, m.value.value));
      }
    }
  }
}
