/** Every text the parser accepts is derived by the grammar, with the value the parser returns:
    each parse is turned into a syntax tree that spells what was read. */
module Soundness {
  import opened Text
  import opened JsonTree
  import opened Grammar
  import opened ParserSpec
  import opened Scanning

  lemma {:induction false} AtChar(s: string, pos: nat)
    requires pos < |s|
    ensures At(s, pos, [s[pos]])
  {
  }

  lemma {:induction false} GapSound(s: string, pos: nat) returns (gap: string)
    requires pos <= |s|
    ensures AllSpace(gap) && At(s, pos, gap) && SkipWs(s, pos) == pos + |gap|
    ensures SkipWs(s, pos) < |s| ==> !IsSpace(s[SkipWs(s, pos)])
  {
    gap := s[pos..SkipWs(s, pos)];
    SkipWsSpaces(s, pos);
    AtSlice(s, pos, SkipWs(s, pos));
  }

  // ---- scalars --------------------------------------------------------------------------

  lemma {:induction false} FractionSound(s: string, pos: nat) returns (f: Option<string>)
    requires pos <= |s|
    ensures AllDigits(FracDigits(f)) && At(s, pos, FracText(f)) && AfterFraction(s, pos) == pos + |FracText(f)|
  {
    if pos < |s| && s[pos] == '.' {
      var end := SkipDigits(s, pos + 1);
      SkipDigitsDigits(s, pos + 1);
      f := Some(s[pos + 1..end]);
      AtSlice(s, pos + 1, end);
      AtChar(s, pos);
      AtConcat(s, pos, ".", s[pos + 1..end]);
    } else {
      f := None;
    }
  }

  lemma {:induction false} ExponentSound(s: string, pos: nat) returns (e: Option<Exponent>)
    requires pos <= |s|
    ensures e.Some? ==> AdmittedExponent(e.value)
    ensures At(s, pos, ExpText(e)) && AfterExponent(s, pos) == pos + |ExpText(e)|
  {
    if pos < |s| && IsExpMark(s[pos]) {
      var q := AfterSign(s, pos + 1);
      var end := SkipDigits(s, q);
      SkipDigitsDigits(s, q);
      var x := Exponent(s[pos], s[pos + 1..q], s[q..end]);
      e := Some(x);
      AtSlice(s, pos + 1, q);
      AtSlice(s, q, end);
      AtChar(s, pos);
      AtConcat(s, pos, [x.mark], x.sign);
      AtConcat(s, pos, [x.mark] + x.sign, x.digits);
    } else {
      e := None;
    }
  }

  /** The scanned run, read back as a numeral. */
  lemma {:induction false} LexSound(s: string, pos: nat) returns (n: Numeral)
    requires pos < |s| && (s[pos] == '-' || IsDigit(s[pos]))
    ensures ScannedNumeral(n) && At(s, pos, NumeralText(n)) && LexNumber(s, pos) == pos + |NumeralText(n)|
  {
    hide AfterFraction, AfterExponent, At, SkipDigits;
    var p0 := AfterMinus(s, pos);
    var p1 := SkipDigits(s, p0);
    var whole := s[p0..p1];
    SkipDigitsDigits(s, p0);
    var frac := FractionSound(s, p1);
    var exp := ExponentSound(s, p1 + |FracText(frac)|);
    n := Numeral(p0 > pos, whole, frac, exp);
    var sign := SignText(n);
    AtSlice(s, pos, p0);
    assert s[pos..p0] == sign;
    AtSlice(s, p0, p1);
    AtConcat(s, pos, sign, whole);
    AtConcat(s, pos, sign + whole, FracText(frac));
    AtConcat(s, pos, sign + whole + FracText(frac), ExpText(exp));
  }

  lemma {:induction false} NumberSound(s: string, pos: nat) returns (n: Numeral)
    requires pos < |s| && (s[pos] == '-' || IsDigit(s[pos]))
    requires ParseNumber(s, pos).Ok?
    ensures AdmittedNumeral(n) && At(s, pos, NumeralText(n))
    ensures ParseNumber(s, pos) == Ok(Number(NumeralValue(n)), pos + |NumeralText(n)|)
  {
    hide NumeralText, LexNumber, NumeralValue, Stod, At, ScannedNumeral;
    n := LexSound(s, pos);
    SliceOf(s, pos, NumeralText(n));
    StodNumeral(s[pos..LexNumber(s, pos)], n);
  }

  lemma {:induction false} EscapeSound(s: string, pos: nat) returns (p: Piece)
    requires pos + 1 < |s| && s[pos] == '\\' && ParseEscape(s, pos + 1).Ok?
    ensures AdmittedPiece(p) && !p.Raw? && At(s, pos, PieceText(p))
    ensures ParseEscape(s, pos + 1) == Ok(PieceValue(p), pos + |PieceText(p)|)
  {
    if s[pos + 1] == 'u' {
      p := Unicode(s[pos + 2..pos + 6]);
      AtSlice(s, pos + 2, pos + 6);
      AtConcat(s, pos, "\\u", p.code);
    } else {
      p := Escape(s[pos + 1]);
    }
  }

  lemma {:induction false} PieceSound(s: string, pos: nat, str: string) returns (p: Piece)
    requires pos < |s| && s[pos] != '\"' && ScanString(s, pos, str).Ok?
    ensures AdmittedPiece(p) && At(s, pos, PieceText(p)) && |PieceText(p)| > 0
    ensures ScanString(s, pos, str) == ScanString(s, pos + |PieceText(p)|, str + [PieceValue(p)])
  {
    if s[pos] == '\\' {
      p := EscapeSound(s, pos);
    } else {
      p := Raw(s[pos]);
    }
  }

  lemma {:induction false} JoinPieces(s: string, pos: nat, p: Piece, more: seq<Piece>)
    requires At(s, pos, PieceText(p)) && At(s, pos + |PieceText(p)|, PiecesText(more) + "\"")
    ensures At(s, pos, PiecesText([p] + more) + "\"")
    ensures |PiecesText([p] + more)| == |PieceText(p)| + |PiecesText(more)|
  {
    var w := PieceText(p);
    assert ([p] + more)[1..] == more;
    AtConcat(s, pos, w, PiecesText(more) + "\"");
    assert PiecesText([p] + more) + "\"" == w + (PiecesText(more) + "\"");
  }

  lemma {:induction false} ScanStringSound(s: string, pos: nat, str: string) returns (ps: seq<Piece>)
    requires pos <= |s| && ScanString(s, pos, str).Ok?
    ensures AdmittedPieces(ps) && At(s, pos, PiecesText(ps) + "\"")
    ensures ScanString(s, pos, str) == Ok(str + PiecesValue(ps), pos + |PiecesText(ps)| + 1)
    decreases |s| - pos
  {
    hide At, ScanString, PieceText, PieceValue, AdmittedPiece, ParseEscape;
    if s[pos] == '\"' {
      ps := [];
      ScanEnd(s, pos, str);
      AtChar(s, pos);
      assert str + PiecesValue(ps) == str;
      assert PiecesText(ps) + "\"" == "\"";
    } else {
      var p := PieceSound(s, pos, str);
      var more := ScanStringSound(s, pos + |PieceText(p)|, str + [PieceValue(p)]);
      ps := [p] + more;
      JoinPieces(s, pos, p, more);
      assert str + PiecesValue(ps) == str + [PieceValue(p)] + PiecesValue(more);
    }
  }

  lemma {:induction false} ParseStringSound(s: string, pos: nat) returns (ps: seq<Piece>)
    requires pos < |s| && s[pos] == '\"' && ParseString(s, pos).Ok?
    ensures AdmittedPieces(ps) && At(s, pos, QuotedText(ps))
    ensures ParseString(s, pos) == Ok(PiecesValue(ps), pos + |QuotedText(ps)|)
  {
    ps := ScanStringSound(s, pos + 1, "");
    AtChar(s, pos);
    AtConcat(s, pos, "\"", PiecesText(ps) + "\"");
    assert QuotedText(ps) == "\"" + (PiecesText(ps) + "\"");
    assert "" + PiecesValue(ps) == PiecesValue(ps);
  }

  lemma {:induction false} KeywordSound(s: string, pos: nat) returns (w: Word)
    requires pos <= |s| && ParseKeyword(s, pos).Ok?
    ensures At(s, pos, WordText(w)) && ParseKeyword(s, pos) == Ok(WordValue(w), pos + |WordText(w)|)
  {
    w := if At(s, pos, "true") then WordTrue else if At(s, pos, "false") then WordFalse else WordNull;
  }

  // ---- joining parts --------------------------------------------------------------------

  lemma {:induction false} JoinBrackets(s: string, pos: nat, gap: string, body: string)
    requires pos < |s| && At(s, pos + 1, gap) && At(s, pos + 1 + |gap|, body)
    ensures At(s, pos, [s[pos]] + gap + body)
    ensures pos + 1 + |gap| + |body| < |s| ==>
              At(s, pos, [s[pos]] + gap + body + [s[pos + 1 + |gap| + |body|]])
  {
    AtChar(s, pos);
    AtConcat(s, pos, [s[pos]], gap);
    AtConcat(s, pos, [s[pos]] + gap, body);
    var end := pos + 1 + |gap| + |body|;
    if end < |s| {
      AtChar(s, end);
      AtConcat(s, pos, [s[pos]] + gap + body, [s[end]]);
    }
  }

  lemma {:induction false} JoinItem(s: string, pos: nat, lead: string, v: string, trail: string)
    requires At(s, pos, lead) && At(s, pos + |lead|, v) && At(s, pos + |lead| + |v|, trail)
    ensures At(s, pos, lead + v + trail)
  {
    AtConcat(s, pos, lead, v);
    AtConcat(s, pos, lead + v, trail);
  }

  lemma {:induction false} JoinRest(s: string, pos: nat, first: string, rest: string)
    requires At(s, pos, first) && pos + |first| < |s| && s[pos + |first|] == ','
    requires At(s, pos + |first| + 1, rest)
    ensures At(s, pos, first + ("," + rest))
  {
    AtChar(s, pos + |first|);
    AtConcat(s, pos + |first|, ",", rest);
    AtConcat(s, pos, first, "," + rest);
  }

  lemma {:induction false} JoinPair(s: string, pos: nat, lead: string, key: string, before: string,
                                    after: string, v: string, trail: string)
    requires At(s, pos, lead) && At(s, pos + |lead|, key) && At(s, pos + |lead| + |key|, before)
    requires var c := pos + |lead| + |key| + |before|;
             && c < |s| && s[c] == ':' && At(s, c + 1, after) && At(s, c + 1 + |after|, v)
             && At(s, c + 1 + |after| + |v|, trail)
    ensures At(s, pos, lead + key + before + ":" + after + v + trail)
  {
    AtConcat(s, pos, lead, key);
    AtConcat(s, pos, lead + key, before);
    AtChar(s, pos + |lead| + |key| + |before|);
    AtConcat(s, pos, lead + key + before, ":");
    AtConcat(s, pos, lead + key + before + ":", after);
    AtConcat(s, pos, lead + key + before + ":" + after, v);
    AtConcat(s, pos, lead + key + before + ":" + after + v, trail);
  }

  // ---- what a successful step implies --------------------------------------------------------

  lemma {:induction false} KeyTurn(s: string, pos: nat)
    requires pos < |s| && ParsePair(s, pos).Ok?
    ensures var k := SkipWs(s, pos);
            && k < |s| && s[k] == '\"' && ParseString(s, k).Ok?
            && var c := SkipWs(s, ParseString(s, k).pos);
            && c < |s| && s[c] == ':' && ParseValue(s, c + 1).Ok?
            && ParsePair(s, pos) ==
                 Ok(Member(ParseString(s, k).value, ParseValue(s, c + 1).value), ParseValue(s, c + 1).pos)
  {
  }

  // ---- the induction ----------------------------------------------------------------------

  /** The form spelled at pos has the value and the end of the result; an open one ends the text. */
  ghost predicate Spells(s: string, pos: nat, f: Form, r: Result<JsonValue>) {
    && AdmittedForm(f) && At(s, pos, FormText(f))
    && r == Ok(FormValue(f), pos + |FormText(f)|)
    && (!f.Closed? ==> r.pos == |s|)
  }

  lemma {:induction false} ValueSound(s: string, pos: nat) returns (lead: string, f: Form)
    requires pos <= |s| && ParseValue(s, pos).Ok?
    ensures AllSpace(lead) && At(s, pos, lead) && SkipWs(s, pos) == pos + |lead|
    ensures Spells(s, pos + |lead|, f, ParseValue(s, pos))
    decreases |s| - pos, 2
  {
    hide ParseArray, ParseObject, ParseString, ParseNumber, ParseKeyword, SkipWs, At;
    lead := GapSound(s, pos);
    var p := pos + |lead|;
    if s[p] == '{' {
      f := ObjectSound(s, p);
    } else if s[p] == '[' {
      f := ArraySound(s, p);
    } else if s[p] == '\"' {
      var ps := ParseStringSound(s, p);
      f := Closed(Str(ps));
    } else if s[p] == '-' || IsDigit(s[p]) {
      var n := NumberSound(s, p);
      f := Closed(Num(n));
    } else {
      var w := KeywordSound(s, p);
      f := Closed(Keyword(w));
    }
  }

  /** Nothing stands between the bracket and its partner or the end of the text. */
  lemma {:induction false} EmptyArraySound(s: string, pos: nat, gap: string) returns (f: Form)
    requires pos < |s| && s[pos] == '[' && ParseArray(s, pos).Ok?
    requires AllSpace(gap) && At(s, pos + 1, gap) && SkipWs(s, pos + 1) == pos + 1 + |gap|
    requires pos + 1 + |gap| == |s| || s[pos + 1 + |gap|] == ']'
    ensures Spells(s, pos, f, ParseArray(s, pos))
  {
    hide ParseItems, At, SkipWs;
    var p := pos + 1 + |gap|;
    JoinBrackets(s, pos, gap, "");
    assert "[" + gap + "" == "[" + gap;
    AtSlice(s, p, p);
    assert s[p..p] == "";
    if p == |s| {
      ItemsTurn(s, p, []);
      f := OpenArray(gap);
    } else {
      f := Closed(EmptyArr(gap));
    }
  }

  lemma {:induction false} ArraySound(s: string, pos: nat) returns (f: Form)
    requires pos < |s| && s[pos] == '[' && ParseArray(s, pos).Ok?
    ensures Spells(s, pos, f, ParseArray(s, pos))
    decreases |s| - pos, 1
  {
    hide ParseItems, ParseValue, ItemsText, AdmittedItems, At, ItemsValue, Spells, SpellsList;
    var gap := GapSound(s, pos + 1);
    var p := pos + 1 + |gap|;
    if p == |s| || s[p] == ']' {
      f := EmptyArraySound(s, pos, gap);
    } else {
      var items, closing := ItemsSound(s, p, []);
      assert [] + ItemsValue(items) == ItemsValue(items);
      f := FilledArraySound(s, pos, gap, items, closing);
    }
  }

  lemma {:induction false} FilledArraySound(s: string, pos: nat, gap: string, items: Items, closing: char)
    returns (f: Form)
    requires pos < |s| && s[pos] == '[' && AllSpace(gap) && At(s, pos + 1, gap)
    requires var p := pos + 1 + |gap|;
             && SkipWs(s, pos + 1) == p < |s| && s[p] != ']' && SpellsList(s, p, ItemsText(items), closing, ']')
             && ParseItems(s, p, []) == Ok(ItemsValue(items), p + |ItemsText(items)| + 1)
    requires AdmittedItems(items) && items.lead == ""
    ensures Spells(s, pos, f, ParseArray(s, pos))
  {
    hide ParseItems, ItemsText, AdmittedItems, At, ItemsValue, SkipWs;
    JoinBrackets(s, pos, gap, ItemsText(items));
    f := if closing == ']' then Closed(Arr(gap, items)) else OpenItems(gap, items);
  }

  /** One element with the white space around it. */
  lemma {:induction false} ItemSound(s: string, pos: nat) returns (lead: string, d: Syntax, trail: string)
    requires pos < |s| && ParseValue(s, pos).Ok? && SkipWs(s, ParseValue(s, pos).pos) < |s|
    ensures AllSpace(lead) && Admitted(d) && AllSpace(trail) && SkipWs(s, pos) == pos + |lead|
    ensures At(s, pos, lead + SyntaxText(d) + trail) && ParseValue(s, pos).value == SyntaxValue(d)
    ensures SkipWs(s, ParseValue(s, pos).pos) == pos + |lead + SyntaxText(d) + trail|
    decreases |s| - pos, 3
  {
    hide ParseValue, SkipWs, At, SyntaxText, Admitted;
    var f;
    lead, f := ValueSound(s, pos);
    trail := GapSound(s, ParseValue(s, pos).pos);
    d := f.d;
    JoinItem(s, pos, lead, SyntaxText(d), trail);
  }

  /** A list stands at pos and is left at a bracket, or at a comma that ends the text. */
  ghost predicate SpellsList(s: string, pos: nat, text: string, closing: char, bracket: char) {
    && At(s, pos, text)
    && var p := pos + |text|;
       p < |s| && s[p] == closing && (closing == bracket || (closing == ',' && p + 1 == |s|))
  }

  lemma {:induction false} SpellMore(s: string, pos: nat, first: string, rest: string, closing: char, bracket: char)
    requires At(s, pos, first) && pos + |first| < |s| && s[pos + |first|] == ','
    requires SpellsList(s, pos + |first| + 1, rest, closing, bracket)
    ensures SpellsList(s, pos, first + ("," + rest), closing, bracket)
  {
    JoinRest(s, pos, first, rest);
  }

  lemma {:induction false} ItemsSound(s: string, pos: nat, arr: seq<JsonValue>) returns (items: Items, closing: char)
    requires pos < |s| && ParseItems(s, pos, arr).Ok?
    ensures AdmittedItems(items) && SpellsList(s, pos, ItemsText(items), closing, ']')
    ensures SkipWs(s, pos) == pos + |items.lead|
    ensures ParseItems(s, pos, arr) == Ok(arr + ItemsValue(items), pos + |ItemsText(items)| + 1)
    decreases |s| - pos, 4
  {
    hide ParseItems, ParseValue, SkipWs, SyntaxText, Admitted, SyntaxValue;
    ItemsTurn(s, pos, arr);
    var lead, d, trail := ItemSound(s, pos);
    var w := lead + SyntaxText(d) + trail;
    var p := pos + |w|;
    var now := arr + [SyntaxValue(d)];
    if s[p] == ',' && p + 1 < |s| {
      var rest;
      rest, closing := ItemsSound(s, p + 1, now);
      items := MoreItems(lead, d, trail, rest);
      SpellMore(s, pos, w, ItemsText(rest), closing, ']');
    } else {
      items := LastItem(lead, d, trail);
      closing := s[p];
      if closing == ',' {
        ItemsTurn(s, p + 1, now);
      }
      assert ItemsText(items) == w + "" == w;
    }
    ItemsValueStep(items, arr);
  }

  /** Nothing stands between the bracket and its partner or the end of the text. */
  lemma {:induction false} EmptyObjectSound(s: string, pos: nat, gap: string) returns (f: Form)
    requires pos < |s| && s[pos] == '{' && ParseObject(s, pos).Ok?
    requires AllSpace(gap) && At(s, pos + 1, gap) && SkipWs(s, pos + 1) == pos + 1 + |gap|
    requires pos + 1 + |gap| == |s| || s[pos + 1 + |gap|] == '}'
    ensures Spells(s, pos, f, ParseObject(s, pos))
  {
    hide ParsePairs, At, SkipWs;
    var p := pos + 1 + |gap|;
    JoinBrackets(s, pos, gap, "");
    assert "{" + gap + "" == "{" + gap;
    AtSlice(s, p, p);
    assert s[p..p] == "";
    if p == |s| {
      PairsTurn(s, p, []);
      f := OpenObject(gap);
    } else {
      f := Closed(EmptyObj(gap));
    }
  }

  lemma {:induction false} ObjectSound(s: string, pos: nat) returns (f: Form)
    requires pos < |s| && s[pos] == '{' && ParseObject(s, pos).Ok?
    ensures Spells(s, pos, f, ParseObject(s, pos))
    decreases |s| - pos, 1
  {
    hide ParsePairs, ParsePair, PairsText, AdmittedPairs, At, Put, PairsValue, Spells, SpellsList;
    var gap := GapSound(s, pos + 1);
    var p := pos + 1 + |gap|;
    if p == |s| || s[p] == '}' {
      f := EmptyObjectSound(s, pos, gap);
    } else {
      var pairs, closing := PairsSound(s, p, []);
      f := FilledObjectSound(s, pos, gap, pairs, closing);
    }
  }

  lemma {:induction false} FilledObjectSound(s: string, pos: nat, gap: string, pairs: Pairs, closing: char)
    returns (f: Form)
    requires pos < |s| && s[pos] == '{' && AllSpace(gap) && At(s, pos + 1, gap)
    requires var p := pos + 1 + |gap|;
             && SkipWs(s, pos + 1) == p < |s| && s[p] != '}' && SpellsList(s, p, PairsText(pairs), closing, '}')
             && ParsePairs(s, p, []) == Ok(PairsValue(pairs, []), p + |PairsText(pairs)| + 1)
    requires AdmittedPairs(pairs) && pairs.p.lead == ""
    ensures Spells(s, pos, f, ParseObject(s, pos))
  {
    hide ParsePairs, PairsText, AdmittedPairs, At, PairsValue, SkipWs;
    JoinBrackets(s, pos, gap, PairsText(pairs));
    f := if closing == '}' then Closed(Obj(gap, pairs)) else OpenPairs(gap, pairs);
  }

  lemma {:induction false} KeySound(s: string, pos: nat, k: nat, c: nat)
    returns (lead: string, key: seq<Piece>, before: string)
    requires pos < |s| && k == SkipWs(s, pos) < |s| && s[k] == '\"' && ParseString(s, k).Ok?
    requires c == SkipWs(s, ParseString(s, k).pos)
    ensures AllSpace(lead) && AdmittedPieces(key) && AllSpace(before)
    ensures k == pos + |lead| && ParseString(s, k).value == PiecesValue(key)
    ensures At(s, pos, lead) && At(s, k, QuotedText(key)) && At(s, k + |QuotedText(key)|, before)
    ensures c == k + |QuotedText(key)| + |before|
  {
    lead := GapSound(s, pos);
    key := ParseStringSound(s, k);
    before := GapSound(s, k + |QuotedText(key)|);
  }

  lemma {:induction false} PairSound(s: string, pos: nat) returns (p: Pair)
    requires pos < |s| && ParsePair(s, pos).Ok? && SkipWs(s, ParsePair(s, pos).pos) < |s|
    ensures AdmittedPair(p) && At(s, pos, PairText(p)) && SkipWs(s, pos) == pos + |p.lead|
    ensures ParsePair(s, pos).value == Member(PiecesValue(p.key), SyntaxValue(p.v))
    ensures SkipWs(s, ParsePair(s, pos).pos) == pos + |PairText(p)|
    decreases |s| - pos, 3
  {
    hide ParsePair, ParseValue, ParseString, SkipWs, QuotedText, SyntaxText, Admitted, SyntaxValue;
    KeyTurn(s, pos);
    var k := SkipWs(s, pos);
    var c := SkipWs(s, ParseString(s, k).pos);
    var lead, key, before := KeySound(s, pos, k, c);
    var after, d, trail := PairValueSound(s, c + 1, ParsePair(s, pos).pos);
    JoinPair(s, pos, lead, QuotedText(key), before, after, SyntaxText(d), trail);
    p := Pair(lead, key, before, after, d, trail);
  }

  /** The value of a pair, with the white space in front of it and behind it. */
  lemma {:induction false} PairValueSound(s: string, pos: nat, end: nat)
    returns (after: string, d: Syntax, trail: string)
    requires pos <= |s| && ParseValue(s, pos).Ok? && end == ParseValue(s, pos).pos && SkipWs(s, end) < |s|
    ensures AllSpace(after) && Admitted(d) && AllSpace(trail)
    ensures At(s, pos, after) && At(s, pos + |after|, SyntaxText(d)) && At(s, pos + |after| + |SyntaxText(d)|, trail)
    ensures ParseValue(s, pos).value == SyntaxValue(d)
    ensures SkipWs(s, end) == pos + |after| + |SyntaxText(d)| + |trail|
    decreases |s| - pos, 3
  {
    var f;
    after, f := ValueSound(s, pos);
    trail := GapSound(s, end);
    d := f.d;
  }

  lemma {:induction false} PairsSound(s: string, pos: nat, obj: seq<Member>) returns (pairs: Pairs, closing: char)
    requires pos < |s| && ParsePairs(s, pos, obj).Ok?
    ensures AdmittedPairs(pairs) && SpellsList(s, pos, PairsText(pairs), closing, '}')
    ensures SkipWs(s, pos) == pos + |pairs.p.lead|
    ensures ParsePairs(s, pos, obj) == Ok(PairsValue(pairs, obj), pos + |PairsText(pairs)| + 1)
    decreases |s| - pos, 4
  {
    hide ParsePairs, ParsePair, SkipWs, Put, PairText, AdmittedPair, SyntaxValue;
    PairsTurn(s, pos, obj);
    var first := PairSound(s, pos);
    var w := PairText(first);
    var p := pos + |w|;
    var now := Put(obj, PiecesValue(first.key), SyntaxValue(first.v));
    if s[p] == ',' && p + 1 < |s| {
      var rest;
      rest, closing := PairsSound(s, p + 1, now);
      pairs := MorePairs(first, rest);
      SpellMore(s, pos, w, PairsText(rest), closing, '}');
    } else {
      pairs := LastPair(first);
      closing := s[p];
      if closing == ',' {
        PairsTurn(s, p + 1, now);
      }
      assert PairsText(pairs) == w + "" == w;
    }
  }

  /** A text the parser accepts is the text of an admitted document with the returned value. */
  lemma {:induction false} ParseSound(s: string) returns (doc: Document)
    requires Parse(s).Ok?
    ensures AdmittedDocument(doc) && DocumentText(doc) == s && DocumentValue(doc) == Parse(s).value
  {
    var lead, f := ValueSound(s, 0);
    var trail := GapSound(s, ParseValue(s, 0).pos);
    doc := Document(lead, f, trail);
    JoinItem(s, 0, lead, FormText(f), trail);
    AtIsSlice(s, 0, DocumentText(doc));
  }
}
