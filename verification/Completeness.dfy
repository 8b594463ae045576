/**
 Every text the grammar derives is parsed to the value it stands for: the parser is followed over
 a text whose parts are known.
 */
module Completeness {
  import opened Text
  import opened Decimal
  import opened JsonTree
  import opened Grammar
  import opened ParserSpec
  import opened Scanning

  predicate IsDelimiter(c: char) {
    c == ',' || c == ']' || c == '}'
  }

  /** What may follow a value: white space, a separator, a closing bracket or the end. */
  predicate Delimited(s: string, pos: nat) {
    pos < |s| ==> IsSpace(s[pos]) || IsDelimiter(s[pos])
  }

  lemma {:induction false} TrailOver(s: string, pos: nat, trail: string)
    requires At(s, pos, trail) && AllSpace(trail)
    requires pos + |trail| < |s| && IsDelimiter(s[pos + |trail|])
    ensures Delimited(s, pos) && SkipWs(s, pos) == pos + |trail|
  {
    SkipWsOver(s, pos, trail);
    if trail != "" {
      assert IsSpace(trail[0]);
    }
  }

  // ---- scalars --------------------------------------------------------------------------

  lemma {:induction false} NumberStarts(s: string, pos: nat, n: Numeral)
    requires At(s, pos, NumeralText(n)) && AdmittedNumeral(n)
    ensures pos < |s| && (s[pos] == '-' || IsDigit(s[pos]))
  {
    NumeralParts(s, pos, n);
    assert !n.minus ==> IsDigit(n.whole[0]);
  }

  lemma {:induction false} NumberStep(s: string, pos: nat, t: string, x: Numeric)
    requires At(s, pos, t) && LexNumber(s, pos) == pos + |t| && Stod(t) == Some(x)
    requires pos < |s| && (s[pos] == '-' || IsDigit(s[pos]))
    ensures ParseNumber(s, pos) == Ok(Number(x), pos + |t|)
  {
    hide Stod, At, LexNumber;
    SliceOf(s, pos, t);
  }

  lemma {:induction false} NumberOver(s: string, pos: nat, n: Numeral)
    requires At(s, pos, NumeralText(n)) && AdmittedNumeral(n)
    requires Delimited(s, pos + |NumeralText(n)|)
    ensures pos < |s| && (s[pos] == '-' || IsDigit(s[pos]))
    ensures ParseNumber(s, pos) == Ok(Number(NumeralValue(n)), pos + |NumeralText(n)|)
  {
    hide ParseNumber, LexNumber, Stod, At, NumeralText, NumeralValue;
    var t := NumeralText(n);
    NumberStarts(s, pos, n);
    LexNumberOver(s, pos, n);
    StodNumeral(t, n);
    NumberStep(s, pos, t, NumeralValue(n));
  }

  lemma {:induction false} KeywordOver(s: string, pos: nat, w: Word)
    requires At(s, pos, WordText(w))
    ensures pos < |s| && (s[pos] == 't' || s[pos] == 'f' || s[pos] == 'n')
    ensures ParseKeyword(s, pos) == Ok(WordValue(w), pos + |WordText(w)|)
  {
  }

  // ---- single steps of the parser ---------------------------------------------------------

  /** Which parser reads the value whose first character is at p. */
  lemma {:induction false} Dispatch(s: string, pos: nat, p: nat)
    requires pos <= |s| && SkipWs(s, pos) == p < |s|
    ensures s[p] == '{' ==> ParseValue(s, pos) == ParseObject(s, p)
    ensures s[p] == '[' ==> ParseValue(s, pos) == ParseArray(s, p)
    ensures s[p] == '\"' && ParseString(s, p).Ok? ==>
              ParseValue(s, pos) == Ok(String(ParseString(s, p).value), ParseString(s, p).pos)
    ensures s[p] == '-' || IsDigit(s[p]) ==> ParseValue(s, pos) == ParseNumber(s, p)
    ensures s[p] == 't' || s[p] == 'f' || s[p] == 'n' ==> ParseValue(s, pos) == ParseKeyword(s, p)
  {
  }

  lemma {:induction false} KeyValueStep(s: string, pos: nat, k: nat, key: string, b: nat, c: nat, v: JsonValue, q: nat)
    requires pos <= |s| && SkipWs(s, pos) == k < |s| && s[k] == '\"' && ParseString(s, k) == Ok(key, b)
    requires SkipWs(s, b) == c < |s| && s[c] == ':' && ParseValue(s, c + 1) == Ok(v, q)
    ensures ParsePair(s, pos) == Ok(Member(key, v), q)
  {
    hide ParseString, ParseValue, SkipWs;
  }

  lemma {:induction false} ArrayStep(s: string, pos: nat, p: nat)
    requires pos < |s| && SkipWs(s, pos + 1) == p
    ensures p < |s| && s[p] == ']' ==> ParseArray(s, pos) == Ok(Array([]), p + 1)
    ensures (p < |s| ==> s[p] != ']') && ParseItems(s, p, []).Ok? ==>
              ParseArray(s, pos) == Ok(Array(ParseItems(s, p, []).value), ParseItems(s, p, []).pos)
  {
  }

  lemma {:induction false} ObjectStep(s: string, pos: nat, p: nat)
    requires pos < |s| && SkipWs(s, pos + 1) == p
    ensures p < |s| && s[p] == '}' ==> ParseObject(s, pos) == Ok(Object([]), p + 1)
    ensures (p < |s| ==> s[p] != '}') && ParsePairs(s, p, []).Ok? ==>
              ParseObject(s, pos) == Ok(Object(ParsePairs(s, p, []).value), ParsePairs(s, p, []).pos)
  {
  }

  // ---- where the parts of a spelled tree stand ----------------------------------------------

  /** The pieces of a bracketed text, one behind the other. */
  lemma {:induction false} BracketsOver(s: string, pos: nat, open: char, gap: string, body: string, close: char)
    requires At(s, pos, [open] + gap + body + [close])
    ensures pos < |s| && s[pos] == open && At(s, pos + 1, gap) && At(s, pos + 1 + |gap|, body)
    ensures pos + 1 + |gap| + |body| < |s| && s[pos + 1 + |gap| + |body|] == close
  {
    AtConcat(s, pos, [open] + gap + body, [close]);
    AtConcat(s, pos, [open] + gap, body);
    AtConcat(s, pos, [open], gap);
  }

  lemma {:induction false} EmptyBracketsOver(s: string, pos: nat, open: char, gap: string, close: char)
    requires At(s, pos, [open] + gap + [close]) && AllSpace(gap) && !IsSpace(close)
    ensures pos < |s| && s[pos] == open && pos + 1 + |gap| < |s| && s[pos + 1 + |gap|] == close
    ensures SkipWs(s, pos + 1) == pos + 1 + |gap|
  {
    AtConcat(s, pos, [open] + gap, [close]);
    AtConcat(s, pos, [open], gap);
    SkipWsOver(s, pos + 1, gap);
  }

  /** The first character of a value is never white space or a closing bracket. */
  lemma {:induction false} ValueStarts(s: string, pos: nat, d: Syntax)
    requires At(s, pos, SyntaxText(d)) && Admitted(d)
    ensures pos < |s| && !IsSpace(s[pos]) && s[pos] != ']' && s[pos] != '}'
  {
    match d {
      case Keyword(w) => KeywordOver(s, pos, w);
      case Num(n) => NumberStarts(s, pos, n);
      case Str(ps) => ParseStringOver(s, pos, ps);
      case EmptyArr(g) => EmptyBracketsOver(s, pos, '[', g, ']');
      case Arr(g, items) => BracketsOver(s, pos, '[', g, ItemsText(items), ']');
      case EmptyObj(g) => EmptyBracketsOver(s, pos, '{', g, '}');
      case Obj(g, pairs) => BracketsOver(s, pos, '{', g, PairsText(pairs), '}');
    }
  }

  lemma {:induction false} ItemParts(s: string, pos: nat, items: Items)
    requires At(s, pos, ItemsText(items))
    ensures var p := pos + |items.lead|;
            var q := p + |SyntaxText(items.v)|;
            && At(s, pos, items.lead) && At(s, p, SyntaxText(items.v)) && At(s, q, items.trail)
            && (items.LastItem? ==> |ItemsText(items)| == q + |items.trail| - pos)
            && (items.MoreItems? ==>
                  && q + |items.trail| < |s| && s[q + |items.trail|] == ','
                  && At(s, q + |items.trail| + 1, ItemsText(items.rest))
                  && |ItemsText(items)| == q + |items.trail| + 1 + |ItemsText(items.rest)| - pos)
  {
    var head := items.lead + SyntaxText(items.v) + items.trail;
    var rest := if items.LastItem? then "" else "," + ItemsText(items.rest);
    AtConcat(s, pos, head, rest);
    AtConcat(s, pos, items.lead + SyntaxText(items.v), items.trail);
    AtConcat(s, pos, items.lead, SyntaxText(items.v));
    if items.MoreItems? {
      AtConcat(s, pos + |head|, ",", ItemsText(items.rest));
    }
  }

  lemma {:induction false} PairsParts(s: string, pos: nat, pairs: Pairs)
    requires At(s, pos, PairsText(pairs))
    ensures var p := pos + |PairText(pairs.p)|;
            && At(s, pos, PairText(pairs.p))
            && (pairs.LastPair? ==> |PairsText(pairs)| == p - pos)
            && (pairs.MorePairs? ==>
                  && p < |s| && s[p] == ',' && At(s, p + 1, PairsText(pairs.rest))
                  && |PairsText(pairs)| == p + 1 + |PairsText(pairs.rest)| - pos)
  {
    PairsPartsOf(s, pos, pairs, PairText(pairs.p));
  }

  lemma {:induction false} PairsPartsOf(s: string, pos: nat, pairs: Pairs, first: string)
    requires At(s, pos, PairsText(pairs)) && first == PairText(pairs.p)
    ensures At(s, pos, first)
    ensures pairs.LastPair? ==> |PairsText(pairs)| == |first|
    ensures pairs.MorePairs? ==>
              && pos + |first| < |s| && s[pos + |first|] == ',' && At(s, pos + |first| + 1, PairsText(pairs.rest))
              && |PairsText(pairs)| == |first| + 1 + |PairsText(pairs.rest)|
  {
    var rest := if pairs.LastPair? then "" else "," + PairsText(pairs.rest);
    assert PairsText(pairs) == first + rest;
    AtConcat(s, pos, first, rest);
    if pairs.MorePairs? {
      AtConcat(s, pos + |first|, ",", PairsText(pairs.rest));
    }
  }

  lemma {:induction false} PairParts(s: string, pos: nat, p: Pair)
    requires At(s, pos, PairText(p))
    ensures var k := pos + |p.lead|;
            var b := k + |QuotedText(p.key)|;
            var c := b + |p.beforeColon|;
            var v := c + 1 + |p.afterColon|;
            var t := v + |SyntaxText(p.v)|;
            && At(s, pos, p.lead) && At(s, k, QuotedText(p.key)) && At(s, b, p.beforeColon)
            && c < |s| && s[c] == ':' && At(s, c + 1, p.afterColon) && At(s, v, SyntaxText(p.v))
            && At(s, t, p.trail) && |PairText(p)| == t + |p.trail| - pos
  {
    PairPartsOf(s, pos, p.lead, QuotedText(p.key), p.beforeColon, p.afterColon, SyntaxText(p.v), p.trail);
  }

  lemma {:induction false} PairPartsOf(s: string, pos: nat, lead: string, key: string, before: string,
                                       after: string, v: string, trail: string)
    requires At(s, pos, lead + key + before + ":" + after + v + trail)
    ensures At(s, pos, lead) && At(s, pos + |lead|, key) && At(s, pos + |lead| + |key|, before)
    ensures var c := pos + |lead| + |key| + |before|;
            && c < |s| && s[c] == ':' && At(s, c + 1, after) && At(s, c + 1 + |after|, v)
            && At(s, c + 1 + |after| + |v|, trail)
  {
    AtConcat(s, pos, lead + key + before + ":" + after + v, trail);
    AtConcat(s, pos, lead + key + before + ":" + after, v);
    AtConcat(s, pos, lead + key + before + ":", after);
    AtConcat(s, pos, lead + key + before, ":");
    AtConcat(s, pos, lead + key, before);
    AtConcat(s, pos, lead, key);
  }

  // ---- the induction ------------------------------------------------------------------------

  lemma {:induction false} ValueOver(s: string, pos: nat, gap: string, d: Syntax)
    requires At(s, pos, gap) && AllSpace(gap)
    requires At(s, pos + |gap|, SyntaxText(d)) && Admitted(d)
    requires Delimited(s, pos + |gap| + |SyntaxText(d)|)
    ensures ParseValue(s, pos) == Ok(SyntaxValue(d), pos + |gap| + |SyntaxText(d)|)
    decreases d, 1
  {
    hide ParseValue, ParseArray, ParseObject, ParseNumber, ParseKeyword, ParseString, SkipWs, At, SyntaxText, Admitted;
    var p := pos + |gap|;
    ValueStarts(s, p, d);
    SkipWsOver(s, pos, gap);
    if d.Arr? || d.Obj? {
      ContainerOver(s, pos, p, d);
    } else {
      ScalarOver(s, pos, p, d);
    }
  }

  lemma {:induction false} ScalarOver(s: string, pos: nat, p: nat, d: Syntax)
    requires pos <= |s| && SkipWs(s, pos) == p < |s|
    requires At(s, p, SyntaxText(d)) && Admitted(d) && !d.Arr? && !d.Obj?
    requires Delimited(s, p + |SyntaxText(d)|)
    ensures ParseValue(s, pos) == Ok(SyntaxValue(d), p + |SyntaxText(d)|)
  {
    hide ParseValue, ParseArray, ParseObject, ParseNumber, ParseKeyword, ParseString, SkipWs, At;
    match d {
      case Keyword(w) =>
        KeywordOver(s, p, w);
        Dispatch(s, pos, p);
      case Num(n) =>
        NumberOver(s, p, n);
        Dispatch(s, pos, p);
      case Str(ps) =>
        ParseStringOver(s, p, ps);
        Dispatch(s, pos, p);
      case _ =>
        EmptyOver(s, pos, p, d);
    }
  }

  lemma {:induction false} EmptyOver(s: string, pos: nat, p: nat, d: Syntax)
    requires pos <= |s| && SkipWs(s, pos) == p < |s|
    requires At(s, p, SyntaxText(d)) && Admitted(d) && (d.EmptyArr? || d.EmptyObj?)
    ensures ParseValue(s, pos) == Ok(SyntaxValue(d), p + |SyntaxText(d)|)
  {
    hide ParseValue, ParseArray, ParseObject, ParseNumber, ParseKeyword, ParseString, SkipWs, At;
    Dispatch(s, pos, p);
    if d.EmptyArr? {
      EmptyBracketsOver(s, p, '[', d.gap, ']');
      ArrayStep(s, p, p + 1 + |d.gap|);
    } else {
      EmptyBracketsOver(s, p, '{', d.gap, '}');
      ObjectStep(s, p, p + 1 + |d.gap|);
    }
  }

  lemma {:induction false} ContainerOver(s: string, pos: nat, p: nat, d: Syntax)
    requires pos <= |s| && SkipWs(s, pos) == p < |s|
    requires At(s, p, SyntaxText(d)) && Admitted(d) && (d.Arr? || d.Obj?)
    ensures ParseValue(s, pos) == Ok(SyntaxValue(d), p + |SyntaxText(d)|)
    decreases d, 0
  {
    hide ParseValue, ParseArray, ParseObject, ParseNumber, ParseKeyword, ParseString;
    hide SkipWs, ItemsText, PairsText, AdmittedItems, AdmittedPairs, At;
    Dispatch(s, pos, p);
    if d.Arr? {
      BracketsOver(s, p, '[', d.gap, ItemsText(d.items), ']');
      ArrayOver(s, p, d.gap, d.items, ']');
    } else {
      BracketsOver(s, p, '{', d.gap, PairsText(d.pairs), '}');
      ObjectOver(s, p, d.gap, d.pairs, '}');
    }
  }

  /** A list is left at its closing bracket, or at a comma that ends the text. */
  predicate Leaves(s: string, pos: nat, closing: char, bracket: char) {
    && pos < |s| && s[pos] == closing && IsDelimiter(closing)
    && (closing == bracket || (closing == ',' && pos + 1 == |s|))
  }

  lemma {:induction false} ArrayOver(s: string, pos: nat, gap: string, items: Items, closing: char)
    requires pos < |s| && At(s, pos + 1, gap) && AllSpace(gap)
    requires At(s, pos + 1 + |gap|, ItemsText(items)) && AdmittedItems(items) && items.lead == ""
    requires Leaves(s, pos + 1 + |gap| + |ItemsText(items)|, closing, ']')
    ensures ParseArray(s, pos) == Ok(Array(ItemsValue(items)), pos + 1 + |gap| + |ItemsText(items)| + 1)
    decreases items, 3
  {
    hide ParseArray, ParseItems, SkipWs, SyntaxText, ItemsText, At;
    var p := pos + 1 + |gap|;
    ItemParts(s, p, items);
    ValueStarts(s, p, items.v);
    SkipWsOver(s, pos + 1, gap);
    ItemsOver(s, p, items, [], closing);
    ArrayStep(s, pos, p);
    assert [] + ItemsValue(items) == ItemsValue(items);
  }

  lemma {:induction false} ItemsOver(s: string, pos: nat, items: Items, arr: seq<JsonValue>, closing: char)
    requires At(s, pos, ItemsText(items)) && AdmittedItems(items)
    requires Leaves(s, pos + |ItemsText(items)|, closing, ']')
    ensures ParseItems(s, pos, arr) == Ok(arr + ItemsValue(items), pos + |ItemsText(items)| + 1)
    decreases items, 2
  {
    hide ParseItems, ParseValue, SkipWs, ItemsText, SyntaxText, Admitted, At;
    var now := arr + [SyntaxValue(items.v)];
    var p := ItemOver(s, pos, items, arr, closing);
    ItemsValueStep(items, arr);
    if items.MoreItems? {
      ItemsOver(s, p + 1, items.rest, now, closing);
    } else {
      ItemsTurn(s, p + 1, now);
    }
  }

  /** The first element of a list is read and the loop goes on behind its separator. */
  lemma {:induction false} ItemOver(s: string, pos: nat, items: Items, arr: seq<JsonValue>, closing: char)
    returns (p: nat)
    requires At(s, pos, ItemsText(items)) && AdmittedItems(items)
    requires Leaves(s, pos + |ItemsText(items)|, closing, ']')
    ensures p < |s|
    ensures items.LastItem? ==> p == pos + |ItemsText(items)|
    ensures items.MoreItems? ==>
              && s[p] == ',' && At(s, p + 1, ItemsText(items.rest))
              && p + 1 + |ItemsText(items.rest)| == pos + |ItemsText(items)|
    ensures s[p] == ']' ==> ParseItems(s, pos, arr) == Ok(arr + [SyntaxValue(items.v)], p + 1)
    ensures s[p] == ',' ==> ParseItems(s, pos, arr) == ParseItems(s, p + 1, arr + [SyntaxValue(items.v)])
    decreases items, 1
  {
    hide ParseItems, ParseValue, SkipWs, ItemsText, SyntaxText, Admitted, At;
    var q := pos + |items.lead| + |SyntaxText(items.v)|;
    p := q + |items.trail|;
    ItemParts(s, pos, items);
    TrailOver(s, q, items.trail);
    ValueOver(s, pos, items.lead, items.v);
    ItemsTurn(s, pos, arr);
  }

  lemma {:induction false} ObjectOver(s: string, pos: nat, gap: string, pairs: Pairs, closing: char)
    requires pos < |s| && At(s, pos + 1, gap) && AllSpace(gap)
    requires At(s, pos + 1 + |gap|, PairsText(pairs)) && AdmittedPairs(pairs) && pairs.p.lead == ""
    requires Leaves(s, pos + 1 + |gap| + |PairsText(pairs)|, closing, '}')
    ensures ParseObject(s, pos) == Ok(Object(PairsValue(pairs, [])), pos + 1 + |gap| + |PairsText(pairs)| + 1)
    decreases pairs, 3
  {
    hide ParseObject, ParsePairs, SkipWs, PairsText, At;
    var p := pos + 1 + |gap|;
    PairStarts(s, p, pairs);
    SkipWsOver(s, pos + 1, gap);
    PairsOver(s, p, pairs, [], closing);
    ObjectStep(s, pos, p);
  }

  lemma {:induction false} PairStarts(s: string, pos: nat, pairs: Pairs)
    requires At(s, pos, PairsText(pairs)) && AdmittedPairs(pairs) && pairs.p.lead == ""
    ensures pos < |s| && s[pos] == '\"'
  {
    PairsParts(s, pos, pairs);
    PairParts(s, pos, pairs.p);
    ParseStringOver(s, pos, pairs.p.key);
  }

  lemma {:induction false} PairOver(s: string, pos: nat, p: Pair) returns (q: nat)
    requires At(s, pos, PairText(p)) && AdmittedPair(p)
    requires pos + |PairText(p)| < |s| && IsDelimiter(s[pos + |PairText(p)|])
    ensures q <= |s| && ParsePair(s, pos) == Ok(Member(PiecesValue(p.key), SyntaxValue(p.v)), q)
    ensures SkipWs(s, q) == pos + |PairText(p)|
    decreases p, 1
  {
    hide ParsePair, ParseValue, ParseString, SkipWs, PairText, QuotedText, SyntaxText, Admitted, AdmittedPieces, At;
    var k := pos + |p.lead|;
    var b := k + |QuotedText(p.key)|;
    var c := b + |p.beforeColon|;
    q := c + 1 + |p.afterColon| + |SyntaxText(p.v)|;
    PairParts(s, pos, p);
    TrailOver(s, q, p.trail);
    ValueOver(s, c + 1, p.afterColon, p.v);
    KeyOver(s, pos, p.lead, p.key, p.beforeColon);
    KeyValueStep(s, pos, k, PiecesValue(p.key), b, c, SyntaxValue(p.v), q);
  }

  lemma {:induction false} KeyOver(s: string, pos: nat, lead: string, key: seq<Piece>, before: string)
    requires At(s, pos, lead) && AllSpace(lead)
    requires At(s, pos + |lead|, QuotedText(key)) && AdmittedPieces(key)
    requires At(s, pos + |lead| + |QuotedText(key)|, before) && AllSpace(before)
    requires var c := pos + |lead| + |QuotedText(key)| + |before|; c < |s| && s[c] == ':'
    ensures var k := pos + |lead|;
            var b := k + |QuotedText(key)|;
            && SkipWs(s, pos) == k < |s| && s[k] == '\"' && ParseString(s, k) == Ok(PiecesValue(key), b)
            && SkipWs(s, b) == b + |before|
  {
    ParseStringOver(s, pos + |lead|, key);
    SkipWsOver(s, pos, lead);
    SkipWsOver(s, pos + |lead| + |QuotedText(key)|, before);
  }

  lemma {:induction false} PairsOver(s: string, pos: nat, pairs: Pairs, obj: seq<Member>, closing: char)
    requires At(s, pos, PairsText(pairs)) && AdmittedPairs(pairs)
    requires Leaves(s, pos + |PairsText(pairs)|, closing, '}')
    ensures ParsePairs(s, pos, obj) == Ok(PairsValue(pairs, obj), pos + |PairsText(pairs)| + 1)
    decreases pairs, 2
  {
    hide ParsePairs, ParsePair, SkipWs, PairsText, PairText, AdmittedPair, At, Put;
    var m := Member(PiecesValue(pairs.p.key), SyntaxValue(pairs.p.v));
    var p := pos + |PairText(pairs.p)|;
    PairsParts(s, pos, pairs);
    var q := PairOver(s, pos, pairs.p);
    PairsTurn(s, pos, obj);
    if pairs.MorePairs? {
      PairsOver(s, p + 1, pairs.rest, Put(obj, m.key, m.value), closing);
    } else {
      PairsTurn(s, p + 1, Put(obj, m.key, m.value));
    }
  }

  // ---- whole texts --------------------------------------------------------------------------

  lemma {:induction false} DocumentParts(s: string, doc: Document)
    requires s == DocumentText(doc)
    ensures At(s, 0, doc.lead) && At(s, |doc.lead|, FormText(doc.form))
    ensures At(s, |doc.lead| + |FormText(doc.form)|, doc.trail)
    ensures |s| == |doc.lead| + |FormText(doc.form)| + |doc.trail|
  {
    AtIsSlice(s, 0, s);
    AtConcat(s, 0, doc.lead + FormText(doc.form), doc.trail);
    AtConcat(s, 0, doc.lead, FormText(doc.form));
  }

  lemma {:induction false} ClosedComplete(s: string, lead: string, d: Syntax, trail: string)
    requires At(s, 0, lead) && AllSpace(lead) && At(s, |lead|, SyntaxText(d)) && Admitted(d)
    requires At(s, |lead| + |SyntaxText(d)|, trail) && AllSpace(trail) && |s| == |lead| + |SyntaxText(d)| + |trail|
    ensures Parse(s) == Ok(SyntaxValue(d), |s|)
  {
    hide ParseValue, SyntaxText, SyntaxValue, Admitted;
    var q := |lead| + |SyntaxText(d)|;
    SkipWsOver(s, q, trail);
    assert trail != "" ==> IsSpace(trail[0]);
    ValueOver(s, 0, lead, d);
  }

  lemma {:induction false} OpenComplete(s: string, lead: string, f: Form)
    requires At(s, 0, lead) && AllSpace(lead) && At(s, |lead|, FormText(f)) && |s| == |lead| + |FormText(f)|
    requires !f.Closed? && AdmittedDocument(Document(lead, f, ""))
    ensures ParseValue(s, 0) == Ok(FormValue(f), |s|)
  {
    hide ParseValue, ParseArray, ParseObject, ParseNumber, ParseKeyword, ParseString;
    hide SkipWs, ItemsText, PairsText, AdmittedItems, AdmittedPairs;
    var p := |lead|;
    match f {
      case OpenArray(gap) =>
        AtConcat(s, p, "[", gap);
        SkipWsOver(s, p + 1, gap);
        ArrayStep(s, p, |s|);
      case OpenItems(gap, items) =>
        BracketsOver(s, p, '[', gap, ItemsText(items), ',');
        ArrayOver(s, p, gap, items, ',');
      case OpenObject(gap) =>
        AtConcat(s, p, "{", gap);
        SkipWsOver(s, p + 1, gap);
        ObjectStep(s, p, |s|);
      case OpenPairs(gap, pairs) =>
        BracketsOver(s, p, '{', gap, PairsText(pairs), ',');
        ObjectOver(s, p, gap, pairs, ',');
    }
    SkipWsOver(s, 0, lead);
    Dispatch(s, 0, p);
  }

  /** The parser accepts every admitted document, with the value the grammar gives it. */
  lemma {:induction false} ParseComplete(s: string, doc: Document)
    requires AdmittedDocument(doc) && s == DocumentText(doc)
    ensures Parse(s) == Ok(DocumentValue(doc), |s|)
  {
    DocumentParts(s, doc);
    match doc.form {
      case Closed(d) => ClosedComplete(s, doc.lead, d, doc.trail);
      case _ => OpenComplete(s, doc.lead, doc.form);
    }
  }
}
