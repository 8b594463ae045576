module Rfc8259 {
  // The JSON grammar of RFC 8259, sections 2 to 7, as a part of the language the parser reads.

  import opened Text
  import opened JsonTree
  import opened Grammar
  import opened ParserSpec
  import opened Completeness
  import opened Uniqueness
  import opened Meaning

  /** Section 2: space, horizontal tab, line feed, carriage return. */
  predicate Ws(t: string) {
    forall i | 0 <= i < |t| :: t[i] == ' ' || t[i] == '\t' || t[i] == '\n' || t[i] == '\r'
  }

  predicate HexDigit(c: char) {
    IsDigit(c) || 'a' <= c <= 'f' || 'A' <= c <= 'F'
  }

  /** Section 7: unescaped characters from U+0020 on except quote and backslash, the eight
      one-letter escapes, and \u with four hexadecimal digits. */
  predicate Char(p: Piece) {
    match p
    case Raw(c) => 0x20 as char <= c && c != '\"' && c != '\\'
    case Escape(c) => c in {'\"', '\\', '/', 'b', 'f', 'n', 'r', 't'}
    case Unicode(code) => |code| == 4 && forall i | 0 <= i < 4 :: HexDigit(code[i])
  }

  predicate Chars(ps: seq<Piece>) {
    forall i | 0 <= i < |ps| :: Char(ps[i])
  }

  predicate DigitRun(t: string) {
    t != "" && forall i | 0 <= i < |t| :: 0x30 as char <= t[i] <= 0x39 as char
  }

  /** Section 6: no leading zero, digits on both sides of the point and in the exponent, whose mark is
      e or E and whose sign may be missing. */
  predicate NumberLit(n: Numeral) {
    && DigitRun(n.whole) && (n.whole[0] == 0x30 as char ==> |n.whole| == 1)
    && (n.frac.Some? ==> DigitRun(n.frac.value))
    && (n.exp.Some? ==>
          && n.exp.value.mark in {0x65 as char, 0x45 as char}
          && n.exp.value.sign in ["", "-", "+"] && DigitRun(n.exp.value.digits))
  }

  /** Sections 3 to 5. */
  predicate Value(d: Syntax) {
    match d
    case Keyword(_) => true
    case Num(n) => NumberLit(n)
    case Str(ps) => Chars(ps)
    case EmptyArr(gap) => Ws(gap)
    case Arr(gap, items) => Ws(gap) && items.lead == "" && Elements(items)
    case EmptyObj(gap) => Ws(gap)
    case Obj(gap, pairs) => Ws(gap) && pairs.p.lead == "" && Members(pairs)
  }

  predicate Elements(items: Items) {
    Ws(items.lead) && Value(items.v) && Ws(items.trail) && (items.MoreItems? ==> Elements(items.rest))
  }

  predicate OneMember(p: Pair) {
    && Ws(p.lead) && Chars(p.key) && Ws(p.beforeColon) && Ws(p.afterColon) && Value(p.v) && Ws(p.trail)
  }

  predicate Members(pairs: Pairs) {
    OneMember(pairs.p) && (pairs.MorePairs? ==> Members(pairs.rest))
  }

  /** JSON-text = ws value ws */
  ghost predicate JsonText(s: string, d: Syntax) {
    exists lead: string, trail: string :: Ws(lead) && Ws(trail) && Value(d) && s == lead + SyntaxText(d) + trail
  }

  lemma {:induction false} CharsAdmitted(ps: seq<Piece>)
    requires Chars(ps)
    ensures AdmittedPieces(ps)
  {
  }

  lemma {:induction false} NumberAdmitted(n: Numeral)
    requires NumberLit(n)
    ensures AdmittedNumeral(n)
  {
    if n.exp.Some? {
      var sign := n.exp.value.sign;
      assert sign in ["", "-", "+"] <==> sign == "" || sign == "-" || sign == "+";
    }
  }

  lemma {:induction false} ValueAdmitted(d: Syntax)
    requires Value(d)
    ensures Admitted(d)
    decreases d, 0
  {
    match d {
      case Keyword(_) =>
      case Num(n) => NumberAdmitted(n);
      case Str(ps) => CharsAdmitted(ps);
      case EmptyArr(_) =>
      case Arr(_, items) => ElementsAdmitted(items);
      case EmptyObj(_) =>
      case Obj(_, pairs) => MembersAdmitted(pairs);
    }
  }

  lemma {:induction false} ElementsAdmitted(items: Items)
    requires Elements(items)
    ensures AdmittedItems(items)
    decreases items, 1
  {
    ValueAdmitted(items.v);
    if items.MoreItems? {
      ElementsAdmitted(items.rest);
    }
  }

  lemma {:induction false} MembersAdmitted(pairs: Pairs)
    requires Members(pairs)
    ensures AdmittedPairs(pairs)
    decreases pairs, 1
  {
    ValueAdmitted(pairs.p.v);
    CharsAdmitted(pairs.p.key);
    if pairs.MorePairs? {
      MembersAdmitted(pairs.rest);
    }
  }

  /** Every JSON text of the RFC is accepted and yields the tree it denotes and no other: the characters
      of section 7 by their codes, the numbers of section 6 as exact real numbers, the last value of
      equal names, and '?' for \uXXXX. */
  lemma {:induction false} AcceptsRfc(s: string, d: Syntax, v: JsonValue)
    requires JsonText(s, d)
    ensures Parse(s) == Ok(v, |s|) <==> ValueMeans(d, v)
  {
    hide Parse, SyntaxValue, ValueMeans, Value, Admitted;
    var lead: string, trail: string :| Ws(lead) && Ws(trail) && Value(d) && s == lead + SyntaxText(d) + trail;
    ValueAdmitted(d);
    ParseComplete(s, Document(lead, Closed(d), trail));
    ValueMeaning(d, v);
  }

  /** Every value of the RFC denotes a tree. */
  lemma {:induction false} DenotesTree(d: Syntax) returns (v: JsonValue)
    requires Value(d)
    ensures ValueMeans(d, v)
  {
    hide SyntaxValue, ValueMeans, Value;
    ValueAdmitted(d);
    v := SyntaxValue(d);
    ValueMeaning(d, v);
  }

  /** The derivation is one the RFC allows: a closed value, with its white space and spellings only. */
  predicate RfcDocument(doc: Document) {
    doc.form.Closed? && Ws(doc.lead) && Value(doc.form.d) && Ws(doc.trail)
  }

  /** Exactly which accepted texts are JSON texts of the RFC: those whose one derivation it allows. */
  lemma {:induction false} RfcExactly(s: string, doc: Document)
    requires AdmittedDocument(doc) && DocumentText(doc) == s
    ensures (exists d :: JsonText(s, d)) <==> RfcDocument(doc)
  {
    if RfcDocument(doc) {
      assert s == doc.lead + SyntaxText(doc.form.d) + doc.trail;
      assert JsonText(s, doc.form.d);
    }
    if exists d :: JsonText(s, d) {
      var d :| JsonText(s, d);
      var lead: string, trail: string :| Ws(lead) && Ws(trail) && Value(d) && s == lead + SyntaxText(d) + trail;
      ValueAdmitted(d);
      DerivationUnique(doc, Document(lead, Closed(d), trail));
    }
  }
}
