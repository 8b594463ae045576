/** The language the parser reads, given independently of it. */
module Grammar {
  // Concrete syntax trees, the text each tree spells, the value it stands for and which trees are admitted.

  import opened Text
  import opened Decimal
  import opened JsonTree

  /** What can stand between the quotes of a string: a character, an escape, or \u and four more. */
  datatype Piece = Raw(c: char) | Escape(c: char) | Unicode(code: string)

  datatype Exponent = Exponent(mark: char, sign: string, digits: string)

  datatype Numeral = Numeral(minus: bool, whole: string, frac: Option<string>, exp: Option<Exponent>)

  datatype Word = WordTrue | WordFalse | WordNull

  datatype Syntax =
    | Keyword(word: Word)
    | Num(numeral: Numeral)
    | Str(pieces: seq<Piece>)
    | EmptyArr(gap: string)
    | Arr(gap: string, items: Items)
    | EmptyObj(gap: string)
    | Obj(gap: string, pairs: Pairs)

  datatype Items =
    | LastItem(lead: string, v: Syntax, trail: string)
    | MoreItems(lead: string, v: Syntax, trail: string, rest: Items)

  datatype Pair = Pair(lead: string, key: seq<Piece>, beforeColon: string, afterColon: string, v: Syntax, trail: string)

  datatype Pairs = LastPair(p: Pair) | MorePairs(p: Pair, rest: Pairs)

  /** A whole text holds one value, or one of the four forms that break off inside a container. */
  datatype Form =
    | Closed(d: Syntax)
    | OpenArray(gap: string)
    | OpenItems(gap: string, items: Items)
    | OpenObject(gap: string)
    | OpenPairs(gap: string, pairs: Pairs)

  datatype Document = Document(lead: string, form: Form, trail: string)

  // ---- spelling -------------------------------------------------------------------------

  function PieceText(p: Piece): string {
    match p
    case Raw(c) => [c]
    case Escape(c) => ['\\', c]
    case Unicode(code) => "\\u" + code
  }

  function PiecesText(ps: seq<Piece>): string {
    if ps == [] then "" else PieceText(ps[0]) + PiecesText(ps[1..])
  }

  function QuotedText(ps: seq<Piece>): string {
    "\"" + PiecesText(ps) + "\""
  }

  function FracText(f: Option<string>): string {
    match f
    case None => ""
    case Some(digits) => "." + digits
  }

  function ExpText(e: Option<Exponent>): string {
    match e
    case None => ""
    case Some(x) => [x.mark] + x.sign + x.digits
  }

  function NumeralText(n: Numeral): string {
    (if n.minus then "-" else "") + n.whole + FracText(n.frac) + ExpText(n.exp)
  }

  function WordText(w: Word): string {
    match w
    case WordTrue => "true"
    case WordFalse => "false"
    case WordNull => "null"
  }

  function SyntaxText(d: Syntax): string {
    match d
    case Keyword(w) => WordText(w)
    case Num(n) => NumeralText(n)
    case Str(ps) => QuotedText(ps)
    case EmptyArr(gap) => "[" + gap + "]"
    case Arr(gap, items) => "[" + gap + ItemsText(items) + "]"
    case EmptyObj(gap) => "{" + gap + "}"
    case Obj(gap, pairs) => "{" + gap + PairsText(pairs) + "}"
  }

  function ItemsText(items: Items): string {
    items.lead + SyntaxText(items.v) + items.trail
    + (if items.LastItem? then "" else "," + ItemsText(items.rest))
  }

  function PairText(p: Pair): string {
    p.lead + QuotedText(p.key) + p.beforeColon + ":" + p.afterColon + SyntaxText(p.v) + p.trail
  }

  function PairsText(pairs: Pairs): string {
    PairText(pairs.p) + (if pairs.LastPair? then "" else "," + PairsText(pairs.rest))
  }

  function FormText(f: Form): string {
    match f
    case Closed(d) => SyntaxText(d)
    case OpenArray(gap) => "[" + gap
    case OpenItems(gap, items) => "[" + gap + ItemsText(items) + ","
    case OpenObject(gap) => "{" + gap
    case OpenPairs(gap, pairs) => "{" + gap + PairsText(pairs) + ","
  }

  function DocumentText(doc: Document): string {
    doc.lead + FormText(doc.form) + doc.trail
  }

  // ---- meaning --------------------------------------------------------------------------

  /** The character an escape letter stands for; nothing for letters that are no escape. */
  function Unescape(c: char): Option<char> {
    match c
    case '\"' => Some('\"')
    case '\\' => Some('\\')
    case '/' => Some('/')
    case 'b' => Some(8 as char)
    case 'f' => Some(12 as char)
    case 'n' => Some('\n')
    case 'r' => Some('\r')
    case 't' => Some('\t')
    case _ => None
  }

  function PieceValue(p: Piece): char {
    match p
    case Raw(c) => c
    case Escape(c) => (match Unescape(c) case Some(u) => u case None => c)
    case Unicode(_) => '?'
  }

  function PiecesValue(ps: seq<Piece>): string {
    if ps == [] then "" else [PieceValue(ps[0])] + PiecesValue(ps[1..])
  }

  function ExponentValue(e: Option<Exponent>): int {
    match e
    case None => 0
    case Some(x) => Signed(x.sign == "-", DigitsValue(x.digits))
  }

  function FracDigits(f: Option<string>): string {
    match f
    case None => ""
    case Some(digits) => digits
  }

  /** (-1)^minus * whole.frac * 10^exp */
  function NumeralValue(n: Numeral): Numeric {
    Magnitude(n.minus, n.whole, FracDigits(n.frac), ExponentValue(n.exp))
  }

  function WordValue(w: Word): JsonValue {
    match w
    case WordTrue => Boolean(true)
    case WordFalse => Boolean(false)
    case WordNull => Null
  }

  function SyntaxValue(d: Syntax): JsonValue {
    match d
    case Keyword(w) => WordValue(w)
    case Num(n) => Number(NumeralValue(n))
    case Str(ps) => String(PiecesValue(ps))
    case EmptyArr(_) => Array([])
    case Arr(_, items) => Array(ItemsValue(items))
    case EmptyObj(_) => Object([])
    case Obj(_, pairs) => Object(PairsValue(pairs, []))
  }

  function ItemsValue(items: Items): seq<JsonValue> {
    [SyntaxValue(items.v)] + (if items.LastItem? then [] else ItemsValue(items.rest))
  }

  lemma {:induction false} ItemsValueStep(items: Items, arr: seq<JsonValue>)
    ensures items.LastItem? ==> arr + ItemsValue(items) == arr + [SyntaxValue(items.v)]
    ensures items.MoreItems? ==> arr + ItemsValue(items) == arr + [SyntaxValue(items.v)] + ItemsValue(items.rest)
  {
  }

  /** The bindings are assigned from left to right, so the last one of a key wins. */
  function PairsValue(pairs: Pairs, before: seq<Member>): seq<Member> {
    var now := Put(before, PiecesValue(pairs.p.key), SyntaxValue(pairs.p.v));
    if pairs.LastPair? then now else PairsValue(pairs.rest, now)
  }

  function FormValue(f: Form): JsonValue {
    match f
    case Closed(d) => SyntaxValue(d)
    case OpenArray(_) => Array([])
    case OpenItems(_, items) => Array(ItemsValue(items))
    case OpenObject(_) => Object([])
    case OpenPairs(_, pairs) => Object(PairsValue(pairs, []))
  }

  function DocumentValue(doc: Document): JsonValue {
    FormValue(doc.form)
  }

  // ---- admitted trees -------------------------------------------------------------------

  predicate AdmittedPiece(p: Piece) {
    match p
    case Raw(c) => c != '\"' && c != '\\'
    case Escape(c) => Unescape(c).Some?
    case Unicode(code) => |code| == 4
  }

  predicate AdmittedPieces(ps: seq<Piece>) {
    forall i | 0 <= i < |ps| :: AdmittedPiece(ps[i])
  }

  predicate AdmittedExponent(x: Exponent) {
    && (x.mark == 'e' || x.mark == 'E')
    && (x.sign == "" || x.sign == "+" || x.sign == "-")
    && AllDigits(x.digits)
  }

  /** What the scanner delimits: digits may be missing before or after the point and after the
      exponent mark; without a sign the numeral starts with a digit. */
  predicate ScannedNumeral(n: Numeral) {
    && AllDigits(n.whole)
    && AllDigits(FracDigits(n.frac))
    && (n.exp.Some? ==> AdmittedExponent(n.exp.value))
    && (n.minus || n.whole != "")
  }

  /** A numeral needs a digit before or after the point. */
  predicate AdmittedNumeral(n: Numeral) {
    ScannedNumeral(n) && (n.whole != "" || FracDigits(n.frac) != "")
  }

  predicate Admitted(d: Syntax) {
    match d
    case Keyword(_) => true
    case Num(n) => AdmittedNumeral(n)
    case Str(ps) => AdmittedPieces(ps)
    case EmptyArr(gap) => AllSpace(gap)
    case Arr(gap, items) => AllSpace(gap) && items.lead == "" && AdmittedItems(items)
    case EmptyObj(gap) => AllSpace(gap)
    case Obj(gap, pairs) => AllSpace(gap) && pairs.p.lead == "" && AdmittedPairs(pairs)
  }

  predicate AdmittedItems(items: Items) {
    && AllSpace(items.lead) && Admitted(items.v) && AllSpace(items.trail)
    && (items.MoreItems? ==> AdmittedItems(items.rest))
  }

  predicate AdmittedPair(p: Pair) {
    && AllSpace(p.lead) && AdmittedPieces(p.key) && AllSpace(p.beforeColon) && AllSpace(p.afterColon)
    && Admitted(p.v) && AllSpace(p.trail)
  }

  predicate AdmittedPairs(pairs: Pairs) {
    AdmittedPair(pairs.p) && (pairs.MorePairs? ==> AdmittedPairs(pairs.rest))
  }

  predicate AdmittedForm(f: Form) {
    match f
    case Closed(d) => Admitted(d)
    case OpenArray(gap) => AllSpace(gap)
    case OpenItems(gap, items) => AllSpace(gap) && items.lead == "" && AdmittedItems(items)
    case OpenObject(gap) => AllSpace(gap)
    case OpenPairs(gap, pairs) => AllSpace(gap) && pairs.p.lead == "" && AdmittedPairs(pairs)
  }

  /** Spaces may surround a closed value; an open form reaches to the very end of the text. */
  predicate AdmittedDocument(doc: Document) {
    && AllSpace(doc.lead) && AdmittedForm(doc.form) && AllSpace(doc.trail)
    && (!doc.form.Closed? ==> doc.trail == "")
  }
}
