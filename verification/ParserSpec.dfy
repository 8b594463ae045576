module ParserSpec {
  // What the recursive descent parser computes, as functions of the text and a position.
  // The methods that advance a position in loops are in module JsonParser and are proved equal to these.

  import opened Text
  import opened Decimal
  import opened JsonTree
  import G = Grammar

  /** The messages of JsonParseException. */
  datatype Fault =
    | TrailingText | UnexpectedEnd | UnexpectedChar
    | ExpectedKey | ExpectedColon | ExpectedCommaOrBrace | ExpectedCommaOrBracket
    | UnfinishedEscape | UnterminatedString | ShortUnicode | UnknownEscape
    | BadNumber | UnknownKeyword

  /** A value and the advanced position, or a JsonParseException and the position it carries. */
  datatype Result<+T> = Ok(value: T, pos: nat) | Err(fault: Fault, pos: nat)

  function SkipWs(s: string, pos: nat): (end: nat)
    requires pos <= |s|
    ensures pos <= end <= |s|
    decreases |s| - pos
  {
    if pos < |s| && IsSpace(s[pos]) then SkipWs(s, pos + 1) else pos
  }

  function SkipDigits(s: string, pos: nat): (end: nat)
    requires pos <= |s|
    ensures pos <= end <= |s|
    decreases |s| - pos
  {
    if pos < |s| && IsDigit(s[pos]) then SkipDigits(s, pos + 1) else pos
  }

  // ---- numbers --------------------------------------------------------------------------

  function AfterMinus(s: string, pos: nat): (end: nat)
    requires pos <= |s|
    ensures pos <= end <= |s|
  {
    if pos < |s| && s[pos] == '-' then pos + 1 else pos
  }

  function AfterFraction(s: string, pos: nat): (end: nat)
    requires pos <= |s|
    ensures pos <= end <= |s|
  {
    if pos < |s| && s[pos] == '.' then SkipDigits(s, pos + 1) else pos
  }

  predicate IsExpMark(c: char) {
    c == 'e' || c == 'E'
  }

  function AfterSign(s: string, pos: nat): (end: nat)
    requires pos <= |s|
    ensures pos <= end <= |s|
  {
    if pos < |s| && (s[pos] == '+' || s[pos] == '-') then pos + 1 else pos
  }

  function AfterExponent(s: string, pos: nat): (end: nat)
    requires pos <= |s|
    ensures pos <= end <= |s|
  {
    if pos < |s| && IsExpMark(s[pos]) then SkipDigits(s, AfterSign(s, pos + 1)) else pos
  }

  /** Where the longest run of sign, digits, fraction and exponent from pos ends. */
  function LexNumber(s: string, pos: nat): (end: nat)
    requires pos <= |s|
    ensures pos <= end <= |s|
    ensures pos < |s| && (s[pos] == '-' || IsDigit(s[pos])) ==> pos < end
  {
    AfterExponent(s, AfterFraction(s, SkipDigits(s, AfterMinus(s, pos))))
  }

  /** The sign, the digits around the point and the exponent of the longest prefix that is a numeral. */
  function StodParts(t: string): (bool, string, string, int) {
    var p0 := AfterMinus(t, 0);
    var p1 := SkipDigits(t, p0);
    var p2 := AfterFraction(t, p1);
    (p0 > 0, t[p0..p1], if p2 == p1 then "" else t[p1 + 1..p2], StodExponent(t, p2))
  }

  /** std::stod on such a run; None when it throws std::invalid_argument because there is no digit. */
  function Stod(t: string): Option<Numeric> {
    var (minus, whole, frac, exp) := StodParts(t);
    if whole == "" && frac == "" then None else Some(Magnitude(minus, whole, frac, exp))
  }

  /** The exponent counts only when at least one digit follows its mark and sign. */
  function StodExponent(t: string, pos: nat): int
    requires pos <= |t|
  {
    if pos < |t| && IsExpMark(t[pos]) then
      var q := AfterSign(t, pos + 1);
      Signed(q > pos + 1 && t[pos + 1] == '-', DigitsValue(t[q..SkipDigits(t, q)]))
    else 0
  }

  function ParseNumber(s: string, pos: nat): (r: Result<JsonValue>)
    requires pos < |s| && (s[pos] == '-' || IsDigit(s[pos]))
    ensures pos <= r.pos <= |s| && (r.Ok? ==> pos < r.pos)
  {
    var end := LexNumber(s, pos);
    match Stod(s[pos..end])
    case Some(x) => Ok(Number(x), end)
    case None => Err(BadNumber, pos)
  }

  // ---- strings and keywords -------------------------------------------------------------

  /** pos is just behind the backslash. */
  function ParseEscape(s: string, pos: nat): (r: Result<char>)
    requires pos < |s|
    ensures pos <= r.pos <= |s| && (r.Ok? ==> pos < r.pos)
  {
    if s[pos] == 'u' then
      if pos + 1 + 3 >= |s| then Err(ShortUnicode, pos + 1) else Ok('?', pos + 1 + 4)
    else
      match G.Unescape(s[pos])
      case Some(c) => Ok(c, pos + 1)
      case None => Err(UnknownEscape, pos)
  }

  function ScanString(s: string, pos: nat, str: string): (r: Result<string>)
    requires pos <= |s|
    ensures pos <= r.pos <= |s| && (r.Ok? ==> pos < r.pos)
    decreases |s| - pos
  {
    if pos >= |s| then Err(UnterminatedString, pos)
    else if s[pos] == '\"' then Ok(str, pos + 1)
    else if s[pos] == '\\' then
      if pos + 1 >= |s| then Err(UnfinishedEscape, pos + 1)
      else
        match ParseEscape(s, pos + 1)
        case Err(f, p) => Err(f, p)
        case Ok(c, p) => ScanString(s, p, str + [c])
    else ScanString(s, pos + 1, str + [s[pos]])
  }

  /** pos is at the opening quote. */
  function ParseString(s: string, pos: nat): (r: Result<string>)
    requires pos < |s|
    ensures pos <= r.pos <= |s| && (r.Ok? ==> pos + 2 <= r.pos)
  {
    ScanString(s, pos + 1, "")
  }

  function ParseKeyword(s: string, pos: nat): (r: Result<JsonValue>)
    requires pos <= |s|
    ensures pos <= r.pos <= |s| && (r.Ok? ==> pos < r.pos)
  {
    if At(s, pos, "true") then Ok(Boolean(true), pos + 4)
    else if At(s, pos, "false") then Ok(Boolean(false), pos + 5)
    else if At(s, pos, "null") then Ok(Null, pos + 4)
    else Err(UnknownKeyword, pos)
  }

  // ---- values ---------------------------------------------------------------------------

  function ParseValue(s: string, pos: nat): (r: Result<JsonValue>)
    requires pos <= |s|
    ensures pos <= r.pos <= |s| && (r.Ok? ==> pos < r.pos)
    decreases |s| - pos, 2
  {
    var p := SkipWs(s, pos);
    if p >= |s| then Err(UnexpectedEnd, p)
    else if s[p] == '{' then ParseObject(s, p)
    else if s[p] == '[' then ParseArray(s, p)
    else if s[p] == '\"' then
      match ParseString(s, p)
      case Err(f, q) => Err(f, q)
      case Ok(str, q) => Ok(String(str), q)
    else if s[p] == '-' || IsDigit(s[p]) then ParseNumber(s, p)
    else if s[p] == 't' || s[p] == 'f' || s[p] == 'n' then ParseKeyword(s, p)
    else Err(UnexpectedChar, p)
  }

  /** pos is at the opening bracket. */
  function ParseArray(s: string, pos: nat): (r: Result<JsonValue>)
    requires pos < |s|
    ensures pos <= r.pos <= |s| && (r.Ok? ==> pos < r.pos)
    decreases |s| - pos, 1
  {
    var p := SkipWs(s, pos + 1);
    if CharAt(s, p) == ']' then Ok(Array([]), p + 1)
    else
      match ParseItems(s, p, [])
      case Err(f, q) => Err(f, q)
      case Ok(arr, q) => Ok(Array(arr), q)
  }

  /** The element loop, entered with the elements read so far; it ends normally at the end of the text. */
  function ParseItems(s: string, pos: nat, arr: seq<JsonValue>): (r: Result<seq<JsonValue>>)
    requires pos <= |s|
    ensures pos <= r.pos <= |s|
    decreases |s| - pos, 3
  {
    if pos >= |s| then Ok(arr, pos) else
    match ParseValue(s, pos)
    case Err(f, q) => Err(f, q)
    case Ok(v, q) =>
      var p := SkipWs(s, q);
      if CharAt(s, p) == ']' then Ok(arr + [v], p + 1)
      else if CharAt(s, p) == ',' then ParseItems(s, p + 1, arr + [v])
      else Err(ExpectedCommaOrBracket, p)
  }

  /** pos is at the opening brace. */
  function ParseObject(s: string, pos: nat): (r: Result<JsonValue>)
    requires pos < |s|
    ensures pos <= r.pos <= |s| && (r.Ok? ==> pos < r.pos)
    decreases |s| - pos, 1
  {
    var p := SkipWs(s, pos + 1);
    if CharAt(s, p) == '}' then Ok(Object([]), p + 1)
    else
      match ParsePairs(s, p, [])
      case Err(f, q) => Err(f, q)
      case Ok(obj, q) => Ok(Object(obj), q)
  }

  /** A key and its value, from before the key to behind the value. */
  function ParsePair(s: string, pos: nat): (r: Result<Member>)
    requires pos <= |s|
    ensures pos <= r.pos <= |s| && (r.Ok? ==> pos < r.pos)
    decreases |s| - pos, 3
  {
    var k := SkipWs(s, pos);
    if CharAt(s, k) != '\"' then Err(ExpectedKey, k) else
    match ParseString(s, k)
    case Err(f, q) => Err(f, q)
    case Ok(key, q) =>
      var c := SkipWs(s, q);
      if CharAt(s, c) != ':' then Err(ExpectedColon, c) else
      match ParseValue(s, c + 1)
      case Err(f, e) => Err(f, e)
      case Ok(v, e) => Ok(Member(key, v), e)
  }

  /** The member loop, entered with the bindings made so far; it ends normally at the end of the text. */
  function ParsePairs(s: string, pos: nat, obj: seq<Member>): (r: Result<seq<Member>>)
    requires pos <= |s|
    ensures pos <= r.pos <= |s|
    decreases |s| - pos, 4
  {
    if pos >= |s| then Ok(obj, pos) else
    match ParsePair(s, pos)
    case Err(f, q) => Err(f, q)
    case Ok(m, q) =>
      var p := SkipWs(s, q);
      if CharAt(s, p) == '}' then Ok(Put(obj, m.key, m.value), p + 1)
      else if CharAt(s, p) == ',' then ParsePairs(s, p + 1, Put(obj, m.key, m.value))
      else Err(ExpectedCommaOrBrace, p)
  }

  /** One turn of the element loop, or its normal end. */
  lemma {:induction false} ItemsTurn(s: string, pos: nat, arr: seq<JsonValue>)
    requires pos <= |s|
    ensures pos == |s| ==> ParseItems(s, pos, arr) == Ok(arr, pos)
    ensures var v := ParseValue(s, pos);
            var p := SkipWs(s, v.pos);
            pos < |s| ==>
              ParseItems(s, pos, arr) ==
                if v.Err? then Err(v.fault, v.pos)
                else if CharAt(s, p) == ']' then Ok(arr + [v.value], p + 1)
                else if CharAt(s, p) == ',' then ParseItems(s, p + 1, arr + [v.value])
                else Err(ExpectedCommaOrBracket, p)
  {
    hide ParseValue, SkipWs;
  }

  /** One turn of the member loop, or its normal end. */
  lemma {:induction false} PairsTurn(s: string, pos: nat, obj: seq<Member>)
    requires pos <= |s|
    ensures pos == |s| ==> ParsePairs(s, pos, obj) == Ok(obj, pos)
    ensures var m := ParsePair(s, pos);
            var p := SkipWs(s, m.pos);
            pos < |s| ==>
              ParsePairs(s, pos, obj) ==
                if m.Err? then Err(m.fault, m.pos)
                else if CharAt(s, p) == '}' then Ok(Put(obj, m.value.key, m.value.value), p + 1)
                else if CharAt(s, p) == ',' then ParsePairs(s, p + 1, Put(obj, m.value.key, m.value.value))
                else Err(ExpectedCommaOrBrace, p)
  {
    hide ParsePair, SkipWs;
  }

  function Parse(s: string): (r: Result<JsonValue>)
    ensures r.pos <= |s| && (r.Ok? ==> 0 < r.pos == |s|)
  {
    match ParseValue(s, 0)
    case Err(f, q) => Err(f, q)
    case Ok(v, q) =>
      var p := SkipWs(s, q);
      if p != |s| then Err(TrailingText, p) else Ok(v, p)
  }
}
