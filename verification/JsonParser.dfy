/** The parser as it is written. */
module JsonParser {
  // Loops advance a position and grow a local string, vector or map. The position passed by reference
  // is an in-parameter and the `pos` of the result; `work` counts the parser calls and loop iterations
  // a call makes, itself included.

  import opened Text
  import opened JsonTree
  import P = ParserSpec
  import opened Copies

  method SkipWhitespace(s: string, start: nat) returns (pos: nat, ghost work: nat)
    requires start <= |s|
    ensures pos == P.SkipWs(s, start)
    ensures work == 1 + (pos - start)
  {
    pos := start;
    work := 1;
    while pos < |s| && IsSpace(s[pos])
      invariant start <= pos <= |s|
      invariant P.SkipWs(s, pos) == P.SkipWs(s, start)
      invariant work == 1 + (pos - start)
    {
      pos := pos + 1;
      work := work + 1;
    }
  }

  method SkipDigitRun(s: string, start: nat) returns (pos: nat, ghost work: nat)
    requires start <= |s|
    ensures pos == P.SkipDigits(s, start)
    ensures work == pos - start
  {
    pos := start;
    work := 0;
    while pos < |s| && IsDigit(s[pos])
      invariant start <= pos <= |s|
      invariant P.SkipDigits(s, pos) == P.SkipDigits(s, start)
      invariant work == pos - start
    {
      pos := pos + 1;
      work := work + 1;
    }
  }

  method SkipFraction(s: string, start: nat) returns (pos: nat, ghost work: nat)
    requires start <= |s|
    ensures pos == P.AfterFraction(s, start)
    ensures work <= pos - start
  {
    pos, work := start, 0;
    if pos < |s| && s[pos] == '.' {
      pos, work := SkipDigitRun(s, pos + 1);
    }
  }

  method SkipExponent(s: string, start: nat) returns (pos: nat, ghost work: nat)
    requires start <= |s|
    ensures pos == P.AfterExponent(s, start)
    ensures work <= pos - start
  {
    pos, work := start, 0;
    if pos < |s| && (s[pos] == 'e' || s[pos] == 'E') {
      pos := pos + 1;
      if pos < |s| && (s[pos] == '+' || s[pos] == '-') {
        pos := pos + 1;
      }
      pos, work := SkipDigitRun(s, pos);
    }
  }

  /** The scanning half of parseNumber: sign, digits, fraction, exponent. */
  method ScanNumber(s: string, start: nat) returns (pos: nat, ghost work: nat)
    requires start < |s|
    ensures pos == P.LexNumber(s, start)
    ensures work <= pos - start
  {
    pos := start;
    if s[pos] == '-' {
      pos := pos + 1;
    }
    ghost var digits, fraction, exponent;
    pos, digits := SkipDigitRun(s, pos);
    pos, fraction := SkipFraction(s, pos);
    pos, exponent := SkipExponent(s, pos);
    work := digits + fraction + exponent;
  }

  method ParseNumber(s: string, start: nat) returns (r: P.Result<JsonValue>, ghost work: nat)
    requires start < |s| && (s[start] == '-' || IsDigit(s[start]))
    ensures r == P.ParseNumber(s, start)
    ensures work <= 1 + (|s| - start)
    ensures r.Ok? ==> work <= 1 + (r.pos - start)
  {
    var pos;
    pos, work := ScanNumber(s, start);
    work := 1 + work;
    var number := P.Stod(s[start..pos]);
    if number.Some? {
      r := P.Ok(Number(number.value), pos);
    } else {
      r := P.Err(P.BadNumber, start);
    }
  }

  method ParseEscapeSequence(s: string, start: nat) returns (r: P.Result<char>)
    requires start < |s|
    ensures r == P.ParseEscape(s, start)
  {
    var c := s[start];
    var pos := start + 1;
    match c {
      case '\"' => r := P.Ok('\"', pos);
      case '\\' => r := P.Ok('\\', pos);
      case '/' => r := P.Ok('/', pos);
      case 'b' => r := P.Ok(8 as char, pos);
      case 'f' => r := P.Ok(12 as char, pos);
      case 'n' => r := P.Ok('\n', pos);
      case 'r' => r := P.Ok('\r', pos);
      case 't' => r := P.Ok('\t', pos);
      case 'u' =>
        if pos + 3 >= |s| {
          r := P.Err(P.ShortUnicode, pos);
        } else {
          r := P.Ok('?', pos + 4);
        }
      case _ => r := P.Err(P.UnknownEscape, pos - 1);
    }
  }

  method ParseString(s: string, start: nat) returns (r: P.Result<string>, ghost work: nat)
    requires start < |s|
    ensures r == P.ParseString(s, start)
    ensures work <= 1 + (|s| - start)
    ensures r.Ok? ==> work <= r.pos - start
  {
    var pos := start + 1;
    var str := "";
    work := 1;
    while pos < |s| && s[pos] != '\"'
      invariant start < pos <= |s|
      invariant P.ScanString(s, pos, str) == P.ParseString(s, start)
      invariant work <= pos - start
      decreases |s| - pos
    {
      work := work + 1;
      if s[pos] == '\\' {
        pos := pos + 1;
        if pos >= |s| {
          return P.Err(P.UnfinishedEscape, pos), work;
        }
        work := work + 1;
        var e := ParseEscapeSequence(s, pos);
        match e {
          case Err(f, p) => return P.Err(f, p), work;
          case Ok(c, p) => str, pos := str + [c], p;
        }
      } else {
        str := str + [s[pos]];
        pos := pos + 1;
      }
    }
    if pos >= |s| || s[pos] != '\"' {
      return P.Err(P.UnterminatedString, pos), work;
    }
    r := P.Ok(str, pos + 1);
  }

  method ParseKeyword(s: string, start: nat) returns (r: P.Result<JsonValue>)
    requires start <= |s|
    ensures r == P.ParseKeyword(s, start)
  {
    if At(s, start, "true") {
      r := P.Ok(Boolean(true), start + 4);
    } else if At(s, start, "false") {
      r := P.Ok(Boolean(false), start + 5);
    } else if At(s, start, "null") {
      r := P.Ok(Null, start + 4);
    } else {
      r := P.Err(P.UnknownKeyword, start);
    }
  }

  // Work is at most six units for each character consumed, or left when the parse fails. `copied`
  // counts the tree values copied by push_back, by assignment into the map and by the constructors
  // that take a vector or a map; it stays within a quarter of the square of the characters read, and
  // within their number times the depth of nesting.

  /** How far the parser has read: to the position of the result, or at most to the end of the text. */
  function Read<T>(s: string, start: nat, r: P.Result<T>): nat
    requires start <= |s| && (r.Ok? ==> start <= r.pos)
  {
    if r.Ok? then r.pos - start else |s| - start
  }

  method ParseValue(s: string, start: nat) returns (r: P.Result<JsonValue>, ghost work: nat, ghost copied: nat)
    requires start <= |s|
    ensures r == P.ParseValue(s, start)
    ensures if r.Ok? then work <= 6 * (r.pos - start) else work <= 6 * (|s| - start) + 5
    ensures Within(copied, NestingAt(s, start), Read(s, start, r), r.Ok?)
    ensures r.Ok? ==> Copied(r.value) <= copied && 2 * Nodes(r.value) <= r.pos - start + 1
    decreases |s| - start, 2
  {
    hide P.SkipWs, P.ParseObject, P.ParseArray, P.ParseString, P.LexNumber, P.Stod, At;
    hide ItemsCopied, MembersCopied, ItemNodes, MemberNodes, ArrayNesting, ObjectNesting, Within;
    var pos;
    ghost var skipped;
    ghost var more := 1;
    pos, skipped := SkipWhitespace(s, start);
    copied := 0;
    if pos >= |s| {
      WithinNothing(NestingAt(s, start), |s| - start, false);
      return P.Err(P.UnexpectedEnd, pos), 1 + skipped, 0;
    }
    var c := s[pos];
    if c == '{' {
      r, more, copied := ParseObject(s, pos);
    } else if c == '[' {
      r, more, copied := ParseArray(s, pos);
    } else if c == '\"' {
      var str;
      str, more := ParseString(s, pos);
      match str {
        case Err(f, q) => r := P.Err(f, q);
        case Ok(t, q) => r := P.Ok(String(t), q);
      }
    } else if c == '-' || IsDigit(c) {
      r, more := ParseNumber(s, pos);
    } else if c == 't' || c == 'f' || c == 'n' {
      r := ParseKeyword(s, pos);
    } else {
      r := P.Err(P.UnexpectedChar, pos);
    }
    work := 1 + skipped + more;
    if c != '{' && c != '[' {
      WithinNothing(NestingAt(s, start), Read(s, pos, r), r.Ok?);
    }
    WithinMore(copied, NestingAt(s, start), Read(s, pos, r), Read(s, start, r), r.Ok?);
  }

  method ParseArray(s: string, start: nat) returns (r: P.Result<JsonValue>, ghost work: nat, ghost copied: nat)
    requires start < |s|
    ensures r == P.ParseArray(s, start)
    ensures if r.Ok? then work + 3 <= 6 * (r.pos - start) else work + 3 <= 6 * (|s| - start) + 5
    ensures Within(copied, ArrayNesting(s, start), Read(s, start, r), r.Ok?)
    ensures r.Ok? ==> Copied(r.value) <= copied && 2 * Nodes(r.value) <= r.pos - start + 1
    decreases |s| - start, 1
  {
    hide P.SkipWs, P.ParseValue, P.ParseItems, Copied, ItemsCopied, Nodes, ItemNodes, NestingAt, ItemsNesting, Within;
    EmptyCost();
    var pos;
    ghost var more;
    pos, more := SkipWhitespace(s, start + 1);
    work := 1 + more;
    var arr: seq<JsonValue> := [];
    ghost var depth := ArrayNesting(s, start);
    if CharAt(s, pos) == ']' {
      WithinNothing(depth, pos + 1 - start, true);
      return P.Ok(Array(arr), pos + 1), work, 0;
    }
    ghost var first := pos;
    var closed := false;
    copied := 0;
    WithinNothing(depth, pos - start, true);
    while !closed && pos < |s|
      invariant start < first <= pos <= |s|
      invariant closed ==> P.ParseItems(s, first, []) == P.Ok(arr, pos)
      invariant !closed ==> P.ParseItems(s, first, []) == P.ParseItems(s, pos, arr)
      invariant work + 4 <= 6 * (pos - start)
      invariant !closed ==> ItemsNesting(s, pos) < depth
      invariant ItemsCopied(arr) <= copied && Within(copied + ItemNodes(arr), depth, pos - start, true)
      invariant 2 * ItemNodes(arr) < pos - start
      decreases |s| - pos, !closed
    {
      var element, end;
      ghost var below;
      element, more, below := ParseValue(s, pos);
      work := work + 1 + more;
      ghost var x, n, d := pos - start, Read(s, pos, element), NestingAt(s, pos);
      ItemsNestingStep(s, pos);
      P.ItemsTurn(s, pos, arr);
      if element.Err? {
        ChildFailed(copied, ItemNodes(arr), depth, x, below, d, n);
        return P.Err(element.fault, element.pos), work, copied + below;
      }
      end, more := SkipWhitespace(s, element.pos);
      ElementRead(arr, element.value, copied, depth, x, below, d, n, end + 1 - start, |s| - start);
      copied := copied + below + Nodes(element.value);
      work := work + more;
      if CharAt(s, end) == ']' {
        arr, pos, closed := arr + [element.value], end + 1, true;
      } else if CharAt(s, end) == ',' {
        arr, pos := arr + [element.value], end + 1;
      } else {
        return P.Err(P.ExpectedCommaOrBracket, end), work, copied;
      }
    }
    if !closed {
      P.ItemsTurn(s, pos, arr);
    }
    ContainerCost(arr, []);
    copied := copied + ItemNodes(arr);
    r := P.Ok(Array(arr), pos);
  }

  /** The part of the member loop up to the check of the next separator. */
  method ParseMember(s: string, start: nat) returns (r: P.Result<Member>, ghost work: nat, ghost copied: nat)
    requires start < |s|
    ensures r == P.ParsePair(s, start)
    ensures if r.Ok? then work <= 6 * (r.pos - start) else work <= 6 * (|s| - start) + 5
    ensures Within(copied, PairNesting(s, start), Read(s, start, r), r.Ok?)
    ensures r.Ok? ==> Copied(r.value.value) <= copied && 2 * Nodes(r.value.value) <= r.pos - start + 1
    decreases |s| - start, 3
  {
    hide P.SkipWs, P.ParseString, P.ParseValue, Copied, Nodes, NestingAt, Within;
    var keyAt, colonAt, key, value;
    ghost var more;
    keyAt, work := SkipWhitespace(s, start);
    WithinNothing(PairNesting(s, start), |s| - start, false);
    if CharAt(s, keyAt) != '\"' {
      return P.Err(P.ExpectedKey, keyAt), work, 0;
    }
    key, more := ParseString(s, keyAt);
    work := work + more;
    if key.Err? {
      return P.Err(key.fault, key.pos), work, 0;
    }
    colonAt, more := SkipWhitespace(s, key.pos);
    work := work + more;
    if CharAt(s, colonAt) != ':' {
      return P.Err(P.ExpectedColon, colonAt), work, 0;
    }
    value, more, copied := ParseValue(s, colonAt + 1);
    work := work + more;
    WithinMore(copied, PairNesting(s, start), Read(s, colonAt + 1, value), Read(s, start, value), value.Ok?);
    if value.Err? {
      return P.Err(value.fault, value.pos), work, copied;
    }
    r := P.Ok(Member(key.value, value.value), value.pos);
  }

  method ParseObject(s: string, start: nat) returns (r: P.Result<JsonValue>, ghost work: nat, ghost copied: nat)
    requires start < |s|
    ensures r == P.ParseObject(s, start)
    ensures if r.Ok? then work + 3 <= 6 * (r.pos - start) else work + 3 <= 6 * (|s| - start) + 5
    ensures Within(copied, ObjectNesting(s, start), Read(s, start, r), r.Ok?)
    ensures r.Ok? ==> Copied(r.value) <= copied && 2 * Nodes(r.value) <= r.pos - start + 1
    decreases |s| - start, 1
  {
    hide P.SkipWs, P.ParsePair, P.ParsePairs, Put, Copied, MembersCopied;
    hide Nodes, MemberNodes, PairNesting, PairsNesting, Within;
    EmptyCost();
    var pos;
    ghost var more;
    pos, more := SkipWhitespace(s, start + 1);
    work := 1 + more;
    var obj: seq<Member> := [];
    ghost var depth := ObjectNesting(s, start);
    if CharAt(s, pos) == '}' {
      WithinNothing(depth, pos + 1 - start, true);
      return P.Ok(Object(obj), pos + 1), work, 0;
    }
    ghost var first := pos;
    var closed := false;
    copied := 0;
    WithinNothing(depth, pos - start, true);
    while !closed && pos < |s|
      invariant start < first <= pos <= |s|
      invariant closed ==> P.ParsePairs(s, first, []) == P.Ok(obj, pos)
      invariant !closed ==> P.ParsePairs(s, first, []) == P.ParsePairs(s, pos, obj)
      invariant work + 4 <= 6 * (pos - start)
      invariant !closed ==> PairsNesting(s, pos) < depth
      invariant MembersCopied(obj) <= copied && Within(copied + MemberNodes(obj), depth, pos - start, true)
      invariant 2 * MemberNodes(obj) < pos - start
      decreases |s| - pos, !closed
    {
      var member, end;
      ghost var below;
      member, more, below := ParseMember(s, pos);
      work := work + 1 + more;
      ghost var x, n, d := pos - start, Read(s, pos, member), PairNesting(s, pos);
      PairsNestingStep(s, pos);
      P.PairsTurn(s, pos, obj);
      if member.Err? {
        ChildFailed(copied, MemberNodes(obj), depth, x, below, d, n);
        return P.Err(member.fault, member.pos), work, copied + below;
      }
      end, more := SkipWhitespace(s, member.pos);
      MemberRead(obj, member.value, copied, depth, x, below, d, n, end + 1 - start, |s| - start);
      copied := copied + below + Nodes(member.value.value);
      work := work + more;
      if CharAt(s, end) == '}' {
        obj, pos, closed := Put(obj, member.value.key, member.value.value), end + 1, true;
      } else if CharAt(s, end) == ',' {
        obj, pos := Put(obj, member.value.key, member.value.value), end + 1;
      } else {
        return P.Err(P.ExpectedCommaOrBrace, end), work, copied;
      }
    }
    if !closed {
      P.PairsTurn(s, pos, obj);
    }
    ContainerCost([], obj);
    copied := copied + MemberNodes(obj);
    r := P.Ok(Object(obj), pos);
  }

  method Parse(s: string) returns (r: P.Result<JsonValue>, ghost work: nat, ghost copied: nat)
    ensures r == P.Parse(s)
    ensures work <= 6 * |s| + 7
    ensures 4 * copied <= |s| * |s| && copied <= NestingAt(s, 0) * |s|
    ensures r.Ok? ==> Copied(r.value) <= copied && 4 * copied + 1 <= |s| * |s|
  {
    var value, end;
    ghost var more;
    value, work, copied := ParseValue(s, 0);
    work := work + 1;
    WithinMore(copied, NestingAt(s, 0), Read(s, 0, value), |s|, value.Ok?);
    if value.Err? {
      return P.Err(value.fault, value.pos), work, copied;
    }
    end, more := SkipWhitespace(s, value.pos);
    work := work + more;
    if end != |s| {
      return P.Err(P.TrailingText, end), work, copied;
    }
    r := P.Ok(value.value, end);
  }

  /** True exactly when Parse returns; otherwise the exception it throws is reported. */
  method IsValid(s: string) returns (ok: bool, error: Option<(P.Fault, nat)>)
    ensures ok <==> P.Parse(s).Ok?
    ensures error == if ok then None else Some((P.Parse(s).fault, P.Parse(s).pos))
    ensures error.Some? ==> error.value.1 <= |s|
  {
    var r, _, _ := Parse(s);
    match r {
      case Ok(_, _) => return true, None;
      case Err(f, p) => return false, Some((f, p));
    }
  }
}
