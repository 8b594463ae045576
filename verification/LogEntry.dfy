/** One web-server log record and its validation. */
module LogEntries {
  import opened Text
  import opened Decimal

  datatype LogEntry = LogEntry(timestamp: string, ip: string, httpMethod: string, url: string, status: int)

  // ---- timestamp --------------------------------------------------------------------------

  /** The shape YYYY-MM-DDTHH:MM:SSZ; '#' stands for a digit. */
  const ISO_SHAPE := "####-##-##T##:##:##Z"

  predicate MatchesShape(c: char, shape: char) {
    if shape == '#' then IsDigit(c) else c == shape
  }

  /** regex_match with ^\d{4}-\d{2}-\d{2}T\d{2}:\d{2}:\d{2}Z$: the shape only, no ranges. */
  predicate ValidTimestamp(ts: string) {
    |ts| == 20 && forall i | 0 <= i < 20 :: MatchesShape(ts[i], ISO_SHAPE[i])
  }

  // ---- IPv4 address -----------------------------------------------------------------------

  function SplitAt(s: string, mark: char): (parts: seq<string>)
    ensures |parts| > 0
  {
    if s == "" then [""]
    else if s[0] == mark then [""] + SplitAt(s[1..], mark)
    else var rest := SplitAt(s[1..], mark); [[s[0]] + rest[0]] + rest[1..]
  }

  /** \d{1,3} */
  predicate OctetText(p: string) {
    1 <= |p| <= 3 && AllDigits(p)
  }

  /** The four captured groups when ip matches ^(\d{1,3})\.(\d{1,3})\.(\d{1,3})\.(\d{1,3})$. */
  function MatchIP(ip: string): Option<seq<string>> {
    var parts := SplitAt(ip, '.');
    if |parts| == 4 && forall i | 0 <= i < 4 :: OctetText(parts[i]) then Some(parts) else None
  }

  predicate Octet(p: string) {
    OctetText(p) && DigitsValue(p) <= 255
  }

  /** Four octets between dots. */
  ghost predicate ValidIP(ip: string) {
    exists a: string, b: string, c: string, d: string ::
      Octet(a) && Octet(b) && Octet(c) && Octet(d) && ip == a + "." + b + "." + c + "." + d
  }

  lemma {:induction false} SplitOne(a: string, rest: string, mark: char)
    requires forall i | 0 <= i < |a| :: a[i] != mark
    ensures SplitAt(a + [mark] + rest, mark) == [a] + SplitAt(rest, mark)
    ensures SplitAt(a, mark) == [a]
    decreases |a|
  {
    if a == "" {
      assert a + [mark] + rest == [mark] + rest;
    } else {
      assert (a + [mark] + rest)[1..] == a[1..] + [mark] + rest;
      SplitOne(a[1..], rest, mark);
      assert a == [a[0]] + a[1..];
    }
  }

  function JoinWith(parts: seq<string>, mark: char): string
    requires |parts| > 0
  {
    if |parts| == 1 then parts[0] else parts[0] + [mark] + JoinWith(parts[1..], mark)
  }

  lemma {:induction false} JoinFirst(c: char, parts: seq<string>, mark: char)
    requires |parts| > 0
    ensures JoinWith([[c] + parts[0]] + parts[1..], mark) == [c] + JoinWith(parts, mark)
  {
    assert ([[c] + parts[0]] + parts[1..])[1..] == parts[1..];
  }

  lemma {:induction false} SplitJoins(s: string, mark: char)
    ensures JoinWith(SplitAt(s, mark), mark) == s
  {
    if s != "" {
      SplitJoins(s[1..], mark);
      var rest := SplitAt(s[1..], mark);
      if s[0] == mark {
        assert ([""] + rest)[1..] == rest;
      } else {
        hide JoinWith;
        JoinFirst(s[0], rest, mark);
      }
    }
  }

  lemma {:induction false} OctetNoDot(p: string)
    requires Octet(p)
    ensures forall i | 0 <= i < |p| :: p[i] != '.'
  {
  }

  /** The regex groups are the four octet texts, and there are no others. */
  lemma {:induction false} MatchedOctets(ip: string)
    ensures ValidIP(ip) <==> MatchIP(ip).Some? && forall i | 0 <= i < 4 :: DigitsValue(MatchIP(ip).value[i]) <= 255
  {
    var parts := SplitAt(ip, '.');
    if ValidIP(ip) {
      var a: string, b: string, c: string, d: string :|
        Octet(a) && Octet(b) && Octet(c) && Octet(d) && ip == a + "." + b + "." + c + "." + d;
      FourParts(a, b, c, d);
    }
    if MatchIP(ip).Some? && forall i | 0 <= i < 4 :: DigitsValue(MatchIP(ip).value[i]) <= 255 {
      SplitJoins(ip, '.');
      FourJoined(parts);
      assert Octet(parts[0]) && Octet(parts[1]) && Octet(parts[2]) && Octet(parts[3]);
    }
  }

  lemma {:induction false} FourParts(a: string, b: string, c: string, d: string)
    requires Octet(a) && Octet(b) && Octet(c) && Octet(d)
    ensures SplitAt(a + "." + b + "." + c + "." + d, '.') == [a, b, c, d]
  {
    hide SplitAt, Octet;
    OctetNoDot(a);
    OctetNoDot(b);
    OctetNoDot(c);
    OctetNoDot(d);
    SplitOne(d, "", '.');
    SplitOne(c, d, '.');
    SplitOne(b, c + "." + d, '.');
    SplitOne(a, b + "." + (c + "." + d), '.');
    assert a + "." + b + "." + c + "." + d == a + "." + (b + "." + (c + "." + d));
  }

  lemma {:induction false} FourJoined(parts: seq<string>)
    requires |parts| == 4
    ensures JoinWith(parts, '.') == parts[0] + "." + parts[1] + "." + parts[2] + "." + parts[3]
  {
    assert JoinWith(parts[1..], '.') == parts[1] + "." + JoinWith(parts[2..], '.') by {
      assert parts[1..][1..] == parts[2..];
    }
    assert JoinWith(parts[2..], '.') == parts[2] + "." + parts[3] by {
      assert parts[2..][1..] == [parts[3]];
    }
  }

  method ValidateIP(ip: string) returns (ok: bool)
    ensures ok <==> ValidIP(ip)
  {
    MatchedOctets(ip);
    var groups := MatchIP(ip);
    if groups.None? {
      return false;
    }
    var i := 0;
    while i < 4
      invariant 0 <= i <= 4
      invariant forall j | 0 <= j < i :: DigitsValue(groups.value[j]) <= 255
    {
      var octet := DigitsValue(groups.value[i]);
      if octet < 0 || octet > 255 {
        return false;
      }
      i := i + 1;
    }
    ok := true;
  }

  // ---- method and status ------------------------------------------------------------------

  /** toupper in the C locale. */
  function UpperChar(c: char): char {
    if 'a' <= c <= 'z' then ((c as int) - 32) as char else c
  }

  function Upper(s: string): (u: string)
    ensures |u| == |s| && forall i | 0 <= i < |s| :: u[i] == UpperChar(s[i])
  {
    if s == "" then "" else [UpperChar(s[0])] + Upper(s[1..])
  }

  const VALID_METHODS: seq<string> :=
    ["GET", "POST", "PUT", "DELETE", "HEAD", "OPTIONS", "PATCH", "CONNECT", "TRACE"]

  predicate ValidMethod(m: string) {
    Upper(m) in VALID_METHODS
  }

  method UpperInPlace(a: array<char>)
    modifies a
    ensures a[..] == Upper(old(a[..]))
  {
    var i := 0;
    while i < a.Length
      invariant 0 <= i <= a.Length
      invariant forall j | 0 <= j < i :: a[j] == UpperChar(old(a[j]))
      invariant forall j | i <= j < a.Length :: a[j] == old(a[j])
    {
      a[i] := UpperChar(a[i]);
      i := i + 1;
    }
  }

  method ValidateMethod(m: string) returns (ok: bool)
    ensures ok <==> ValidMethod(m)
  {
    hide Upper;
    var copy := new char[|m|](i requires 0 <= i < |m| => m[i]);
    assert copy[..] == m;
    UpperInPlace(copy);
    var i := 0;
    while i < |VALID_METHODS|
      invariant 0 <= i <= |VALID_METHODS|
      invariant forall j | 0 <= j < i :: VALID_METHODS[j] != Upper(m)
    {
      if VALID_METHODS[i] == copy[..] {
        return true;
      }
      i := i + 1;
    }
    ok := false;
  }

  predicate ValidStatus(status: int) {
    100 <= status <= 599
  }

  ghost predicate ValidEntry(e: LogEntry) {
    ValidTimestamp(e.timestamp) && ValidIP(e.ip) && ValidMethod(e.httpMethod) && ValidStatus(e.status)
  }

  method IsValid(e: LogEntry) returns (ok: bool)
    ensures ok <==> ValidEntry(e)
  {
    var ipOk := ValidateIP(e.ip);
    var methodOk := ValidateMethod(e.httpMethod);
    ok := ValidTimestamp(e.timestamp) && ipOk && methodOk && ValidStatus(e.status);
  }

  // ---- what validation rules out ----------------------------------------------------------

  /** Letters, digits, '-', '.', ':': nothing a text format gives a meaning to. */
  predicate PlainChar(c: char) {
    IsDigit(c) || 'A' <= c <= 'Z' || 'a' <= c <= 'z' || c == '-' || c == '.' || c == ':'
  }

  predicate PlainText(s: string) {
    forall i | 0 <= i < |s| :: PlainChar(s[i])
  }

  lemma {:induction false} MethodLetters(name: string)
    requires name in VALID_METHODS
    ensures name != "" && forall i | 0 <= i < |name| :: 'A' <= name[i] <= 'Z'
  {
    var k :| 0 <= k < |VALID_METHODS| && VALID_METHODS[k] == name;
    if k < 5 {
      assert name == ["GET", "POST", "PUT", "DELETE", "HEAD"][k];
    } else {
      assert name == ["OPTIONS", "PATCH", "CONNECT", "TRACE"][k - 5];
    }
  }

  /** No field of a valid entry but the url can hold a separator, a quote or a line break. */
  lemma {:induction false} ValidFieldsPlain(e: LogEntry)
    requires ValidEntry(e)
    ensures PlainText(e.timestamp) && PlainText(e.ip) && PlainText(e.httpMethod)
    ensures e.timestamp != "" && e.ip != "" && e.httpMethod != ""
  {
    forall i | 0 <= i < |e.timestamp| ensures PlainChar(e.timestamp[i]) {
      assert MatchesShape(e.timestamp[i], ISO_SHAPE[i]);
    }
    var a: string, b: string, c: string, d: string :|
      Octet(a) && Octet(b) && Octet(c) && Octet(d) && e.ip == a + "." + b + "." + c + "." + d;
    MethodLetters(Upper(e.httpMethod));
    forall i | 0 <= i < |e.httpMethod| ensures PlainChar(e.httpMethod[i]) {
      assert 'A' <= UpperChar(e.httpMethod[i]) <= 'Z';
    }
  }
}
