/** What the validators accept, told apart from how they decide. */
module Validation {
  import opened Text
  import opened Decimal
  import opened NumberPrinting
  import opened Counting
  import opened LogEntries
  import opened Timestamps
  import opened Queries
  import opened Analyzer

  // ---- names but for the case of their letters ----------------------------------------------------

  const SMALL := "abcdefghijklmnopqrstuvwxyz"
  const CAPITAL := "ABCDEFGHIJKLMNOPQRSTUVWXYZ"

  /** The same character, or the small and the capital form of one letter. */
  predicate SameLetter(a: char, b: char) {
    a == b || exists k | 0 <= k < 26 :: (a == SMALL[k] && b == CAPITAL[k]) || (a == CAPITAL[k] && b == SMALL[k])
  }

  predicate SameName(a: string, b: string) {
    |a| == |b| && forall i | 0 <= i < |a| :: SameLetter(a[i], b[i])
  }

  lemma {:induction false} Alphabets(k: nat)
    requires k < 26
    ensures SMALL[k] == (97 + k) as char && CAPITAL[k] == (65 + k) as char
  {
    if k < 13 {
      AlphabetsBelow(k);
    } else {
      AlphabetsAbove(k);
    }
  }

  lemma {:induction false} AlphabetsBelow(k: nat)
    requires k < 13
    ensures SMALL[k] == (97 + k) as char && CAPITAL[k] == (65 + k) as char
  {
    assert SMALL[..13] == "abcdefghijklm" && CAPITAL[..13] == "ABCDEFGHIJKLM";
    assert SMALL[k] == "abcdefghijklm"[k] && CAPITAL[k] == "ABCDEFGHIJKLM"[k];
  }

  lemma {:induction false} AlphabetsAbove(k: nat)
    requires 13 <= k < 26
    ensures SMALL[k] == (97 + k) as char && CAPITAL[k] == (65 + k) as char
  {
    assert SMALL[13..] == "nopqrstuvwxyz" && CAPITAL[13..] == "NOPQRSTUVWXYZ";
    assert SMALL[k] == "nopqrstuvwxyz"[k - 13] && CAPITAL[k] == "NOPQRSTUVWXYZ"[k - 13];
  }

  lemma {:induction false} LetterCases(a: char, b: char)
    ensures UpperChar(a) == UpperChar(b) <==> SameLetter(a, b)
  {
    if a != b && UpperChar(a) == UpperChar(b) {
      var k := (if 'a' <= a <= 'z' then a as int else b as int) - 97;
      Alphabets(k);
    }
    if a != b && SameLetter(a, b) {
      var k :| 0 <= k < 26 && ((a == SMALL[k] && b == CAPITAL[k]) || (a == CAPITAL[k] && b == SMALL[k]));
      Alphabets(k);
    }
  }

  /** Two names agree in upper case exactly when they are the same but for the case of letters. */
  lemma {:induction false} UpperSame(a: string, b: string)
    ensures Upper(a) == Upper(b) <==> SameName(a, b)
  {
    hide UpperChar, SameLetter;
    forall i | 0 <= i < |a| && i < |b| ensures UpperChar(a[i]) == UpperChar(b[i]) <==> SameLetter(a[i], b[i]) {
      LetterCases(a[i], b[i]);
    }
    if Upper(a) == Upper(b) {
      assert |a| == |Upper(a)| == |b|;
      forall i | 0 <= i < |a| ensures SameLetter(a[i], b[i]) {
        assert Upper(a)[i] == Upper(b)[i];
      }
    }
  }

  function SpelledLike(name: string): LogEntry -> bool {
    (e: LogEntry) => SameName(e.httpMethod, name)
  }

  /** filterByMethod keeps the records whose method is the name but for the case of letters. */
  lemma {:induction false} MethodFilter(a: LogAnalyzer, name: string)
    ensures a.FilterByMethod(name) == Filter(a.logs, SpelledLike(name))
  {
    hide Upper, SameName, Filter;
    forall e | e in a.logs ensures KeyIs(UpperMethod, Upper(name))(e) == SpelledLike(name)(e) {
      UpperSame(e.httpMethod, name);
      assert UpperMethod(e) == Upper(e.httpMethod);
    }
    FilterSame(a.logs, KeyIs(UpperMethod, Upper(name)), SpelledLike(name));
  }

  lemma {:induction false} CapitalName(name: string)
    requires forall i | 0 <= i < |name| :: 'A' <= name[i] <= 'Z'
    ensures Upper(name) == name
  {
  }

  /** The methods accepted are the nine names in any mixture of cases, and no others. */
  lemma {:induction false} MethodsAccepted(m: string)
    ensures ValidMethod(m)
            <==> SameName(m, "GET") || SameName(m, "POST") || SameName(m, "PUT") || SameName(m, "DELETE")
                 || SameName(m, "HEAD") || SameName(m, "OPTIONS") || SameName(m, "PATCH") || SameName(m, "CONNECT")
                 || SameName(m, "TRACE")
  {
    hide Upper, SameName;
    var u := Upper(m);
    assert u in VALID_METHODS <==>
             u == "GET" || u == "POST" || u == "PUT" || u == "DELETE" || u == "HEAD" || u == "OPTIONS"
             || u == "PATCH" || u == "CONNECT" || u == "TRACE";
    forall name | name in VALID_METHODS ensures u == name <==> SameName(m, name) {
      MethodLetters(name);
      CapitalName(name);
      UpperSame(m, name);
    }
    assert VALID_METHODS[0] == "GET" && VALID_METHODS[1] == "POST" && VALID_METHODS[2] == "PUT";
    assert VALID_METHODS[3] == "DELETE" && VALID_METHODS[4] == "HEAD" && VALID_METHODS[5] == "OPTIONS";
    assert VALID_METHODS[6] == "PATCH" && VALID_METHODS[7] == "CONNECT" && VALID_METHODS[8] == "TRACE";
  }

  // ---- octets and statuses ----------------------------------------------------------------------------

  /** The decimal text of n behind k zeros. */
  function Padded(k: nat, n: nat): string {
    Repeat('0', k) + NatText(n)
  }

  lemma {:induction false} PaddedValue(k: nat, n: nat)
    ensures AllDigits(Padded(k, n)) && DigitsValue(Padded(k, n)) == n && |Padded(k, n)| == k + |NatText(n)|
  {
    hide NatText, DigitsValue;
    DigitsValueConcat(Repeat('0', k), NatText(n));
    DigitsValueZeros(k);
  }

  /** An octet is a number from 0 to 255, with leading zeros up to three digits in all. */
  lemma {:induction false} OctetsAccepted(p: string)
    ensures Octet(p) <==> exists k: nat, n: nat :: n <= 255 && k + |NatText(n)| <= 3 && p == Padded(k, n)
  {
    hide NatText, DigitsValue;
    if Octet(p) {
      PadDigits(p);
      var n := DigitsValue(p);
      var k := |p| - |NatText(n)|;
      assert p == Padded(k, n);
    }
    forall k: nat, n: nat | n <= 255 && k + |NatText(n)| <= 3 && p == Padded(k, n) ensures Octet(p) {
      PaddedValue(k, n);
    }
  }

  /** The statuses accepted are the numbers of three digits whose first digit is 1 to 5. */
  lemma {:induction false} StatusesAccepted(status: int)
    ensures ValidStatus(status) <==> |IntText(status)| == 3 && IntText(status)[0] in {'1', '2', '3', '4', '5'}
  {
    hide NatText, Pow10, DigitsValue;
    if status >= 0 {
      Hundreds();
      DigitCount(status, 2);
      DigitCount(status, 3);
      if 100 <= status < 1000 {
        ThreeDigits(status);
      }
    }
  }

  lemma {:induction false} Hundreds()
    ensures Pow10(2) == 100 && Pow10(3) == 1000
  {
    assert Pow10(1) == 10 * Pow10(0);
    assert Pow10(2) == 10 * Pow10(1);
  }

  lemma {:induction false} ThreeDigits(n: nat)
    requires 100 <= n < 1000
    ensures |NatText(n)| == 3 && NatText(n)[0] == DigitChar(n / 100)
  {
    assert NatText(n) == NatText(n / 10) + [DigitChar(n % 10)];
    assert NatText(n / 10) == NatText(n / 10 / 10) + [DigitChar(n / 10 % 10)];
    assert n / 10 / 10 == n / 100;
  }

  // ---- timestamps -----------------------------------------------------------------------------------

  predicate DigitsAt(s: string, from: nat, n: nat)
    requires from + n <= |s|
  {
    forall i | from <= i < from + n :: IsDigit(s[i])
  }

  /** The timestamps accepted: four, two and two digits between dashes, T, two, two and two digits between
      colons, Z. */
  lemma {:induction false} TimestampsAccepted(ts: string)
    ensures ValidTimestamp(ts)
            <==> |ts| == 20
                 && DigitsAt(ts, 0, 4) && ts[4] == '-' && DigitsAt(ts, 5, 2) && ts[7] == '-' && DigitsAt(ts, 8, 2)
                 && ts[10] == 'T' && DigitsAt(ts, 11, 2) && ts[13] == ':' && DigitsAt(ts, 14, 2) && ts[16] == ':'
                 && DigitsAt(ts, 17, 2) && ts[19] == 'Z'
  {
    ShapeMarks();
    forall i | 0 <= i < 20 ensures ISO_SHAPE[i] == '#' <==> i !in {4, 7, 10, 13, 16, 19} {
      ShapeDigits(i);
    }
  }

  lemma {:induction false} ShapeMarks()
    ensures |ISO_SHAPE| == 20
    ensures ISO_SHAPE[4] == '-' && ISO_SHAPE[7] == '-' && ISO_SHAPE[10] == 'T' && ISO_SHAPE[13] == ':'
    ensures ISO_SHAPE[16] == ':' && ISO_SHAPE[19] == 'Z'
  {
  }

  lemma {:induction false} ShapeDigits(i: nat)
    requires i < 20
    ensures ISO_SHAPE[i] == '#' <==> i !in {4, 7, 10, 13, 16, 19}
  {
    if i < 10 {
      assert ISO_SHAPE[..10] == "####-##-##";
      assert ISO_SHAPE[i] == "####-##-##"[i];
    } else {
      assert ISO_SHAPE[10..] == "T##:##:##Z";
      assert ISO_SHAPE[i] == "T##:##:##Z"[i - 10];
    }
  }
}
