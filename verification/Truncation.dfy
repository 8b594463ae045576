/** Which accepted texts break off inside a container. */
module Truncation {
  // Exactly those whose last visible character is a comma or an opening bracket.

  import opened Text
  import opened Decimal
  import opened JsonTree
  import opened Grammar
  import opened ParserSpec
  import opened Completeness
  import opened Soundness

  function LastVisible(s: string): Option<char> {
    if s == "" then None
    else if IsSpace(s[|s| - 1]) then LastVisible(s[..|s| - 1])
    else Some(s[|s| - 1])
  }

  predicate BreaksOff(c: Option<char>) {
    c == Some(',') || c == Some('[') || c == Some('{')
  }

  /** Some derivation of s ends inside an array or object. */
  ghost predicate Truncated(s: string) {
    exists doc: Document :: AdmittedDocument(doc) && DocumentText(doc) == s && !doc.form.Closed?
  }

  lemma {:induction false} TrailInvisible(t: string, gap: string)
    requires AllSpace(gap)
    ensures LastVisible(t + gap) == LastVisible(t)
    decreases |gap|
  {
    if gap == "" {
      assert t + gap == t;
    } else {
      var g := gap[..|gap| - 1];
      assert (t + gap)[..|t + gap| - 1] == t + g;
      TrailInvisible(t, g);
    }
  }

  lemma {:induction false} LastIs(t: string, c: char)
    requires !IsSpace(c)
    ensures LastVisible(t + [c]) == Some(c)
  {
  }

  /** What a run of digits, or what stands before it, ends in. */
  lemma {:induction false} DigitsLast(t: string, digits: string)
    requires AllDigits(digits)
    ensures if digits == "" then LastVisible(t + digits) == LastVisible(t)
            else LastVisible(t + digits).Some? && IsDigit(LastVisible(t + digits).value)
  {
    if digits == "" {
      assert t + digits == t;
    } else {
      assert (t + digits)[|t + digits| - 1] == digits[|digits| - 1];
    }
  }

  lemma {:induction false} FractionLast(t: string, f: Option<string>)
    requires !BreaksOff(LastVisible(t)) && AllDigits(FracDigits(f))
    ensures !BreaksOff(LastVisible(t + FracText(f)))
  {
    hide LastVisible;
    if f.Some? {
      LastIs(t, '.');
      DigitsLast(t + ".", f.value);
      assert t + FracText(f) == t + "." + f.value;
    } else {
      assert t + FracText(f) == t;
    }
  }

  lemma {:induction false} ExponentLast(t: string, e: Option<Exponent>)
    requires !BreaksOff(LastVisible(t)) && (e.Some? ==> AdmittedExponent(e.value))
    ensures !BreaksOff(LastVisible(t + ExpText(e)))
  {
    hide LastVisible;
    if e.Some? {
      var x := e.value;
      LastIs(t, x.mark);
      if x.sign != "" {
        LastIs(t + [x.mark], x.sign[0]);
        assert x.sign == [x.sign[0]];
      } else {
        assert t + [x.mark] + x.sign == t + [x.mark];
      }
      DigitsLast(t + [x.mark] + x.sign, x.digits);
      assert t + ExpText(e) == t + [x.mark] + x.sign + x.digits;
    } else {
      assert t + ExpText(e) == t;
    }
  }

  lemma {:induction false} NumeralLast(n: Numeral)
    requires AdmittedNumeral(n)
    ensures !BreaksOff(LastVisible(NumeralText(n)))
  {
    hide LastVisible, ExpText, FracText;
    var sign := if n.minus then "-" else "";
    if n.minus {
      LastIs("", '-');
      assert "" + "-" == "-";
    }
    DigitsLast(sign, n.whole);
    FractionLast(sign + n.whole, n.frac);
    ExponentLast(sign + n.whole + FracText(n.frac), n.exp);
  }

  lemma {:induction false} SyntaxLast(d: Syntax)
    requires Admitted(d)
    ensures !BreaksOff(LastVisible(SyntaxText(d)))
  {
    match d {
      case Keyword(w) =>
        assert WordText(w) == WordText(w)[..|WordText(w)| - 1] + [WordText(w)[|WordText(w)| - 1]];
      case Num(n) =>
        NumeralLast(n);
      case Str(ps) =>
        LastIs("\"" + PiecesText(ps), '\"');
      case EmptyArr(gap) =>
        LastIs("[" + gap, ']');
      case Arr(gap, items) =>
        LastIs("[" + gap + ItemsText(items), ']');
      case EmptyObj(gap) =>
        LastIs("{" + gap, '}');
      case Obj(gap, pairs) =>
        LastIs("{" + gap + PairsText(pairs), '}');
    }
  }

  lemma {:induction false} LastAfterLead(lead: string, t: string)
    requires LastVisible(t).Some?
    ensures LastVisible(lead + t) == LastVisible(t)
    decreases |t|
  {
    assert (lead + t)[|lead + t| - 1] == t[|t| - 1];
    if IsSpace(t[|t| - 1]) {
      assert (lead + t)[..|lead + t| - 1] == lead + t[..|t| - 1];
      LastAfterLead(lead, t[..|t| - 1]);
    }
  }

  lemma {:induction false} FormLast(f: Form)
    requires AdmittedForm(f)
    ensures LastVisible(FormText(f)).Some?
    ensures BreaksOff(LastVisible(FormText(f))) <==> !f.Closed?
  {
    match f {
      case Closed(d) =>
        SyntaxLast(d);
        SyntaxVisible(d);
      case OpenArray(gap) =>
        LastIs("", '[');
        assert "" + "[" == "[";
        TrailInvisible("[", gap);
      case OpenItems(gap, items) =>
        LastIs("[" + gap + ItemsText(items), ',');
      case OpenObject(gap) =>
        LastIs("", '{');
        assert "" + "{" == "{";
        TrailInvisible("{", gap);
      case OpenPairs(gap, pairs) =>
        LastIs("{" + gap + PairsText(pairs), ',');
    }
  }

  lemma {:induction false} SyntaxVisible(d: Syntax)
    requires Admitted(d)
    ensures LastVisible(SyntaxText(d)).Some?
  {
    var t := SyntaxText(d);
    AtIsSlice(t, 0, t);
    ValueStarts(t, 0, d);
    VisibleFirst(t);
  }

  lemma {:induction false} VisibleFirst(t: string)
    requires t != "" && !IsSpace(t[0])
    ensures LastVisible(t).Some?
    decreases |t|
  {
    if IsSpace(t[|t| - 1]) {
      VisibleFirst(t[..|t| - 1]);
    }
  }

  /** An accepted text is a truncated one exactly when its last visible character is ',', '[' or '{'. */
  lemma {:induction false} TruncatedExactly(s: string)
    requires Parse(s).Ok?
    ensures Truncated(s) <==> BreaksOff(LastVisible(s))
  {
    var doc := ParseSound(s);
    DocumentLast(doc);
    if Truncated(s) {
      var open: Document :| AdmittedDocument(open) && DocumentText(open) == s && !open.form.Closed?;
      DocumentLast(open);
    }
  }

  lemma {:induction false} DocumentLast(doc: Document)
    requires AdmittedDocument(doc)
    ensures BreaksOff(LastVisible(DocumentText(doc))) <==> !doc.form.Closed?
  {
    FormLast(doc.form);
    LastAfterLead(doc.lead, FormText(doc.form));
    TrailInvisible(doc.lead + FormText(doc.form), doc.trail);
  }

  /** The text "{" alone is accepted as an empty object, and "1." as 1, though neither is JSON. */
  lemma {:induction false} LenientExamples()
    ensures Parse("{") == Ok(Object([]), 1)
    ensures Parse("1.") == Ok(Number(Decimal(1, 0)), 2)
  {
    hide Parse, DigitsValue;
    ParseComplete("{", Document("", OpenObject(""), ""));
    assert DocumentText(Document("", OpenObject(""), "")) == "{";
    var one := Numeral(false, "1", Some(""), None);
    assert NumeralText(one) == "1.";
    assert DocumentText(Document("", Closed(Num(one)), "")) == "1.";
    ParseComplete("1.", Document("", Closed(Num(one)), ""));
    OneValue();
  }

  lemma {:induction false} OneValue()
    ensures DigitsValue("1" + "") == 1
  {
    assert "1"[..0] == "";
  }
}
