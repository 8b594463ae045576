module FailureTheorems {
  // Where a parse fails: what was read before the position can still become a text, with it it cannot.

  import opened Text
  import opened Grammar
  import opened ParserSpec
  import opened Completeness
  import opened Soundness
  import opened Locality
  import opened Failures

  /** What was read before a failure can still become a text, with what the fault asks for next. */
  lemma {:induction false} ViablePrefix(s: string) returns (t: string)
    requires Parse(s).Err?
    ensures Parse(s[..Parse(s).pos] + t).Ok?
    ensures Continues(s, Parse(s).fault, Parse(s).pos, t)
  {
    hide ParseValue, SkipWs, At, SyntaxText, Admitted, FormText, AdmittedForm;
    var r := Parse(s);
    var v := ParseValue(s, 0);
    if v.Err? {
      var gap, d;
      t, gap, d := ValueViable(s, 0);
      Completed(s, r.pos, t, gap, d, "");
    } else {
      t := "";
      var lead, f := ValueSound(s, 0);
      var trail := GapSound(s, v.pos);
      ClosedText(f);
      WholeRead(s, v.pos, trail);
      Prepended(s, |lead|, v.pos, r.pos, "", FormText(f), trail);
      Prepended(s, 0, |lead|, r.pos, "", lead, FormText(f) + trail);
      assert lead + (SyntaxText(f.d) + trail) == lead + SyntaxText(f.d) + trail;
      Completed(s, r.pos, t, lead, f.d, trail);
    }
  }

  lemma {:induction false} Completed(s: string, p: nat, t: string, lead: string, d: Syntax, trail: string)
    requires Extends(s, 0, p, t, lead + SyntaxText(d) + trail)
              || (trail == "" && Extends(s, 0, p, t, lead + SyntaxText(d)))
    requires AllSpace(lead) && Admitted(d) && AllSpace(trail)
    ensures Parse(s[..p] + t).Ok?
  {
    hide Parse, SyntaxText, Admitted;
    var doc := Document(lead, Closed(d), trail);
    assert s[0..p] == s[..p];
    assert lead + SyntaxText(d) + "" == lead + SyntaxText(d);
    assert DocumentText(doc) == lead + SyntaxText(d) + trail;
    ParseComplete(s[..p] + t, doc);
  }

  /** With the characters that decide a failure no continuation can become a text: the parse fails in
      the same way at the same place. */
  lemma {:induction false} FailureDecided(s: string, t: string)
    requires Parse(s).Err? && Agree(s, t, Decided(Parse(s)))
    ensures Parse(t) == Parse(s)
  {
    hide ParseValue, SkipWs;
    var v := ParseValue(s, 0);
    ValueLocal(s, t, 0);
    if v.Ok? {
      SkipWsLocal(s, t, v.pos);
    }
  }

  /** So no continuation of the text up to there is ever accepted. */
  lemma {:induction false} NoContinuation(s: string, t: string)
    requires Parse(s).Err? && Decided(Parse(s)) <= |s|
    ensures Parse(s[..Decided(Parse(s))] + t) == Parse(s)
  {
    hide Parse;
    FailureDecided(s, s[..Decided(Parse(s))] + t);
  }

  /** Every failure finds at its position what its fault names. */
  lemma {:induction false} FailureFound(s: string)
    requires Parse(s).Err?
    ensures FoundAt(s, Parse(s).fault, Parse(s).pos)
  {
    hide ParseValue, SkipWs, At, NoDigits;
    var v := ParseValue(s, 0);
    if v.Err? {
      ValueFound(s, 0);
    } else {
      Stopped(s, v.pos);
    }
  }
}
