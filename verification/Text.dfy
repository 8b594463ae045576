/**
 Characters and positions in a text, what stands at a position, and the order in which
 std::string compares.
 */
module Text {

  datatype Option<+T> = None | Some(value: T)

  /** isspace in the C locale: space and the codes 9 to 13. */
  predicate IsSpace(c: char) {
    c == ' ' || '\t' <= c <= '\r'
  }

  predicate IsDigit(c: char) {
    '0' <= c <= '9'
  }

  predicate AllSpace(t: string) {
    forall i | 0 <= i < |t| :: IsSpace(t[i])
  }

  predicate AllDigits(t: string) {
    forall i | 0 <= i < |t| :: IsDigit(t[i])
  }

  /** Indexing a std::string at its size yields NUL; reading beyond is never allowed. */
  function CharAt(s: string, pos: nat): char
    requires pos <= |s|
  {
    if pos < |s| then s[pos] else '\0'
  }

  /** The text t stands in s at position pos. */
  predicate At(s: string, pos: nat, t: string): (b: bool)
    ensures b ==> pos + |t| <= |s|
  {
    RestAt(s, pos, t, 0)
  }

  /** The rest of t from index i on stands in s at pos. */
  predicate RestAt(s: string, pos: nat, t: string, i: nat): (b: bool)
    requires i <= |t|
    ensures b ==> pos + |t| - i <= |s|
    decreases |t| - i
  {
    if i == |t| then pos <= |s| else pos < |s| && s[pos] == t[i] && RestAt(s, pos + 1, t, i + 1)
  }

  lemma {:induction false} RestAtIsSlice(s: string, pos: nat, t: string, i: nat)
    requires i <= |t|
    ensures RestAt(s, pos, t, i) <==> pos + |t| - i <= |s| && s[pos..pos + |t| - i] == t[i..]
    decreases |t| - i
  {
    if i < |t| {
      RestAtIsSlice(s, pos + 1, t, i + 1);
      assert t[i..] == [t[i]] + t[i + 1..];
      if pos + |t| - i <= |s| {
        assert s[pos..pos + |t| - i] == [s[pos]] + s[pos + 1..pos + |t| - i];
      }
    }
  }

  lemma {:induction false} AtIsSlice(s: string, pos: nat, t: string)
    ensures At(s, pos, t) <==> pos + |t| <= |s| && s[pos..pos + |t|] == t
  {
    RestAtIsSlice(s, pos, t, 0);
    assert t[0..] == t;
  }

  lemma {:induction false} AtIndex(s: string, pos: nat, t: string, i: nat)
    requires At(s, pos, t) && i < |t|
    ensures s[pos + i] == t[i]
  {
    AtIsSlice(s, pos, t);
    assert s[pos..pos + |t|][i] == s[pos + i];
  }

  lemma {:induction false} AtSlice(s: string, from: nat, to: nat)
    requires from <= to <= |s|
    ensures At(s, from, s[from..to])
  {
    AtIsSlice(s, from, s[from..to]);
  }

  lemma {:induction false} AtConcat(s: string, pos: nat, a: string, b: string)
    ensures At(s, pos, a + b) <==> At(s, pos, a) && At(s, pos + |a|, b)
  {
    AtIsSlice(s, pos, a + b);
    AtIsSlice(s, pos, a);
    AtIsSlice(s, pos + |a|, b);
    if pos + |a| + |b| <= |s| {
      var w := s[pos..pos + |a| + |b|];
      assert w[..|a|] == s[pos..pos + |a|] && w[|a|..] == s[pos + |a|..pos + |a| + |b|];
      assert (a + b)[..|a|] == a && (a + b)[|a|..] == b;
      assert w == w[..|a|] + w[|a|..];
    }
  }

  function Repeat(c: char, n: nat): (t: string)
    ensures |t| == n && forall i | 0 <= i < n :: t[i] == c
  {
    seq(n, i => c)
  }

  // ---- the order of std::string -------------------------------------------------------

  /** operator< on std::string: lexicographic by character code, a proper prefix first. */
  predicate Less(a: string, b: string) {
    b != "" && (a == "" || a[0] < b[0] || (a[0] == b[0] && Less(a[1..], b[1..])))
  }

  predicate Leq(a: string, b: string) {
    !Less(b, a)
  }

  lemma {:induction false} LessIrreflexive(a: string)
    ensures !Less(a, a)
  {
    if a != "" {
      LessIrreflexive(a[1..]);
    }
  }

  lemma {:induction false} LessTotal(a: string, b: string)
    ensures Less(a, b) || a == b || Less(b, a)
  {
    if a != "" && b != "" {
      LessTotal(a[1..], b[1..]);
      if a[0] == b[0] && a[1..] == b[1..] {
        assert a == [a[0]] + a[1..] == b;
      }
    }
  }

  lemma {:induction false} LessTransitive(a: string, b: string, c: string)
    requires Less(a, b) && Less(b, c)
    ensures Less(a, c)
  {
    if a != "" && a[0] == b[0] == c[0] {
      LessTransitive(a[1..], b[1..], c[1..]);
    }
  }

  lemma {:induction false} LessAsymmetric(a: string, b: string)
    requires Less(a, b)
    ensures !Less(b, a)
  {
    if Less(b, a) {
      LessTransitive(a, b, a);
      LessIrreflexive(a);
    }
  }

  lemma {:induction false} LeqTransitive(a: string, b: string, c: string)
    requires Leq(a, b) && Leq(b, c)
    ensures Leq(a, c)
  {
    if Less(c, a) {
      LessTotal(b, c);
      if b != c {
        LessTransitive(b, c, a);
      }
    }
  }

  /** The first difference decides: at k the smaller text ends, or has the smaller character. */
  predicate DiffersAt(a: string, b: string, k: nat) {
    k <= |a| && k < |b| && a[..k] == b[..k] && (k == |a| || a[k] < b[k])
  }

  lemma {:induction false} LessSpelled(a: string, b: string)
    ensures Less(a, b) <==> exists k: nat :: DiffersAt(a, b, k)
  {
    if Less(a, b) {
      if a == "" || a[0] < b[0] {
        assert DiffersAt(a, b, 0);
      } else {
        LessSpelled(a[1..], b[1..]);
        var k: nat :| DiffersAt(a[1..], b[1..], k);
        assert a[..k + 1] == [a[0]] + a[1..][..k] && b[..k + 1] == [b[0]] + b[1..][..k];
        assert DiffersAt(a, b, k + 1);
      }
    }
    if exists k: nat :: DiffersAt(a, b, k) {
      var k: nat :| DiffersAt(a, b, k);
      if k > 0 {
        assert a[0] == a[..k][0] == b[..k][0] == b[0];
        assert a[1..][..k - 1] == a[..k][1..] && b[1..][..k - 1] == b[..k][1..];
        assert DiffersAt(a[1..], b[1..], k - 1);
        LessSpelled(a[1..], b[1..]);
      }
    }
  }
}
