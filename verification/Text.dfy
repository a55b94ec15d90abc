/**
 Letter case as the store and the filter see it: the index uses strings.ToLower, the filter strings.EqualFold, and both
 go letter by letter through the Unicode tables. The tables are a parameter, so results hold for all of them.
 */
module Text {
  /** `lower` is unicode.ToLower; `fold` names one letter of each unicode.SimpleFold orbit. */
  datatype Letters = Letters(lower: char -> char, fold: char -> char)

  function Lower(u: Letters, s: string): string {
    seq(|s|, i requires 0 <= i < |s| => u.lower(s[i]))
  }

  predicate EqualFold(u: Letters, a: string, b: string) {
    |a| == |b| && forall i :: 0 <= i < |a| ==> u.fold(a[i]) == u.fold(b[i])
  }

  predicate OccursAt(s: string, sub: string, i: nat) {
    i + |sub| <= |s| && s[i..i + |sub|] == sub
  }

  /** strings.Contains */
  predicate Contains(s: string, sub: string) {
    exists i: nat :: i <= |s| && OccursAt(s, sub, i)
  }

  // ---- ASCII ----

  predicate IsAscii(c: char) {
    c as int < 128
  }

  predicate Ascii(s: string) {
    forall i :: 0 <= i < |s| ==> IsAscii(s[i])
  }

  function AsciiLower(c: char): char {
    if 'A' <= c <= 'Z' then (c as int + 32) as char else c
  }

  /** What the tables say about ASCII letters, whatever they say about others. */
  ghost predicate KnowsAscii(u: Letters) {
    && (forall c :: IsAscii(c) ==> u.lower(c) == AsciiLower(c))
    && (forall c, d :: IsAscii(c) && IsAscii(d) ==> (u.fold(c) == u.fold(d) <==> AsciiLower(c) == AsciiLower(d)))
  }

  /** On ASCII the two notions of "same letters" coincide. */
  lemma AsciiAgree(u: Letters, a: string, b: string)
    requires KnowsAscii(u) && Ascii(a) && Ascii(b)
    ensures EqualFold(u, a, b) <==> Lower(u, a) == Lower(u, b)
  {
    if Lower(u, a) == Lower(u, b) {
      assert |Lower(u, a)| == |a| && |Lower(u, b)| == |b|;
      forall i | 0 <= i < |a|
        ensures u.fold(a[i]) == u.fold(b[i])
      {
        assert Lower(u, a)[i] == Lower(u, b)[i];
      }
    }
    if EqualFold(u, a, b) {
      forall i | 0 <= i < |a|
        ensures Lower(u, a)[i] == Lower(u, b)[i]
      {
        assert u.fold(a[i]) == u.fold(b[i]);
      }
    }
  }

  // ---- All letters ----

  /** Some other letter folds like `c` but has a different lower case. */
  ghost predicate Ambiguous(u: Letters, c: char) {
    exists d :: u.fold(d) == u.fold(c) && u.lower(d) != u.lower(c)
  }

  ghost predicate Steady(u: Letters, s: string) {
    forall i :: 0 <= i < |s| ==> !Ambiguous(u, s[i])
  }

  /** Folding decides lower case for all spellings of `f` exactly when `f` has no ambiguous letter. */
  lemma SteadyIff(u: Letters, f: string)
    ensures Steady(u, f) <==> forall g :: EqualFold(u, g, f) ==> Lower(u, g) == Lower(u, f)
  {
    if Steady(u, f) {
      forall g | EqualFold(u, g, f)
        ensures Lower(u, g) == Lower(u, f)
      {
        assert forall i :: 0 <= i < |f| ==> u.fold(g[i]) == u.fold(f[i]) && !Ambiguous(u, f[i]);
      }
    } else {
      var i :| 0 <= i < |f| && Ambiguous(u, f[i]);
      var d :| u.fold(d) == u.fold(f[i]) && u.lower(d) != u.lower(f[i]);
      var g := f[i := d];
      assert EqualFold(u, g, f);
      assert Lower(u, g)[i] != Lower(u, f)[i];
    }
  }

  // ---- A few real entries ----

  const KELVIN: char := '\U{212A}'
  const LONG_S: char := '\U{017F}'
  const CAPITAL_SIGMA: char := '\U{03A3}'
  const SIGMA: char := '\U{03C3}'
  const FINAL_SIGMA: char := '\U{03C2}'
  const CAPITAL_BETA: char := '\U{0392}'
  const BETA: char := '\U{03B2}'
  const BETA_SYMBOL: char := '\U{03D0}'

  function LowerChar(c: char): char {
    if c == KELVIN then 'k'
    else if c == CAPITAL_SIGMA then SIGMA
    else if c == CAPITAL_BETA then BETA
    else AsciiLower(c)
  }

  function FoldChar(c: char): char {
    if c == LONG_S then 's'
    else if c == FINAL_SIGMA then SIGMA
    else if c == BETA_SYMBOL then BETA
    else LowerChar(c)
  }

  /** ASCII and four of the orbits that reach beyond it. */
  function Sample(): Letters {
    Letters(LowerChar, FoldChar)
  }

  lemma SampleKnowsAscii()
    ensures KnowsAscii(Sample())
  {
    assert forall c :: IsAscii(c) ==> LowerChar(c) == AsciiLower(c) == FoldChar(c);
  }

  /**
   The sample knows ASCII, and has steady and ambiguous letters: s folds with the long s, which is its own lower case.
   */
  lemma SampleLetters()
    ensures KnowsAscii(Sample())
    ensures Ambiguous(Sample(), 's') && Ambiguous(Sample(), SIGMA) && Ambiguous(Sample(), BETA)
    ensures !Ambiguous(Sample(), 'k')
  {
    SampleKnowsAscii();
    var u := Sample();
    assert u.fold(LONG_S) == u.fold('s') && u.lower(LONG_S) != u.lower('s');
    assert u.fold(FINAL_SIGMA) == u.fold(SIGMA) && u.lower(FINAL_SIGMA) != u.lower(SIGMA);
    assert u.fold(BETA_SYMBOL) == u.fold(BETA) && u.lower(BETA_SYMBOL) != u.lower(BETA);
  }
}
