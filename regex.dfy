/**
 * The fragment of ECMAScript regular expressions that the backend's
 * validators use, with a relational match semantics: a pattern matches the
 * code units s[i..j] when some choice of repetition counts makes every term
 * succeed. For this fragment (no back-references, only positive look-aheads)
 * the backtracking matcher of ECMAScript finds a match from a position
 * exactly when one exists in this sense, so `Test` below is what
 * `RegExp.prototype.test` answers for a regex without flags.
 */
module Regex {
  import opened JsText
  import opened Options

  /** The line terminators of ECMAScript: `.` without the `s` flag matches none. */
  predicate IsLineTerminator(c: CodeUnit) {
    c == 0x000A || c == 0x000D || c == 0x2028 || c == 0x2029
  }

  /** What a single-unit atom accepts: a bracket class (or `\d`) as ranges, or `.`. */
  datatype CharClass =
    | Ranges(ranges: seq<(CodeUnit, CodeUnit)>)
    | AnyButLineTerminator

  predicate InClass(c: CodeUnit, k: CharClass) {
    match k
    case Ranges(rs) => exists r :: r in rs && r.0 <= c <= r.1
    case AnyButLineTerminator => !IsLineTerminator(c)
  }

  /** One term of a pattern; a pattern is the concatenation of its terms. */
  datatype Term =
    | InputStart                                         // `^` without the `m` flag
    | InputEnd                                           // `$` without the `m` flag
    | Repeat(atom: CharClass, min: nat, max: Option<nat>) // atom{min,max}; max None is unbounded
    | Lookahead(body: Pattern)                           // (?=body)

  type Pattern = seq<Term>

  /** A literal code unit such as `@` or `\.`. */
  function Lit(c: CodeUnit): Term {
    Repeat(Ranges([(c, c)]), 1, Some(1))
  }

  /** A literal run of code units, one term per unit. */
  function Literal(w: JsString): Pattern {
    if w == [] then [] else [Lit(w[0])] + Literal(w[1..])
  }

  function Once(k: CharClass): Term { Repeat(k, 1, Some(1)) }
  function Star(k: CharClass): Term { Repeat(k, 0, None) }
  function Plus(k: CharClass): Term { Repeat(k, 1, None) }
  function Between(k: CharClass, lo: nat, hi: nat): Term { Repeat(k, lo, Some(hi)) }

  /** Term t matches s[i..j]. */
  ghost predicate TermMatches(t: Term, s: JsString, i: nat, j: nat)
    decreases t
  {
    i <= j <= |s| &&
    match t
    case InputStart => i == 0 && j == 0
    case InputEnd => i == |s| && j == |s|
    case Repeat(k, lo, hi) =>
      i + lo <= j && (hi.None? || j <= i + hi.value) &&
      forall q :: i <= q < j ==> InClass(s[q], k)
    case Lookahead(body) =>
      i == j && exists e: nat :: i <= e <= |s| && SeqMatches(body, s, i, e)
  }

  /** Pattern p matches s[i..j]: it splits into consecutive matches of its terms. */
  ghost predicate SeqMatches(p: Pattern, s: JsString, i: nat, j: nat)
    decreases p
  {
    i <= j <= |s| &&
    if p == [] then i == j
    else exists m :: i <= m <= j && TermMatches(p[0], s, i, m) && SeqMatches(p[1..], s, m, j)
  }

  /** `RegExp.prototype.test` without flags: a match starts somewhere in s. */
  ghost predicate Test(p: Pattern, s: JsString) {
    exists i, j :: 0 <= i <= j <= |s| && SeqMatches(p, s, i, j)
  }

  /** The terms that consume nothing. */
  predicate IsAssertion(t: Term) {
    t.InputStart? || t.InputEnd? || t.Lookahead?
  }

  /** Matching a pattern chooses where its first term's match ends. */
  lemma ConsMatches(t: Term, rest: Pattern, s: JsString, i: nat, j: nat)
    ensures SeqMatches([t] + rest, s, i, j) <==>
      exists m :: i <= m <= j && TermMatches(t, s, i, m) && SeqMatches(rest, s, m, j)
  {
    var p := [t] + rest;
    assert p[0] == t && p[1..] == rest;
    if exists m :: i <= m <= j && TermMatches(t, s, i, m) && SeqMatches(rest, s, m, j) {
      var m :| i <= m <= j && TermMatches(t, s, i, m) && SeqMatches(rest, s, m, j);
      assert TermMatches(p[0], s, i, m) && SeqMatches(p[1..], s, m, j);
    }
  }

  /** An assertion in front of a pattern is checked at the starting position. */
  lemma AssertionThen(t: Term, rest: Pattern, s: JsString, i: nat, j: nat)
    requires IsAssertion(t)
    ensures SeqMatches([t] + rest, s, i, j) <==>
      TermMatches(t, s, i, i) && SeqMatches(rest, s, i, j)
  {
    ConsMatches(t, rest, s, i, j);
    if SeqMatches([t] + rest, s, i, j) {
      var m :| i <= m <= j && TermMatches(t, s, i, m) && SeqMatches(rest, s, m, j);
      assert m == i;
    }
    if TermMatches(t, s, i, i) && SeqMatches(rest, s, i, j) {
      assert i <= i <= j && TermMatches(t, s, i, i) && SeqMatches(rest, s, i, j);
    }
  }

  /** `$` alone matches only the empty string at the end of the input. */
  lemma EndOnly(s: JsString, i: nat, j: nat)
    ensures SeqMatches([InputEnd], s, i, j) <==> i == |s| && j == |s|
  {
    ConsMatches(InputEnd, [], s, i, j);
    if i == |s| && j == |s| {
      assert TermMatches(InputEnd, s, i, i) && SeqMatches([], s, i, j);
    }
  }

  /** A single-unit class written as one range [c-c] accepts exactly c. */
  lemma LitAccepts(c: CodeUnit, x: CodeUnit)
    ensures InClass(x, Ranges([(c, c)])) <==> x == c
  {
    if x == c {
      assert (c, c) in [(c, c)];
    }
  }

  /** A pattern anchored with `^` can only match from position 0. */
  lemma AnchoredTest(rest: Pattern, s: JsString)
    ensures Test([InputStart] + rest, s) <==> exists j :: 0 <= j <= |s| && SeqMatches(rest, s, 0, j)
  {
    if Test([InputStart] + rest, s) {
      var i, j :| 0 <= i <= j <= |s| && SeqMatches([InputStart] + rest, s, i, j);
      AssertionThen(InputStart, rest, s, i, j);
      assert i == 0;
    }
    if exists j :: 0 <= j <= |s| && SeqMatches(rest, s, 0, j) {
      var j :| 0 <= j <= |s| && SeqMatches(rest, s, 0, j);
      AssertionThen(InputStart, rest, s, 0, j);
      assert SeqMatches([InputStart] + rest, s, 0, j);
    }
  }

  /** A literal run in front of a pattern matches exactly those code units. */
  lemma {:induction false} LiteralThen(w: JsString, rest: Pattern, s: JsString, i: nat, j: nat)
    ensures SeqMatches(Literal(w) + rest, s, i, j) <==>
      i + |w| <= j <= |s| && s[i..i + |w|] == w && SeqMatches(rest, s, i + |w|, j)
  {
    if w == [] {
      assert Literal(w) + rest == rest;
    } else {
      var c := w[0];
      assert Literal(w) + rest == [Lit(c)] + (Literal(w[1..]) + rest);
      ConsMatches(Lit(c), Literal(w[1..]) + rest, s, i, j);
      LiteralThen(w[1..], rest, s, i + 1, j);
      if SeqMatches(Literal(w) + rest, s, i, j) {
        var m :| i <= m <= j && TermMatches(Lit(c), s, i, m) && SeqMatches(Literal(w[1..]) + rest, s, m, j);
        LitAccepts(c, s[i]);
        assert m == i + 1;
        assert s[i..i + |w|] == [s[i]] + s[i + 1..i + 1 + |w[1..]|];
      }
      if i + |w| <= j <= |s| && s[i..i + |w|] == w && SeqMatches(rest, s, i + |w|, j) {
        assert s[i] == c;
        LitAccepts(c, s[i]);
        assert TermMatches(Lit(c), s, i, i + 1);
        assert s[i + 1..i + 1 + |w[1..]|] == s[i..i + |w|][1..];
      }
    }
  }

  /** A repetition running to `$` must cover the whole rest of the input. */
  lemma RepeatToEnd(k: CharClass, lo: nat, hi: Option<nat>, s: JsString, i: nat, j: nat)
    ensures SeqMatches([Repeat(k, lo, hi), InputEnd], s, i, j) <==>
      j == |s| && i + lo <= |s| && (hi.None? || |s| <= i + hi.value) &&
      forall q :: i <= q < |s| ==> InClass(s[q], k)
  {
    assert [Repeat(k, lo, hi), InputEnd] == [Repeat(k, lo, hi)] + [InputEnd];
    ConsMatches(Repeat(k, lo, hi), [InputEnd], s, i, j);
    forall m: nat | i <= m <= j
      ensures SeqMatches([InputEnd], s, m, j) <==> m == |s| && j == |s|
    {
      EndOnly(s, m, j);
    }
    if j == |s| && i + lo <= |s| && (hi.None? || |s| <= i + hi.value) &&
       forall q :: i <= q < |s| ==> InClass(s[q], k)
    {
      assert TermMatches(Repeat(k, lo, hi), s, i, |s|);
    }
  }

  /** A successful look-ahead has a match of its body. */
  lemma LookaheadWitness(body: Pattern, s: JsString, i: nat)
    requires TermMatches(Lookahead(body), s, i, i)
    ensures exists e: nat :: i <= e <= |s| && SeqMatches(body, s, i, e)
  {
  }

  /** A look-ahead succeeds at i exactly when its body matches from i. */
  lemma LookaheadAt(body: Pattern, s: JsString, i: nat)
    requires i <= |s|
    ensures TermMatches(Lookahead(body), s, i, i) <==> exists e: nat :: i <= e <= |s| && SeqMatches(body, s, i, e)
  {
    if TermMatches(Lookahead(body), s, i, i) {
      LookaheadWitness(body, s, i);
    }
    if exists e: nat :: i <= e <= |s| && SeqMatches(body, s, i, e) {
      var e: nat :| i <= e <= |s| && SeqMatches(body, s, i, e);
      assert TermMatches(Lookahead(body), s, i, i);
    }
  }

  /** `(?=.*X)` at position i: some unit of class X follows with no line terminator before it. */
  lemma FindAhead(k: CharClass, s: JsString, i: nat)
    requires i <= |s|
    ensures TermMatches(Lookahead([Star(AnyButLineTerminator), Once(k)]), s, i, i) <==>
      exists m :: i <= m < |s| && (forall q :: i <= q < m ==> !IsLineTerminator(s[q])) && InClass(s[m], k)
  {
    var body := [Star(AnyButLineTerminator), Once(k)];
    assert body == [Star(AnyButLineTerminator)] + [Once(k)];
    assert [Once(k)] == [Once(k)] + [];
    forall e: nat, m: nat | i <= m <= e <= |s|
      ensures SeqMatches([Once(k)], s, m, e) <==> e == m + 1 && InClass(s[m], k)
    {
      ConsMatches(Once(k), [], s, m, e);
      if e == m + 1 && InClass(s[m], k) {
        assert TermMatches(Once(k), s, m, e) && SeqMatches([], s, e, e);
      }
    }
    if TermMatches(Lookahead(body), s, i, i) {
      LookaheadAt(body, s, i);
      var e :| i <= e <= |s| && SeqMatches(body, s, i, e);
      ConsMatches(Star(AnyButLineTerminator), [Once(k)], s, i, e);
      var m :| i <= m <= e && TermMatches(Star(AnyButLineTerminator), s, i, m) && SeqMatches([Once(k)], s, m, e);
      assert i <= m < |s| && (forall q :: i <= q < m ==> !IsLineTerminator(s[q])) && InClass(s[m], k);
    }
    if exists m :: i <= m < |s| && (forall q :: i <= q < m ==> !IsLineTerminator(s[q])) && InClass(s[m], k) {
      var m :| i <= m < |s| && (forall q :: i <= q < m ==> !IsLineTerminator(s[q])) && InClass(s[m], k);
      assert TermMatches(Star(AnyButLineTerminator), s, i, m);
      ConsMatches(Star(AnyButLineTerminator), [Once(k)], s, i, m + 1);
      assert SeqMatches(body, s, i, m + 1);
    }
  }

  /** A literal run that must end the input occupies exactly its last |w| units. */
  lemma LiteralToEnd(w: JsString, s: JsString, m: nat, j: nat)
    requires m <= j <= |s|
    ensures SeqMatches(Literal(w) + [InputEnd], s, m, j) <==>
      m + |w| == |s| && j == |s| && s[m..] == w
  {
    LiteralThen(w, [InputEnd], s, m, j);
    if m + |w| <= j {
      EndOnly(s, m + |w|, j);
    }
  }

  /** `^k+w$`: the input is a non-empty run of class k followed by the literal w. */
  lemma PlusThenLiteralToEnd(k: CharClass, w: JsString, s: JsString)
    ensures Test([InputStart] + ([Plus(k)] + (Literal(w) + [InputEnd])), s) <==>
      |s| > |w| && s[|s| - |w|..] == w && forall q :: 0 <= q < |s| - |w| ==> InClass(s[q], k)
  {
    var tail := Literal(w) + [InputEnd];
    var rest := [Plus(k)] + tail;
    AnchoredTest(rest, s);
    if Test([InputStart] + rest, s) {
      var j: nat :| j <= |s| && SeqMatches(rest, s, 0, j);
      ConsMatches(Plus(k), tail, s, 0, j);
      var m: nat :| m <= j && TermMatches(Plus(k), s, 0, m) && SeqMatches(tail, s, m, j);
      LiteralToEnd(w, s, m, j);
    }
    if |s| > |w| && s[|s| - |w|..] == w && forall q :: 0 <= q < |s| - |w| ==> InClass(s[q], k) {
      var m := |s| - |w|;
      assert TermMatches(Plus(k), s, 0, m);
      LiteralToEnd(w, s, m, |s|);
      ConsMatches(Plus(k), tail, s, 0, |s|);
      assert SeqMatches(rest, s, 0, |s|);
    }
  }
}
