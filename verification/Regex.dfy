/**
 Regular expressions as the rule tables use them: syntax, matching between two
 positions of a text, and matching with capture groups.
 */
module Regex {

  // A unit matches one character.  Its text is a literal, an escape such as \. or \w, or a class [...].
  datatype ClassItem = Raw(c: char) | Escaped(c: char)
  datatype Unit =
    | Literal(c: char)
    | Escape(c: char, members: char -> bool)
    | Class(items: seq<ClassItem>, members: char -> bool)
  {
    predicate Accepts(d: char) {
      match this
      case Literal(c) => c == d
      case Escape(_, members) => members(d)
      case Class(_, members) => members(d)
    }

    ghost predicate Satisfiable() {
      exists d :: Accepts(d)
    }
  }

  datatype Re =
    | Empty
    | Chr(u: Unit)
    | Dot
    | Begin                     // ^, the beginning of the text
    | End                       // $, the end of the text
    | Group(r: Re)              // a capture group
    | NonCapturing(r: Re)       // (?:...)
    | Cat(a: Re, b: Re)
    | Alt(a: Re, b: Re)
    | Star(r: Re)
    | Plus(r: Re)
    | Opt(r: Re)
    | Rep(r: Re, lo: nat, hi: nat)

  predicate DotAccepts(c: char) {
    c != '\n'
  }

  // ----- matching -----

  // `r` matches s[i..j]; only the anchors look at the text around it.
  ghost predicate M(r: Re, s: string, i: nat, j: nat)
    decreases r, 0
  {
    i <= j <= |s|
    && match r
       case Empty => i == j
       case Chr(u) => j == i + 1 && u.Accepts(s[i])
       case Dot => j == i + 1 && DotAccepts(s[i])
       case Begin => i == j == 0
       case End => i == j == |s|
       case Group(a) => M(a, s, i, j)
       case NonCapturing(a) => M(a, s, i, j)
       case Cat(a, b) => exists k: nat :: i <= k <= j && M(a, s, i, k) && M(b, s, k, j)
       case Alt(a, b) => M(a, s, i, j) || M(b, s, i, j)
       case Star(a) => exists n: nat :: Iter(a, n, s, i, j)
       case Plus(a) => exists n: nat :: n >= 1 && Iter(a, n, s, i, j)
       case Opt(a) => i == j || M(a, s, i, j)
       case Rep(a, lo, hi) => exists n: nat :: lo <= n <= hi && Iter(a, n, s, i, j)
  }

  // `n` consecutive matches of `a`.
  ghost predicate Iter(a: Re, n: nat, s: string, i: nat, j: nat)
    decreases a, n + 1
  {
    if n == 0 then i == j <= |s|
    else exists k: nat :: i <= k <= j && M(a, s, i, k) && Iter(a, n - 1, s, k, j)
  }

  // RE2::FullMatch.
  ghost predicate Matches(r: Re, s: string) {
    M(r, s, 0, |s|)
  }

  ghost predicate StartsAt(r: Re, s: string, i: nat) {
    exists j: nat :: M(r, s, i, j)
  }

  ghost predicate IsPrefixOfMatch(r: Re, s: string) {
    exists t :: Matches(r, s + t)
  }

  lemma MatchIsInside(r: Re, s: string, i: nat, j: nat)
    requires M(r, s, i, j)
    ensures i <= j <= |s|
  {
  }

  lemma JoinCat(a: Re, b: Re, s: string, i: nat, k: nat, j: nat)
    requires M(a, s, i, k) && M(b, s, k, j)
    ensures M(Cat(a, b), s, i, j)
  {
  }

  lemma SplitCat(a: Re, b: Re, s: string, i: nat, j: nat) returns (k: nat)
    requires M(Cat(a, b), s, i, j)
    ensures i <= k <= j && M(a, s, i, k) && M(b, s, k, j)
  {
    k :| i <= k <= j && M(a, s, i, k) && M(b, s, k, j);
  }

  // ----- well-formed expressions -----

  // Every unit accepts some character, repetitions have a sensible range, and there are no anchors.
  ghost predicate Satisfiable(r: Re) {
    match r
    case Empty => true
    case Dot => true
    case Chr(u) => u.Satisfiable()
    case Begin => false
    case End => false
    case Group(a) => Satisfiable(a)
    case NonCapturing(a) => Satisfiable(a)
    case Cat(a, b) => Satisfiable(a) && Satisfiable(b)
    case Alt(a, b) => Satisfiable(a) && Satisfiable(b)
    case Star(a) => Satisfiable(a)
    case Plus(a) => Satisfiable(a)
    case Opt(a) => Satisfiable(a)
    case Rep(a, lo, hi) => lo <= hi && Satisfiable(a)
  }

  // No `^`: whether and what it matches does not depend on the text before.
  predicate BeginFree(r: Re) {
    match r
    case Begin => false
    case Empty => true
    case Chr(_) => true
    case Dot => true
    case End => true
    case Group(a) => BeginFree(a)
    case NonCapturing(a) => BeginFree(a)
    case Cat(a, b) => BeginFree(a) && BeginFree(b)
    case Alt(a, b) => BeginFree(a) && BeginFree(b)
    case Star(a) => BeginFree(a)
    case Plus(a) => BeginFree(a)
    case Opt(a) => BeginFree(a)
    case Rep(a, _, _) => BeginFree(a)
  }

  // Satisfiable, except that the expression may begin with `^`.
  ghost predicate Leading(r: Re) {
    match r
    case Begin => true
    case Group(a) => Leading(a)
    case NonCapturing(a) => Leading(a)
    case Cat(a, b) => Leading(a) && Satisfiable(b)
    case Alt(a, b) => Leading(a) && Leading(b)
    case _ => Satisfiable(r)
  }

  // What matched still matches when text is appended.
  lemma {:induction false} Extend(r: Re, s: string, t: string, i: nat, j: nat)
    requires Satisfiable(r) && M(r, s, i, j)
    ensures M(r, s + t, i, j)
    decreases r, 0
  {
    match r
    case Empty =>
    case Chr(u) =>
    case Dot =>
    case Group(a) => Extend(a, s, t, i, j);
    case NonCapturing(a) => Extend(a, s, t, i, j);
    case Cat(a, b) =>
      var k: nat :| i <= k <= j && M(a, s, i, k) && M(b, s, k, j);
      Extend(a, s, t, i, k);
      Extend(b, s, t, k, j);
    case Alt(a, b) =>
      if M(a, s, i, j) { Extend(a, s, t, i, j); } else { Extend(b, s, t, i, j); }
    case Star(a) =>
      var n: nat :| Iter(a, n, s, i, j);
      ExtendIter(a, n, s, t, i, j);
    case Plus(a) =>
      var n: nat :| n >= 1 && Iter(a, n, s, i, j);
      ExtendIter(a, n, s, t, i, j);
    case Opt(a) =>
      if i != j { Extend(a, s, t, i, j); }
    case Rep(a, lo, hi) =>
      var n: nat :| lo <= n <= hi && Iter(a, n, s, i, j);
      ExtendIter(a, n, s, t, i, j);
  }

  lemma {:induction false} ExtendIter(a: Re, n: nat, s: string, t: string, i: nat, j: nat)
    requires Satisfiable(a) && Iter(a, n, s, i, j)
    ensures Iter(a, n, s + t, i, j)
    decreases a, n + 1
  {
    if n > 0 {
      var k: nat :| i <= k <= j && M(a, s, i, k) && Iter(a, n - 1, s, k, j);
      Extend(a, s, t, i, k);
      ExtendIter(a, n - 1, s, t, k, j);
    }
  }

  lemma {:induction false} ExtendLeading(r: Re, s: string, t: string, i: nat, j: nat)
    requires Leading(r) && M(r, s, i, j)
    ensures M(r, s + t, i, j)
  {
    match r
    case Begin =>
    case Group(a) => ExtendLeading(a, s, t, i, j);
    case NonCapturing(a) => ExtendLeading(a, s, t, i, j);
    case Cat(a, b) =>
      var k: nat :| i <= k <= j && M(a, s, i, k) && M(b, s, k, j);
      ExtendLeading(a, s, t, i, k);
      Extend(b, s, t, k, j);
    case Alt(a, b) =>
      if M(a, s, i, j) { ExtendLeading(a, s, t, i, j); } else { ExtendLeading(b, s, t, i, j); }
    case _ => Extend(r, s, t, i, j);
  }

  // A satisfiable expression matches something behind any text.
  lemma {:induction false} SomeMatch(r: Re, w: string) returns (t: string)
    requires Satisfiable(r)
    ensures M(r, w + t, |w|, |w + t|)
    decreases r, 0
  {
    t := "";
    assert w + t == w;
    match r
    case Empty =>
    case Chr(u) =>
      var d :| u.Accepts(d);
      t := [d];
    case Dot => t := "a";
    case Group(a) => t := SomeMatch(a, w);
    case NonCapturing(a) => t := SomeMatch(a, w);
    case Cat(a, b) =>
      var t1 := SomeMatch(a, w);
      var t2 := SomeMatch(b, w + t1);
      t := t1 + t2;
      assert w + t == w + t1 + t2;
      Extend(a, w + t1, t2, |w|, |w + t1|);
    case Alt(a, b) => t := SomeMatch(a, w);
    case Star(a) => assert Iter(a, 0, w, |w|, |w|);
    case Plus(a) => t := SomeIter(a, 1, w);
    case Opt(a) =>
    case Rep(a, lo, hi) => t := SomeIter(a, lo, w);
  }

  lemma {:induction false} SomeIter(a: Re, n: nat, w: string) returns (t: string)
    requires Satisfiable(a)
    ensures Iter(a, n, w + t, |w|, |w + t|)
    decreases a, n + 1
  {
    t := "";
    assert w + t == w;
    if n > 0 {
      var t1 := SomeMatch(a, w);
      var t2 := SomeIter(a, n - 1, w + t1);
      t := t1 + t2;
      assert w + t == w + t1 + t2;
      Extend(a, w + t1, t2, |w|, |w + t1|);
    }
  }
}
