/**
 Prefixalize: the expansion of a rule's pattern into a pattern for its prefixes.
 The character scanner of the source is proved to print a transformation of the
 syntax tree, and that transformation is proved to be prefix closure.
 */
module Prefixalize {
  import opened Regex

  // ----- the transformation of the tree -----

  // Every unit u becomes (?:u|$), and so do the anchors, which the scanner takes for literals; the rest is kept.
  function Expand(r: Re): Re {
    match r
    case Empty => Empty
    case Chr(u) => NonCapturing(Alt(Chr(u), End))
    case Dot => Dot
    case Begin => NonCapturing(Alt(Begin, End))
    case End => NonCapturing(Alt(End, End))
    case Group(a) => Group(Expand(a))
    case NonCapturing(a) => NonCapturing(Expand(a))
    case Cat(a, b) => Cat(Expand(a), Expand(b))
    case Alt(a, b) => Alt(Expand(a), Expand(b))
    case Star(a) => Star(Expand(a))
    case Plus(a) => Plus(Expand(a))
    case Opt(a) => Opt(Expand(a))
    case Rep(a, lo, hi) => Rep(Expand(a), lo, hi)
  }

  // A bare dot is kept as it is, so it may stand only directly under * or ?.
  predicate DotsAreOptional(r: Re) {
    match r
    case Empty => true
    case Chr(_) => true
    case Begin => true
    case End => true
    case Dot => false
    case Group(a) => DotsAreOptional(a)
    case NonCapturing(a) => DotsAreOptional(a)
    case Cat(a, b) => DotsAreOptional(a) && DotsAreOptional(b)
    case Alt(a, b) => DotsAreOptional(a) && DotsAreOptional(b)
    case Star(a) => a.Dot? || DotsAreOptional(a)
    case Plus(a) => DotsAreOptional(a)
    case Opt(a) => a.Dot? || DotsAreOptional(a)
    case Rep(a, _, _) => DotsAreOptional(a)
  }

  // ----- soundness: what the expansion matches is a prefix of a match -----

  // A match of the expansion that stops short of the end of the text is a match of the
  // original; one that reaches the end can be completed to one.
  lemma {:induction false} ExpansionIsSound(r: Re, s: string, i: nat, j: nat) returns (t: string)
    requires Satisfiable(r) && M(Expand(r), s, i, j)
    ensures j < |s| ==> M(r, s, i, j)
    ensures j == |s| ==> M(r, s + t, i, |s + t|)
    decreases r, 1
  {
    t := "";
    assert s + t == s;
    match r
    case Empty =>
    case Chr(u) =>
      assert M(Alt(Chr(u), End), s, i, j);
      assert M(Chr(u), s, i, j) || M(End, s, i, j);
      if i == j {
        var d :| u.Accepts(d);
        t := [d];
      }
    case Dot =>
    case Group(a) => t := ExpansionIsSound(a, s, i, j);
    case NonCapturing(a) => t := ExpansionIsSound(a, s, i, j);
    case Alt(a, b) =>
      if M(Expand(a), s, i, j) { t := ExpansionIsSound(a, s, i, j); } else { t := ExpansionIsSound(b, s, i, j); }
    case Cat(a, b) =>
      var k: nat :| i <= k <= j && M(Expand(a), s, i, k) && M(Expand(b), s, k, j);
      t := CatIsSound(a, b, s, i, k, j);
    case Star(a) =>
      var n: nat :| Iter(Expand(a), n, s, i, j);
      t := IterIsSound(a, n, s, i, j);
    case Plus(a) =>
      var n: nat :| n >= 1 && Iter(Expand(a), n, s, i, j);
      t := IterIsSound(a, n, s, i, j);
    case Opt(a) =>
      if i != j { t := ExpansionIsSound(a, s, i, j); }
    case Rep(a, lo, hi) =>
      var n: nat :| lo <= n <= hi && Iter(Expand(a), n, s, i, j);
      t := IterIsSound(a, n, s, i, j);
  }

  lemma {:induction false} CatIsSound(a: Re, b: Re, s: string, i: nat, k: nat, j: nat) returns (t: string)
    requires Satisfiable(a) && Satisfiable(b)
    requires i <= k <= j && M(Expand(a), s, i, k) && M(Expand(b), s, k, j)
    ensures j < |s| ==> M(Cat(a, b), s, i, j)
    ensures j == |s| ==> M(Cat(a, b), s + t, i, |s + t|)
    decreases Cat(a, b), 0
  {
    hide Expand, Satisfiable, M;
    var t1 := ExpansionIsSound(a, s, i, k);
    if k < |s| {
      t := ExpansionIsSound(b, s, k, j);
      assert j < |s| ==> M(Cat(a, b), s, i, j) by {
        if j < |s| { JoinCat(a, b, s, i, k, j); }
      }
      if j == |s| {
        Extend(a, s, t, i, k);
        JoinCat(a, b, s + t, i, k, |s + t|);
      }
    } else {
      var t2 := SomeMatch(b, s + t1);
      t := t1 + t2;
      assert s + t == s + t1 + t2;
      MatchIsInside(Expand(b), s, k, j);
      Extend(a, s + t1, t2, i, |s + t1|);
      JoinCat(a, b, s + t, i, |s + t1|, |s + t|);
    }
  }

  lemma {:induction false} IterIsSound(a: Re, n: nat, s: string, i: nat, j: nat) returns (t: string)
    requires Satisfiable(a) && Iter(Expand(a), n, s, i, j)
    ensures j < |s| ==> Iter(a, n, s, i, j)
    ensures j == |s| ==> Iter(a, n, s + t, i, |s + t|)
    decreases a, n + 1
  {
    t := "";
    assert s + t == s;
    if n > 0 {
      var k: nat :| i <= k <= j && M(Expand(a), s, i, k) && Iter(Expand(a), n - 1, s, k, j);
      var t1 := ExpansionIsSound(a, s, i, k);
      if k < |s| {
        t := IterIsSound(a, n - 1, s, k, j);
        Extend(a, s, t, i, k);
      } else {
        var t2 := SomeIter(a, n - 1, s + t1);
        t := t1 + t2;
        assert s + t == s + t1 + t2;
        Extend(a, s + t1, t2, i, |s + t1|);
      }
    }
  }

  // ----- completeness: every prefix of a match is matched by the expansion -----

  // Where a position of the longer text lies in its prefix.
  function Inside(s: string, j: nat): nat {
    if j <= |s| then j else |s|
  }

  // Whatever the pattern: anchors, also further inside, and classes that match nothing do not matter here.
  lemma {:induction false} ExpansionIsComplete(r: Re, s: string, w: string, i: nat, j: nat)
    requires DotsAreOptional(r)
    requires |s| <= |w| && s == w[..|s|] && M(r, w, i, j)
    ensures M(Expand(r), s, Inside(s, i), Inside(s, j))
    decreases r, 1
  {
    MatchIsInside(r, w, i, j);
    match r
    case Empty =>
    case Chr(u) => UnitIsComplete(u, s, w, i);
    case Begin => assert M(Alt(Begin, End), s, 0, 0);
    case End => assert M(Alt(End, End), s, |s|, |s|);
    case Group(a) => ExpansionIsComplete(a, s, w, i, j);
    case NonCapturing(a) => ExpansionIsComplete(a, s, w, i, j);
    case Alt(a, b) =>
      if M(a, w, i, j) { ExpansionIsComplete(a, s, w, i, j); } else { ExpansionIsComplete(b, s, w, i, j); }
    case Cat(a, b) =>
      var k := SplitCat(a, b, w, i, j);
      ExpansionIsComplete(a, s, w, i, k);
      ExpansionIsComplete(b, s, w, k, j);
    case Star(a) =>
      var n: nat :| Iter(a, n, w, i, j);
      if a.Dot? {
        DotsInside(n, s, w, i, j);
        assert Iter(Expand(a), Inside(s, j) - Inside(s, i), s, Inside(s, i), Inside(s, j));
      } else {
        IterIsComplete(a, n, s, w, i, j);
      }
    case Plus(a) =>
      var n: nat :| n >= 1 && Iter(a, n, w, i, j);
      IterIsComplete(a, n, s, w, i, j);
    case Opt(a) =>
      if i != j {
        if a.Dot? {
          assert i < |s| ==> s[i] == w[i];
        } else {
          ExpansionIsComplete(a, s, w, i, j);
        }
      }
    case Rep(a, lo, hi) =>
      var n: nat :| lo <= n <= hi && Iter(a, n, w, i, j);
      IterIsComplete(a, n, s, w, i, j);
  }

  lemma UnitIsComplete(u: Unit, s: string, w: string, i: nat)
    requires |s| <= |w| && s == w[..|s|] && M(Chr(u), w, i, i + 1)
    ensures M(Expand(Chr(u)), s, Inside(s, i), Inside(s, i + 1))
  {
    if i < |s| {
      assert s[i] == w[i];
      assert M(Chr(u), s, i, i + 1);
    } else {
      assert M(End, s, |s|, |s|);
    }
    assert M(Alt(Chr(u), End), s, Inside(s, i), Inside(s, i + 1));
  }

  lemma {:induction false} IterIsComplete(a: Re, n: nat, s: string, w: string, i: nat, j: nat)
    requires DotsAreOptional(a)
    requires |s| <= |w| && s == w[..|s|] && Iter(a, n, w, i, j)
    ensures Iter(Expand(a), n, s, Inside(s, i), Inside(s, j))
    decreases a, n + 2
  {
    if n > 0 {
      var k: nat :| i <= k <= j && M(a, w, i, k) && Iter(a, n - 1, w, k, j);
      ExpansionIsComplete(a, s, w, i, k);
      IterIsComplete(a, n - 1, s, w, k, j);
    }
  }

  lemma {:induction false} DotsInside(n: nat, s: string, w: string, i: nat, j: nat)
    requires |s| <= |w| && s == w[..|s|] && Iter(Dot, n, w, i, j)
    ensures Inside(s, i) <= Inside(s, j)
    ensures Iter(Dot, Inside(s, j) - Inside(s, i), s, Inside(s, i), Inside(s, j))
    decreases n
  {
    if n > 0 {
      var k: nat :| i <= k <= j && M(Dot, w, i, k) && Iter(Dot, n - 1, w, k, j);
      DotsInside(n - 1, s, w, k, j);
      if i < |s| {
        assert s[i] == w[i];
        assert M(Dot, s, i, k);
      }
    }
  }

  lemma {:induction false} IterGoesForward(a: Re, n: nat, s: string, i: nat, j: nat)
    requires Iter(a, n, s, i, j)
    ensures i <= j <= |s|
    decreases n
  {
    if n > 0 {
      var k: nat :| i <= k <= j && M(a, s, i, k) && Iter(a, n - 1, s, k, j);
      IterGoesForward(a, n - 1, s, k, j);
    }
  }

  // ----- at the beginning of the text, with a leading anchor -----

  lemma {:induction false} LeadingIsSound(r: Re, s: string, j: nat) returns (t: string)
    requires Leading(r) && M(Expand(r), s, 0, j)
    ensures j < |s| ==> M(r, s, 0, j)
    ensures j == |s| ==> M(r, s + t, 0, |s + t|)
  {
    match r
    case Begin =>
      t := "";
      assert s + t == s;
      assert M(Alt(Begin, End), s, 0, j);
    case Group(a) => t := LeadingIsSound(a, s, j);
    case NonCapturing(a) => t := LeadingIsSound(a, s, j);
    case Alt(a, b) =>
      if M(Expand(a), s, 0, j) { t := LeadingIsSound(a, s, j); } else { t := LeadingIsSound(b, s, j); }
    case Cat(a, b) =>
      var k: nat :| 0 <= k <= j && M(Expand(a), s, 0, k) && M(Expand(b), s, k, j);
      var t1 := LeadingIsSound(a, s, k);
      t := ContinueSoundly(a, b, s, k, j, t1);
    case End => t := "";
    case _ => t := ExpansionIsSound(r, s, 0, j);
  }

  lemma ContinueSoundly(a: Re, b: Re, s: string, k: nat, j: nat, t1: string) returns (t: string)
    requires Leading(a) && Satisfiable(b) && k <= j && M(Expand(b), s, k, j)
    requires if k < |s| then M(a, s, 0, k) else M(a, s + t1, 0, |s + t1|)
    ensures j < |s| ==> M(Cat(a, b), s, 0, j)
    ensures j == |s| ==> M(Cat(a, b), s + t, 0, |s + t|)
  {
    hide Expand, Satisfiable, Leading, M;
    MatchIsInside(Expand(b), s, k, j);
    if k < |s| {
      t := ExpansionIsSound(b, s, k, j);
      if j < |s| {
        JoinCat(a, b, s, 0, k, j);
      } else {
        ExtendLeading(a, s, t, 0, k);
        JoinCat(a, b, s + t, 0, k, |s + t|);
      }
    } else {
      var t2 := SomeMatch(b, s + t1);
      t := t1 + t2;
      assert s + t == s + t1 + t2;
      ExtendLeading(a, s + t1, t2, 0, |s + t1|);
      JoinCat(a, b, s + t, 0, |s + t1|, |s + t|);
    }
  }

  // The expansion recognises exactly the prefixes of the matches.
  lemma PrefixClosure(r: Re, s: string)
    requires Leading(r) && DotsAreOptional(r)
    ensures Matches(Expand(r), s) <==> IsPrefixOfMatch(r, s)
  {
    if Matches(Expand(r), s) {
      var t := LeadingIsSound(r, s, |s|);
      assert Matches(r, s + t);
    }
    if IsPrefixOfMatch(r, s) {
      var t :| Matches(r, s + t);
      ExpansionIsComplete(r, s, s + t, 0, |s + t|);
    }
  }

  // An anchor further inside breaks soundness: nothing that begins with 'a' matches `a^`.
  lemma InnerAnchorIsNotClosed()
    ensures var r := Cat(Chr(Literal('a')), Begin); !IsPrefixOfMatch(r, "a") && Matches(Expand(r), "a")
  {
    hide M;
    var a := Chr(Literal('a'));
    ExpandedUnit(Literal('a'), "a", 0);
    ExpandedAtEnd("a");
    JoinCat(Expand(a), Expand(Begin), "a", 0, 1, 1);
    forall t ensures !Matches(Cat(a, Begin), "a" + t) {
      NeverBehind(Literal('a'), "a" + t, 0, |"a" + t|);
    }
  }

  lemma ExpandedUnit(u: Unit, s: string, i: nat)
    requires i < |s| && u.Accepts(s[i])
    ensures M(Expand(Chr(u)), s, i, i + 1)
  {
    assert M(Chr(u), s, i, i + 1);
    assert M(Alt(Chr(u), End), s, i, i + 1);
  }

  lemma ExpandedAtEnd(s: string)
    ensures M(Expand(Begin), s, |s|, |s|)
  {
    assert M(Alt(Begin, End), s, |s|, |s|);
  }

  lemma NeverBehind(u: Unit, s: string, i: nat, j: nat)
    ensures !M(Cat(Chr(u), Begin), s, i, j)
  {
  }

  // A bare dot breaks completeness, never soundness: the empty text is a prefix of a match of `.`.
  lemma BareDotIsNotClosed()
    ensures Satisfiable(Dot) && IsPrefixOfMatch(Dot, "") && !Matches(Expand(Dot), "")
  {
    assert "" + "a" == "a";
    assert Matches(Dot, "" + "a");
  }
}
