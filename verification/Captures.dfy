/**
 Matching with capture groups.  Groups are numbered by their opening parenthesis,
 starting at `g`; a repeated group keeps its last span.
 */
module Captures {
  import opened Regex

  type Span = p: (nat, nat) | p.0 <= p.1 witness (0, 0)
  type Caps = map<nat, Span>

  // RE2::NumberOfCapturingGroups.
  function Groups(r: Re): nat {
    match r
    case Empty => 0
    case Chr(_) => 0
    case Dot => 0
    case Begin => 0
    case End => 0
    case Group(a) => 1 + Groups(a)
    case NonCapturing(a) => Groups(a)
    case Cat(a, b) => Groups(a) + Groups(b)
    case Alt(a, b) => Groups(a) + Groups(b)
    case Star(a) => Groups(a)
    case Plus(a) => Groups(a)
    case Opt(a) => Groups(a)
    case Rep(a, _, _) => Groups(a)
  }

  // `r` matches s[i..j] and exactly the groups in `caps` take part.
  ghost predicate MC(r: Re, s: string, i: nat, j: nat, g: nat, caps: Caps)
    decreases r, 0
  {
    i <= j <= |s|
    && match r
       case Empty => i == j && caps == map[]
       case Chr(u) => j == i + 1 && u.Accepts(s[i]) && caps == map[]
       case Dot => j == i + 1 && DotAccepts(s[i]) && caps == map[]
       case Begin => i == j == 0 && caps == map[]
       case End => i == j == |s| && caps == map[]
       case Group(a) => g in caps && caps[g] == (i, j) && MC(a, s, i, j, g + 1, caps - {g})
       case NonCapturing(a) => MC(a, s, i, j, g, caps)
       case Cat(a, b) =>
         exists k: nat, c1: Caps, c2: Caps ::
           i <= k <= j && MC(a, s, i, k, g, c1) && MC(b, s, k, j, g + Groups(a), c2) && caps == c1 + c2
       case Alt(a, b) => MC(a, s, i, j, g, caps) || MC(b, s, i, j, g + Groups(a), caps)
       case Star(a) => exists n: nat :: IterC(a, n, s, i, j, g, caps)
       case Plus(a) => exists n: nat :: n >= 1 && IterC(a, n, s, i, j, g, caps)
       case Opt(a) => (i == j && caps == map[]) || MC(a, s, i, j, g, caps)
       case Rep(a, lo, hi) => exists n: nat :: lo <= n <= hi && IterC(a, n, s, i, j, g, caps)
  }

  ghost predicate IterC(a: Re, n: nat, s: string, i: nat, j: nat, g: nat, caps: Caps)
    decreases a, n + 1
  {
    if n == 0 then i == j <= |s| && caps == map[]
    else
      exists k: nat, c1: Caps, c2: Caps ::
        i <= k <= j && MC(a, s, i, k, g, c1) && IterC(a, n - 1, s, k, j, g, c2) && caps == c1 + c2
  }

  // Leftmost-first: of the top-level alternatives that match at `i`, the first one is taken.
  ghost predicate Preferred(r: Re, s: string, i: nat, j: nat, g: nat, caps: Caps) {
    match r
    case Alt(a, b) => if StartsAt(a, s, i) then Preferred(a, s, i, j, g, caps)
        else Preferred(b, s, i, j, g + Groups(a), caps)
    case _ => MC(r, s, i, j, g, caps)
  }

  lemma {:induction false} PreferredIsMatch(r: Re, s: string, i: nat, j: nat, g: nat, caps: Caps)
    requires Preferred(r, s, i, j, g, caps)
    ensures MC(r, s, i, j, g, caps)
  {
    match r
    case Alt(a, b) =>
      if StartsAt(a, s, i) {
        PreferredIsMatch(a, s, i, j, g, caps);
      } else {
        PreferredIsMatch(b, s, i, j, g + Groups(a), caps);
      }
    case _ =>
  }

  lemma {:induction false} SomethingIsPreferred(r: Re, s: string, i: nat, g: nat) returns (j: nat, caps: Caps)
    requires StartsAt(r, s, i)
    ensures Preferred(r, s, i, j, g, caps)
  {
    match r
    case Alt(a, b) =>
      if StartsAt(a, s, i) {
        j, caps := SomethingIsPreferred(a, s, i, g);
      } else {
        var k: nat :| M(r, s, i, k);
        assert M(b, s, i, k) by { EitherMatches(a, b, s, i, k); }
        j, caps := SomethingIsPreferred(b, s, i, g + Groups(a));
      }
    case _ =>
      j :| M(r, s, i, j);
      caps := MatchCaptures(r, s, i, j, g);
  }

  lemma EitherMatches(a: Re, b: Re, s: string, i: nat, j: nat)
    requires M(Alt(a, b), s, i, j) && !StartsAt(a, s, i)
    ensures M(b, s, i, j)
  {
  }

  // ----- captures do not change what matches -----

  lemma {:induction false} CapturedMatches(r: Re, s: string, i: nat, j: nat, g: nat, caps: Caps)
    requires MC(r, s, i, j, g, caps)
    ensures M(r, s, i, j)
    decreases r, 0
  {
    match r
    case Empty =>
    case Chr(_) =>
    case Dot =>
    case Begin =>
    case End =>
    case Group(a) => CapturedMatches(a, s, i, j, g + 1, caps - {g});
    case NonCapturing(a) => CapturedMatches(a, s, i, j, g, caps);
    case Cat(a, b) =>
      var k: nat, c1: Caps, c2: Caps :|
        i <= k <= j && MC(a, s, i, k, g, c1) && MC(b, s, k, j, g + Groups(a), c2) && caps == c1 + c2;
      CapturedMatches(a, s, i, k, g, c1);
      CapturedMatches(b, s, k, j, g + Groups(a), c2);
    case Alt(a, b) =>
      if MC(a, s, i, j, g, caps) {
        CapturedMatches(a, s, i, j, g, caps);
      } else {
        CapturedMatches(b, s, i, j, g + Groups(a), caps);
      }
    case Star(a) =>
      var n: nat :| IterC(a, n, s, i, j, g, caps);
      CapturedIters(a, n, s, i, j, g, caps);
    case Plus(a) =>
      var n: nat :| n >= 1 && IterC(a, n, s, i, j, g, caps);
      CapturedIters(a, n, s, i, j, g, caps);
    case Opt(a) =>
      if MC(a, s, i, j, g, caps) { CapturedMatches(a, s, i, j, g, caps); }
    case Rep(a, lo, hi) =>
      var n: nat :| lo <= n <= hi && IterC(a, n, s, i, j, g, caps);
      CapturedIters(a, n, s, i, j, g, caps);
  }

  lemma {:induction false} CapturedIters(a: Re, n: nat, s: string, i: nat, j: nat, g: nat, caps: Caps)
    requires IterC(a, n, s, i, j, g, caps)
    ensures Iter(a, n, s, i, j)
    decreases a, n + 1
  {
    if n > 0 {
      var k: nat, c1: Caps, c2: Caps :|
        i <= k <= j && MC(a, s, i, k, g, c1) && IterC(a, n - 1, s, k, j, g, c2) && caps == c1 + c2;
      CapturedMatches(a, s, i, k, g, c1);
      CapturedIters(a, n - 1, s, k, j, g, c2);
    }
  }

  // Every match has captures.
  lemma {:induction false} MatchCaptures(r: Re, s: string, i: nat, j: nat, g: nat) returns (caps: Caps)
    requires M(r, s, i, j)
    ensures MC(r, s, i, j, g, caps)
    decreases r, 0
  {
    caps := map[];
    match r
    case Empty =>
    case Chr(_) =>
    case Dot =>
    case Begin =>
    case End =>
    case Group(a) =>
      var inner := MatchCaptures(a, s, i, j, g + 1);
      CapturesInRange(a, s, i, j, g + 1, inner);
      caps := inner[g := (i, j)];
      assert caps - {g} == inner;
    case NonCapturing(a) => caps := MatchCaptures(a, s, i, j, g);
    case Cat(a, b) =>
      var k: nat :| i <= k <= j && M(a, s, i, k) && M(b, s, k, j);
      var c1 := MatchCaptures(a, s, i, k, g);
      var c2 := MatchCaptures(b, s, k, j, g + Groups(a));
      caps := c1 + c2;
    case Alt(a, b) =>
      if M(a, s, i, j) {
        caps := MatchCaptures(a, s, i, j, g);
      } else {
        caps := MatchCaptures(b, s, i, j, g + Groups(a));
      }
    case Star(a) =>
      var n: nat :| Iter(a, n, s, i, j);
      caps := IterCaptures(a, n, s, i, j, g);
    case Plus(a) =>
      var n: nat :| n >= 1 && Iter(a, n, s, i, j);
      caps := IterCaptures(a, n, s, i, j, g);
    case Opt(a) =>
      if i != j { caps := MatchCaptures(a, s, i, j, g); }
    case Rep(a, lo, hi) =>
      var n: nat :| lo <= n <= hi && Iter(a, n, s, i, j);
      caps := IterCaptures(a, n, s, i, j, g);
  }

  lemma {:induction false} IterCaptures(a: Re, n: nat, s: string, i: nat, j: nat, g: nat) returns (caps: Caps)
    requires Iter(a, n, s, i, j)
    ensures IterC(a, n, s, i, j, g, caps)
    decreases a, n + 1
  {
    caps := map[];
    if n > 0 {
      var k: nat :| i <= k <= j && M(a, s, i, k) && Iter(a, n - 1, s, k, j);
      var c1 := MatchCaptures(a, s, i, k, g);
      var c2 := IterCaptures(a, n - 1, s, k, j, g);
      caps := c1 + c2;
    }
  }

  // ----- where captures lie -----

  // Captured groups are numbered g .. g + Groups(r) and lie inside the match.
  ghost predicate InRange(caps: Caps, g: nat, n: nat, i: nat, j: nat) {
    forall q :: q in caps ==> g <= q < g + n && i <= caps[q].0 && caps[q].1 <= j
  }

  lemma {:induction false} CapturesInRange(r: Re, s: string, i: nat, j: nat, g: nat, caps: Caps)
    requires MC(r, s, i, j, g, caps)
    ensures InRange(caps, g, Groups(r), i, j)
    decreases r, 0
  {
    match r
    case Empty =>
    case Chr(_) =>
    case Dot =>
    case Begin =>
    case End =>
    case Group(a) =>
      CapturesInRange(a, s, i, j, g + 1, caps - {g});
      assert forall q :: q in caps && q != g ==> q in caps - {g};
    case NonCapturing(a) => CapturesInRange(a, s, i, j, g, caps);
    case Cat(a, b) =>
      var k: nat, c1: Caps, c2: Caps :|
        i <= k <= j && MC(a, s, i, k, g, c1) && MC(b, s, k, j, g + Groups(a), c2) && caps == c1 + c2;
      CapturesInRange(a, s, i, k, g, c1);
      CapturesInRange(b, s, k, j, g + Groups(a), c2);
    case Alt(a, b) =>
      if MC(a, s, i, j, g, caps) {
        CapturesInRange(a, s, i, j, g, caps);
      } else {
        CapturesInRange(b, s, i, j, g + Groups(a), caps);
      }
    case Star(a) =>
      var n: nat :| IterC(a, n, s, i, j, g, caps);
      ItersInRange(a, n, s, i, j, g, caps);
    case Plus(a) =>
      var n: nat :| n >= 1 && IterC(a, n, s, i, j, g, caps);
      ItersInRange(a, n, s, i, j, g, caps);
    case Opt(a) =>
      if MC(a, s, i, j, g, caps) { CapturesInRange(a, s, i, j, g, caps); }
    case Rep(a, lo, hi) =>
      var n: nat :| lo <= n <= hi && IterC(a, n, s, i, j, g, caps);
      ItersInRange(a, n, s, i, j, g, caps);
  }

  lemma UnionInRange(c1: Caps, c2: Caps, g: nat, n: nat, i: nat, k: nat, j: nat)
    requires i <= k <= j && InRange(c1, g, n, i, k) && InRange(c2, g, n, k, j)
    ensures InRange(c1 + c2, g, n, i, j)
  {
  }

  lemma {:induction false} ItersInRange(a: Re, n: nat, s: string, i: nat, j: nat, g: nat, caps: Caps)
    requires IterC(a, n, s, i, j, g, caps)
    ensures i <= j && InRange(caps, g, Groups(a), i, j)
    decreases a, n + 1
  {
    hide Groups, MC;
    if n > 0 {
      var k: nat, c1: Caps, c2: Caps :|
        i <= k <= j && MC(a, s, i, k, g, c1) && IterC(a, n - 1, s, k, j, g, c2) && caps == c1 + c2;
      CapturesInRange(a, s, i, k, g, c1);
      ItersInRange(a, n - 1, s, k, j, g, c2);
      UnionInRange(c1, c2, g, Groups(a), i, k, j);
    }
  }

  // ----- groups that are not nested capture disjoint spans -----

  // Different groups of `r`, neither inside the other.
  predicate Siblings(r: Re, g: nat, p: nat, q: nat) {
    match r
    case Empty => true
    case Chr(_) => true
    case Dot => true
    case Begin => true
    case End => true
    case Group(a) => p != g && q != g && Siblings(a, g + 1, p, q)
    case NonCapturing(a) => Siblings(a, g, p, q)
    case Cat(a, b) =>
      var h := g + Groups(a);
      if p < h && q < h then Siblings(a, g, p, q) else p >= h && q >= h ==> Siblings(b, h, p, q)
    case Alt(a, b) =>
      var h := g + Groups(a);
      if p < h && q < h then Siblings(a, g, p, q) else p >= h && q >= h ==> Siblings(b, h, p, q)
    case Star(a) => Siblings(a, g, p, q)
    case Plus(a) => Siblings(a, g, p, q)
    case Opt(a) => Siblings(a, g, p, q)
    case Rep(a, _, _) => Siblings(a, g, p, q)
  }

  predicate Apart(x: Span, y: Span) {
    x.1 <= y.0 || y.1 <= x.0
  }

  lemma {:induction false} SiblingsAreApart(r: Re, s: string, i: nat, j: nat, g: nat, caps: Caps, p: nat, q: nat)
    requires MC(r, s, i, j, g, caps) && Siblings(r, g, p, q) && p in caps && q in caps && p != q
    ensures Apart(caps[p], caps[q])
    decreases r, 0
  {
    CapturesInRange(r, s, i, j, g, caps);
    match r
    case Empty =>
    case Chr(_) =>
    case Dot =>
    case Begin =>
    case End =>
    case Group(a) => SiblingsAreApart(a, s, i, j, g + 1, caps - {g}, p, q);
    case NonCapturing(a) => SiblingsAreApart(a, s, i, j, g, caps, p, q);
    case Cat(a, b) =>
      var k: nat, c1: Caps, c2: Caps := SplitCaptures(a, b, s, i, j, g, caps);
      CapturesInRange(a, s, i, k, g, c1);
      CapturesInRange(b, s, k, j, g + Groups(a), c2);
      if p in c1 && q in c1 { SiblingsAreApart(a, s, i, k, g, c1, p, q); }
      if p in c2 && q in c2 { SiblingsAreApart(b, s, k, j, g + Groups(a), c2, p, q); }
    case Alt(a, b) =>
      if MC(a, s, i, j, g, caps) {
        CapturesInRange(a, s, i, j, g, caps);
        SiblingsAreApart(a, s, i, j, g, caps, p, q);
      } else {
        CapturesInRange(b, s, i, j, g + Groups(a), caps);
        SiblingsAreApart(b, s, i, j, g + Groups(a), caps, p, q);
      }
    case Star(a) =>
      var n: nat :| IterC(a, n, s, i, j, g, caps);
      ItersAreApart(a, n, s, i, j, g, caps, p, q);
    case Plus(a) =>
      var n: nat :| n >= 1 && IterC(a, n, s, i, j, g, caps);
      ItersAreApart(a, n, s, i, j, g, caps, p, q);
    case Opt(a) => SiblingsAreApart(a, s, i, j, g, caps, p, q);
    case Rep(a, lo, hi) =>
      var n: nat :| lo <= n <= hi && IterC(a, n, s, i, j, g, caps);
      ItersAreApart(a, n, s, i, j, g, caps, p, q);
  }

  lemma {:induction false} ItersAreApart(a: Re, n: nat, s: string, i: nat, j: nat, g: nat, caps: Caps, p: nat, q: nat)
    requires IterC(a, n, s, i, j, g, caps) && Siblings(a, g, p, q) && p in caps && q in caps && p != q
    ensures Apart(caps[p], caps[q])
    decreases a, n + 1
  {
    hide MC, Groups, Siblings;
    var k: nat, c1: Caps, c2: Caps :|
      i <= k <= j && MC(a, s, i, k, g, c1) && IterC(a, n - 1, s, k, j, g, c2) && caps == c1 + c2;
    CapturesInRange(a, s, i, k, g, c1);
    ItersInRange(a, n - 1, s, k, j, g, c2);
    if p in c2 && q in c2 {
      ItersAreApart(a, n - 1, s, k, j, g, c2, p, q);
    } else if p !in c2 && q !in c2 {
      SiblingsAreApart(a, s, i, k, g, c1, p, q);
    }
  }

  // ----- without `^`, matching does not look back -----

  function ShiftCaps(caps: Caps, d: nat): Caps {
    map q | q in caps :: (caps[q].0 + d, caps[q].1 + d)
  }

  lemma ShiftUnion(c1: Caps, c2: Caps, d: nat)
    ensures ShiftCaps(c1 + c2, d) == ShiftCaps(c1, d) + ShiftCaps(c2, d)
    ensures ShiftCaps(map[], d) == map[]
  {
  }

  lemma ShiftGroup(caps: Caps, g: nat, d: nat)
    requires g in caps
    ensures var shifted := ShiftCaps(caps, d);
            g in shifted && shifted[g] == (caps[g].0 + d, caps[g].1 + d) && shifted - {g} == ShiftCaps(caps - {g}, d)
  {
  }

  lemma SplitCaptures(a: Re, b: Re, s: string, i: nat, j: nat, g: nat, caps: Caps) returns (k: nat, c1: Caps, c2: Caps)
    requires MC(Cat(a, b), s, i, j, g, caps)
    ensures i <= k <= j && MC(a, s, i, k, g, c1) && MC(b, s, k, j, g + Groups(a), c2) && caps == c1 + c2
  {
    k, c1, c2 :| i <= k <= j && MC(a, s, i, k, g, c1) && MC(b, s, k, j, g + Groups(a), c2) && caps == c1 + c2;
  }

  lemma JoinCaptures(a: Re, b: Re, s: string, i: nat, k: nat, j: nat, g: nat, c1: Caps, c2: Caps)
    requires i <= k <= j <= |s| && MC(a, s, i, k, g, c1) && MC(b, s, k, j, g + Groups(a), c2)
    ensures MC(Cat(a, b), s, i, j, g, c1 + c2)
  {
  }

  // A match in `s` is a match in p + s, further right.
  lemma {:induction false} ShiftMatch(r: Re, p: string, s: string, i: nat, j: nat, g: nat, caps: Caps)
    requires BeginFree(r) && MC(r, s, i, j, g, caps)
    ensures MC(r, p + s, |p| + i, |p| + j, g, ShiftCaps(caps, |p|))
    decreases r, 0
  {
    hide ShiftCaps, Groups, IterC;
    ShiftUnion(map[], map[], |p|);
    match r
    case Empty =>
    case Chr(_) =>
    case Dot =>
    case End =>
    case Group(a) =>
      ShiftMatch(a, p, s, i, j, g + 1, caps - {g});
      ShiftGroup(caps, g, |p|);
    case NonCapturing(a) => ShiftMatch(a, p, s, i, j, g, caps);
    case Cat(a, b) =>
      var k: nat, c1: Caps, c2: Caps := SplitCaptures(a, b, s, i, j, g, caps);
      ShiftMatch(a, p, s, i, k, g, c1);
      ShiftMatch(b, p, s, k, j, g + Groups(a), c2);
      ShiftUnion(c1, c2, |p|);
      JoinCaptures(a, b, p + s, |p| + i, |p| + k, |p| + j, g, ShiftCaps(c1, |p|), ShiftCaps(c2, |p|));
    case Alt(a, b) =>
      if MC(a, s, i, j, g, caps) {
        ShiftMatch(a, p, s, i, j, g, caps);
      } else {
        ShiftMatch(b, p, s, i, j, g + Groups(a), caps);
      }
    case Star(a) =>
      var n: nat :| IterC(a, n, s, i, j, g, caps);
      ShiftIters(a, n, p, s, i, j, g, caps);
    case Plus(a) =>
      var n: nat :| n >= 1 && IterC(a, n, s, i, j, g, caps);
      ShiftIters(a, n, p, s, i, j, g, caps);
    case Opt(a) =>
      if MC(a, s, i, j, g, caps) { ShiftMatch(a, p, s, i, j, g, caps); }
    case Rep(a, lo, hi) =>
      var n: nat :| lo <= n <= hi && IterC(a, n, s, i, j, g, caps);
      ShiftIters(a, n, p, s, i, j, g, caps);
  }

  lemma {:induction false} ShiftIters(a: Re, n: nat, p: string, s: string, i: nat, j: nat, g: nat, caps: Caps)
    requires BeginFree(a) && IterC(a, n, s, i, j, g, caps)
    ensures IterC(a, n, p + s, |p| + i, |p| + j, g, ShiftCaps(caps, |p|))
    decreases a, n + 1
  {
    hide ShiftCaps;
    ShiftUnion(map[], map[], |p|);
    if n > 0 {
      var k: nat, c1: Caps, c2: Caps :|
        i <= k <= j && MC(a, s, i, k, g, c1) && IterC(a, n - 1, s, k, j, g, c2) && caps == c1 + c2;
      ShiftMatch(a, p, s, i, k, g, c1);
      ShiftIters(a, n - 1, p, s, k, j, g, c2);
      ShiftUnion(c1, c2, |p|);
    }
  }

  // And a match of p + s that starts in `s` is a match of `s`, whether or not there is a `^`.
  lemma {:induction false} UnshiftMatch(r: Re, p: string, s: string, i: nat, j: nat)
    requires M(r, p + s, |p| + i, |p| + j)
    ensures M(r, s, i, j)
    decreases r, 0
  {
    match r
    case Empty =>
    case Chr(_) =>
    case Dot =>
    case Begin =>
    case End =>
    case Group(a) => UnshiftMatch(a, p, s, i, j);
    case NonCapturing(a) => UnshiftMatch(a, p, s, i, j);
    case Cat(a, b) =>
      var k: nat :| |p| + i <= k <= |p| + j && M(a, p + s, |p| + i, k) && M(b, p + s, k, |p| + j);
      UnshiftMatch(a, p, s, i, k - |p|);
      UnshiftMatch(b, p, s, k - |p|, j);
    case Alt(a, b) =>
      if M(a, p + s, |p| + i, |p| + j) { UnshiftMatch(a, p, s, i, j); } else { UnshiftMatch(b, p, s, i, j); }
    case Star(a) =>
      var n: nat :| Iter(a, n, p + s, |p| + i, |p| + j);
      UnshiftIters(a, n, p, s, i, j);
    case Plus(a) =>
      var n: nat :| n >= 1 && Iter(a, n, p + s, |p| + i, |p| + j);
      UnshiftIters(a, n, p, s, i, j);
    case Opt(a) =>
      if i != j { UnshiftMatch(a, p, s, i, j); }
    case Rep(a, lo, hi) =>
      var n: nat :| lo <= n <= hi && Iter(a, n, p + s, |p| + i, |p| + j);
      UnshiftIters(a, n, p, s, i, j);
  }

  lemma {:induction false} UnshiftIters(a: Re, n: nat, p: string, s: string, i: nat, j: nat)
    requires Iter(a, n, p + s, |p| + i, |p| + j)
    ensures Iter(a, n, s, i, j)
    decreases a, n + 1
  {
    if n > 0 {
      var k: nat :| |p| + i <= k <= |p| + j && M(a, p + s, |p| + i, k) && Iter(a, n - 1, p + s, k, |p| + j);
      UnshiftMatch(a, p, s, i, k - |p|);
      UnshiftIters(a, n - 1, p, s, k - |p|, j);
    }
  }

  lemma StartMoves(r: Re, p: string, s: string, i: nat)
    requires BeginFree(r)
    ensures StartsAt(r, s, i) <==> StartsAt(r, p + s, |p| + i)
  {
    if StartsAt(r, s, i) {
      var j: nat :| M(r, s, i, j);
      var caps := MatchCaptures(r, s, i, j, 1);
      ShiftMatch(r, p, s, i, j, 1, caps);
      CapturedMatches(r, p + s, |p| + i, |p| + j, 1, ShiftCaps(caps, |p|));
    }
    if StartsAt(r, p + s, |p| + i) {
      var j: nat :| M(r, p + s, |p| + i, j);
      MatchIsInside(r, p + s, |p| + i, j);
      UnshiftMatch(r, p, s, i, j - |p|);
    }
  }

  lemma {:induction false} ShiftPreferred(r: Re, p: string, s: string, i: nat, j: nat, g: nat, caps: Caps)
    requires BeginFree(r) && Preferred(r, s, i, j, g, caps)
    ensures Preferred(r, p + s, |p| + i, |p| + j, g, ShiftCaps(caps, |p|))
  {
    match r
    case Alt(a, b) =>
      StartMoves(a, p, s, i);
      if StartsAt(a, s, i) {
        ShiftPreferred(a, p, s, i, j, g, caps);
      } else {
        ShiftPreferred(b, p, s, i, j, g + Groups(a), caps);
      }
    case _ => ShiftMatch(r, p, s, i, j, g, caps);
  }
}
