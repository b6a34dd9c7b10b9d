/**
 What is relied on from RE2 can be met: a leftmost-first search that, for expressions without
 `^`, looks at the text from the match on only.
 */
module RulesSearch {
  import opened Options
  import opened Regex
  import opened Captures
  import opened RulesData

  ghost predicate Leftmost(r: Re, s: string, i: nat) {
    StartsAt(r, s, i) && NoMatchBefore(r, s, i)
  }

  // The match preferred at position `i`.
  ghost predicate IsChoice(r: Re, s: string, i: nat, m: Match) {
    m.start == i && m.end <= |s| && Preferred(r, s, i, m.end, 1, m.caps)
  }

  ghost function Choice(r: Re, s: string, i: nat): Option<Match> {
    if m: Match :| IsChoice(r, s, i, m) then Some(m) else None
  }

  ghost function Search(r: Re, s: string): Option<Match> {
    if i: nat :| i <= |s| && Leftmost(r, s, i) then
      if BeginFree(r) then Shift(Choice(r, s[i..], 0), i) else Choice(r, s, i)
    else None
  }

  lemma {:induction false} LeftmostExists(r: Re, s: string, i: nat, j: nat) returns (n: nat)
    requires M(r, s, i, j)
    ensures n <= i && Leftmost(r, s, n)
  {
    if NoMatchBefore(r, s, i) {
      n := i;
      assert StartsAt(r, s, n);
    } else {
      var k: nat, l: nat :| k < i && M(r, s, k, l);
      n := LeftmostExists(r, s, k, l);
    }
  }

  lemma LeftmostIsUnique(r: Re, s: string, i: nat, j: nat)
    requires Leftmost(r, s, i) && Leftmost(r, s, j)
    ensures i == j
  {
    var a: nat :| M(r, s, i, a);
    var b: nat :| M(r, s, j, b);
  }

  lemma ChoiceExists(r: Re, s: string, i: nat)
    requires StartsAt(r, s, i)
    ensures var c := Choice(r, s, i); c.Some? && IsChoice(r, s, i, c.value)
  {
    hide MC, M, Preferred;
    var j, caps := SomethingIsPreferred(r, s, i, 1);
    PreferredIsMatch(r, s, i, j, 1, caps);
    CapturedMatches(r, s, i, j, 1, caps);
    MatchIsInside(r, s, i, j);
    assert IsChoice(r, s, i, Match(i, j, caps));
  }

  // The choice made on the rest of the text is one on the whole text.
  lemma ChoiceMoves(r: Re, s: string, i: nat)
    requires BeginFree(r) && i <= |s| && StartsAt(r, s, i)
    ensures var m := Shift(Choice(r, s[i..], 0), i); m.Some? && IsChoice(r, s, i, m.value)
  {
    hide M, MC, Preferred, Choice, ShiftCaps, StartsAt, BeginFree;
    assert s[..i] + s[i..] == s;
    StartMoves(r, s[..i], s[i..], 0);
    ChoiceExists(r, s[i..], 0);
    var c := Choice(r, s[i..], 0).value;
    ShiftPreferred(r, s[..i], s[i..], 0, c.end, 1, c.caps);
  }

  lemma SearchAt(r: Re, s: string, i: nat)
    requires i <= |s| && Leftmost(r, s, i)
    ensures Search(r, s) == if BeginFree(r) then Shift(Choice(r, s[i..], 0), i) else Choice(r, s, i)
  {
    hide M, MC, Choice, Preferred, BeginFree;
    var n: nat :| n <= |s| && Leftmost(r, s, n)
                  && Search(r, s) == if BeginFree(r) then Shift(Choice(r, s[n..], 0), n) else Choice(r, s, n);
    LeftmostIsUnique(r, s, i, n);
  }

  lemma SearchFinds(r: Re, s: string)
    ensures Finds(Search, r, s)
  {
    hide M, MC, Choice, Preferred, BeginFree, Shift;
    if i: nat :| i <= |s| && Leftmost(r, s, i) {
      SearchAt(r, s, i);
      if BeginFree(r) { ChoiceMoves(r, s, i); } else { ChoiceExists(r, s, i); }
    } else {
      forall a: nat, b: nat ensures !M(r, s, a, b) {
        if M(r, s, a, b) {
          var n := LeftmostExists(r, s, a, b);
          MatchIsInside(r, s, a, b);
        }
      }
    }
  }

  // What lies before the first possible start plays no part.
  lemma LeftmostMoves(r: Re, p: string, s: string, i: nat)
    requires BeginFree(r) && NoMatchBefore(r, p + s, |p|) && Leftmost(r, s, i)
    ensures Leftmost(r, p + s, |p| + i)
  {
    hide M, MC, BeginFree;
    StartMoves(r, p, s, i);
    forall a: nat, b: nat | a < |p| + i ensures !M(r, p + s, a, b) {
      if M(r, p + s, a, b) {
        MatchIsInside(r, p + s, a, b);
        assert a >= |p|;
        UnshiftMatch(r, p, s, a - |p|, b - |p|);
      }
    }
  }

  lemma SearchForward(r: Re, p: string, s: string)
    ensures Forward(Search, r, p, s)
  {
    hide M, MC, Choice, Shift, Leftmost, BeginFree;
    if BeginFree(r) && NoMatchBefore(r, p + s, |p|) {
      if i: nat :| i <= |s| && Leftmost(r, s, i) {
        LeftmostMoves(r, p, s, i);
        SearchAt(r, s, i);
        SearchAt(r, p + s, |p| + i);
        assert (p + s)[|p| + i..] == s[i..];
        ShiftTwice(Choice(r, s[i..], 0), i, |p|);
      } else {
        NothingAhead(r, p, s);
        ShiftNone(|p|);
      }
    }
  }

  lemma NothingAhead(r: Re, p: string, s: string)
    requires BeginFree(r) && NoMatchBefore(r, p + s, |p|)
    requires forall i: nat :: i <= |s| ==> !Leftmost(r, s, i)
    ensures Search(r, s) == None && Search(r, p + s) == None
  {
    hide M, MC, Choice, Shift, BeginFree;
    forall n: nat | n <= |p + s| ensures !Leftmost(r, p + s, n) {
      if Leftmost(r, p + s, n) {
        var j: nat :| M(r, p + s, n, j);
        MatchIsInside(r, p + s, n, j);
        assert n >= |p|;
        UnshiftMatch(r, p, s, n - |p|, j - |p|);
        MatchIsInside(r, s, n - |p|, j - |p|);
        var l := LeftmostExists(r, s, n - |p|, j - |p|);
      }
    }
  }

  lemma ShiftTwice(m: Option<Match>, a: nat, b: nat)
    ensures Shift(m, a + b) == Shift(Shift(m, a), b)
  {
    if m.Some? {
      assert ShiftCaps(m.value.caps, a + b) == ShiftCaps(ShiftCaps(m.value.caps, a), b);
    }
  }

  lemma ShiftNone(a: nat)
    ensures Shift(None, a) == None
  {
  }

  lemma Re2IsPossible() returns (re2: Re2)
    ensures IsRe2(re2)
  {
    re2 := Re2(Search, Matches);
    forall r, s ensures Finds(re2.search, r, s) {
      SearchFinds(r, s);
    }
    forall r, p, s ensures Forward(re2.search, r, p, s) {
      SearchForward(r, p, s);
    }
  }
}
