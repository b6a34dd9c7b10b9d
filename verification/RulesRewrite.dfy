/**
 What a transform writes, by position: the match is replaced by a text that can be cut into consecutive pieces,
 each the text or the group its place in the template names.
 */
module RulesRewrite {
  import opened Options
  import opened Regex
  import opened Captures
  import opened RulesData
  import opened RulesTransform
  import opened RulesDelimiter

  // ----- the rewritten text -----

  // `y` is what a piece of the template shows of the match: a text itself, the whole match for 0, what the group
  // captured, or nothing if the group took no part.
  predicate Shows(s: string, m: Match, piece: Piece, y: string)
    requires SpansIn(m, s)
  {
    match piece
    case Text(t) => y == t
    case Ref(n) =>
      if n > 0 && n !in m.caps then y == ""
      else
        var (i, j) := if n == 0 then (m.start, m.end) else m.caps[n];
        |y| == j - i && forall k :: 0 <= k < |y| ==> i + k < |s| && y[k] == s[i + k]
  }

  predicate IsCut(cuts: seq<nat>, pieces: nat, length: nat) {
    && |cuts| == pieces + 1 && cuts[0] == 0 && cuts[pieces] == length
    && forall a, b :: 0 <= a <= b <= pieces ==> cuts[a] <= cuts[b]
  }

  // Cut at these positions, `x` is the pieces of the template in their order.
  predicate IsRewriting(s: string, m: Match, to: seq<Piece>, x: string, cuts: seq<nat>)
    requires SpansIn(m, s)
  {
    IsCut(cuts, |to|, |x|) && forall k :: 0 <= k < |to| ==> Shows(s, m, to[k], x[cuts[k]..cuts[k + 1]])
  }

  lemma {:induction false} RewritingIs(s: string, m: Match, to: seq<Piece>) returns (cuts: seq<nat>)
    requires SpansIn(m, s)
    ensures IsRewriting(s, m, to, Rewrite(s, m, to), cuts)
  {
    hide Shows;
    if to == [] {
      cuts := [0];
    } else {
      var n := |to| - 1;
      var front := RewritingIs(s, m, to[..n]);
      var x, y := Rewrite(s, m, to[..n]), Rewrite(s, m, to)[|Rewrite(s, m, to[..n])|..];
      PieceIs(s, m, to[n]);
      assert Rewrite(s, m, to) == x + y;
      cuts := AddPiece(s, m, to, x, y, front);
    }
  }

  function PieceText(s: string, m: Match, piece: Piece): string
    requires SpansIn(m, s)
  {
    match piece
    case Text(t) => t
    case Ref(q) => GroupText(s, m, q)
  }

  lemma PieceIs(s: string, m: Match, piece: Piece)
    requires SpansIn(m, s)
    ensures Shows(s, m, piece, PieceText(s, m, piece))
  {
    if piece.Ref? && piece.n > 0 && piece.n in m.caps {
      assert SpanEnd(m.caps[piece.n]) <= |s|;
    }
  }

  lemma AddPiece(s: string, m: Match, to: seq<Piece>, x: string, y: string, front: seq<nat>) returns (cuts: seq<nat>)
    requires SpansIn(m, s) && to != [] && IsRewriting(s, m, to[..|to| - 1], x, front)
    requires Shows(s, m, to[|to| - 1], y)
    ensures IsRewriting(s, m, to, x + y, cuts)
  {
    hide Shows, SpansIn;
    var n := |to| - 1;
    cuts := front + [|x + y|];
    forall k | 0 <= k < |to| ensures Shows(s, m, to[k], (x + y)[cuts[k]..cuts[k + 1]]) {
      if k < n {
        assert to[..n][k] == to[k];
        assert front[k + 1] <= front[n];
        assert (x + y)[cuts[k]..cuts[k + 1]] == x[front[k]..front[k + 1]];
      } else {
        assert (x + y)[|x|..|x + y|] == y;
      }
    }
  }

  // There is only one such text.
  lemma {:induction false} RewritingIsUnique(s: string, m: Match, to: seq<Piece>, x: string, xs: seq<nat>, y: string,
                                             ys: seq<nat>)
    requires SpansIn(m, s) && IsRewriting(s, m, to, x, xs) && IsRewriting(s, m, to, y, ys)
    ensures x == y && xs == ys
  {
    hide SpansIn, Shows;
    if to != [] {
      var n := |to| - 1;
      DropPiece(s, m, to, x, xs);
      DropPiece(s, m, to, y, ys);
      RewritingIsUnique(s, m, to[..n], x[..xs[n]], xs[..n + 1], y[..ys[n]], ys[..n + 1]);
      ShownIsUnique(s, m, to[n], x[xs[n]..xs[n + 1]], y[ys[n]..ys[n + 1]]);
      assert x == x[..xs[n]] + x[xs[n]..xs[n + 1]] && y == y[..ys[n]] + y[ys[n]..ys[n + 1]];
      assert xs == xs[..n + 1] + [|x|] && ys == ys[..n + 1] + [|y|];
    } else {
      assert xs == [0] && ys == [0];
    }
  }

  lemma DropPiece(s: string, m: Match, to: seq<Piece>, x: string, cuts: seq<nat>)
    requires SpansIn(m, s) && to != [] && IsRewriting(s, m, to, x, cuts)
    ensures var n := |to| - 1;
            cuts[n] <= |x| && IsRewriting(s, m, to[..n], x[..cuts[n]], cuts[..n + 1])
  {
    hide Shows, SpansIn;
    var n := |to| - 1;
    forall k | 0 <= k < n ensures Shows(s, m, to[..n][k], x[..cuts[n]][cuts[k]..cuts[k + 1]]) {
      assert cuts[k + 1] <= cuts[n];
      assert x[..cuts[n]][cuts[k]..cuts[k + 1]] == x[cuts[k]..cuts[k + 1]];
      assert to[..n][k] == to[k];
    }
  }

  lemma ShownIsUnique(s: string, m: Match, piece: Piece, x: string, y: string)
    requires SpansIn(m, s) && Shows(s, m, piece, x) && Shows(s, m, piece, y)
    ensures x == y
  {
  }

  // ----- the whole transform -----

  // The context with the delimiter at the position of the last transform, and the appended text.
  predicate IsAnnotated(str: string, context: string, transat: int, appended: string) {
    if transat <= 0 then str == context + appended
    else
      && transat < |str| && str[transat] == DELIMITER
      && str[..transat] + str[transat + 1..] == context + appended
  }

  // The first delimiter of `w`, if there is any, is missing in `v`.
  predicate FirstRemoved(w: string, v: string) {
    if NoDelimiter(w) then v == w
    else exists p :: 0 <= p < |w| && w[p] == DELIMITER && NoDelimiter(w[..p]) && v == w[..p] + w[p + 1..]
  }

  // Some rule matches from a place not inside the appended text.
  ghost predicate Fires(rules: seq<Rule>, str: string, appended: nat) {
    exists k, i: nat, j: nat :: 0 <= k < |rules| && i <= |str| - appended && M(AppendEnd(rules[k].from), str, i, j)
  }

  // `m` is a match of rule `k`, no rule matches further left, and no earlier one matches there.
  ghost predicate IsFirstMatch(rules: seq<Rule>, str: string, k: nat, m: Match)
    requires k < |rules|
  {
    var re := AppendEnd(rules[k].from);
    && IsMatch(re, str, m) && Preferred(re, str, m.start, m.end, 1, m.caps)
    && (forall q :: 0 <= q < |rules| ==> NoMatchBefore(AppendEnd(rules[q].from), str, m.start))
    && (forall q :: 0 <= q < k ==> !StartsAt(AppendEnd(rules[q].from), str, m.start))
  }

  // `v` is `str` with the match rewritten, and without its first delimiter.  A template with a group the rule does
  // not have leaves the match alone.
  ghost predicate IsTransformed(rule: Rule, str: string, m: Match, x: string, cuts: seq<nat>, v: string)
    requires SpansIn(m, str)
  {
    if RefsExist(AppendEnd(rule.from), rule.to) then
      IsRewriting(str, m, rule.to, x, cuts) && FirstRemoved(str[..m.start] + x + str[m.end..], v)
    else FirstRemoved(str, v)
  }

  lemma TransformByPosition(re2: Re2, rules: seq<Rule>, context: string, transat: int, appended: string)
    returns (str: string, k: nat, m: Match, x: string, cuts: seq<nat>)
    requires IsRe2(re2) && SmallEnough(rules) && transat <= |context|
    ensures IsAnnotated(str, context, transat, appended)
    ensures var t := Transform(re2, rules, context, transat, appended);
            && (t.Some? <==> Fires(rules, str, |appended|))
            && (t.Some? ==>
                  && k < |rules| && IsFirstMatch(rules, str, k, m)
                  && IsTransformed(rules[k], str, m, x, cuts, t.value))
  {
    hide AppendEnd, Merged, TransformText, RemoveFirst, IsRe2, Groups, Fires, M, MC, Preferred;
    str := Annotated(context, transat) + appended;
    k, m, x, cuts := 0, Match(0, 0, map[]), "", [];
    var t := TransformText(re2, rules, str, |appended|);
    FiresIff(re2, rules, str, |appended|);
    if t.Some? {
      k := TransformIsLeftmostRule(re2, rules, str, |appended|);
      m, x, cuts := FoundIsTransformed(re2, rules, str, k, |appended|);
    }
  }

  lemma FiresIff(re2: Re2, rules: seq<Rule>, str: string, appended: nat)
    requires IsRe2(re2) && SmallEnough(rules)
    ensures TransformText(re2, rules, str, appended).Some? <==> Fires(rules, str, appended)
  {
    hide AppendEnd, Merged, TransformText, RemoveFirst, Replace, Groups, Preferred, M, MC;
    var found := re2.search(Merged(rules), str);
    assert Finds(re2.search, Merged(rules), str);
    var first := TransformIsLeftmostRule(re2, rules, str, appended);
    if Fires(rules, str, appended) {
      var k, i: nat, j: nat :|
        0 <= k < |rules| && i <= |str| - appended && M(AppendEnd(rules[k].from), str, i, j);
      AlternativeMatches(rules, str, i, j, k);
      InsideText(Merged(rules), str);
    }
    if TransformText(re2, rules, str, appended).Some? {
      var start := found.value.start;
      assert StartsAt(AppendEnd(rules[first].from), str, start);
      var j: nat :| M(AppendEnd(rules[first].from), str, start, j);
    }
  }

  lemma InsideText(r: Re, s: string)
    ensures forall i: nat, j: nat :: M(r, s, i, j) ==> i < |s| + 1
  {
  }

  lemma FoundIsTransformed(re2: Re2, rules: seq<Rule>, str: string, k: nat, appended: nat)
    returns (m: Match, x: string, cuts: seq<nat>)
    requires IsRe2(re2) && k < |rules| && re2.search(Merged(rules), str).Some?
    requires var start := re2.search(Merged(rules), str).value.start;
             && (forall q :: 0 <= q < |rules| ==> NoMatchBefore(AppendEnd(rules[q].from), str, start))
             && StartsAt(AppendEnd(rules[k].from), str, start)
             && (forall q :: 0 <= q < k ==> !StartsAt(AppendEnd(rules[q].from), str, start))
    ensures IsFirstMatch(rules, str, k, m)
    ensures IsTransformed(rules[k], str, m, x, cuts,
            RemoveFirst(Replace(re2, AppendEnd(rules[k].from), str, rules[k].to), DELIMITER))
  {
    hide AppendEnd, Merged, RemoveFirst, M, MC, Preferred, FirstRemoved, IsRewriting, RefsExist;
    var start := re2.search(Merged(rules), str).value.start;
    var re := AppendEnd(rules[k].from);
    var j: nat :| M(re, str, start, j);
    LeftmostIs(re2, re, str, start, j);
    FoundSpans(re2, re, str);
    assert Finds(re2.search, re, str);
    m := re2.search(re, str).value;
    x := Rewrite(str, m, rules[k].to);
    cuts := RewritingIs(str, m, rules[k].to);
    RemoveFirstIs(Replace(re2, re, str, rules[k].to));
  }

  lemma {:induction false} RemoveFirstIs(w: string)
    ensures FirstRemoved(w, RemoveFirst(w, DELIMITER))
    decreases |w|
  {
    if w != "" {
      if w[0] == DELIMITER {
        assert w[..0] == "" && w[..0] + w[0 + 1..] == w[1..];
      } else {
        RemoveFirstIs(w[1..]);
        OneMoreInFront(w, RemoveFirst(w[1..], DELIMITER));
      }
    }
  }

  lemma OneMoreInFront(w: string, rest: string)
    requires w != "" && w[0] != DELIMITER && FirstRemoved(w[1..], rest)
    ensures FirstRemoved(w, [w[0]] + rest)
  {
    hide NoDelimiter;
    var c, tail := w[0], w[1..];
    assert w == [c] + tail;
    NoneInFront(c, tail);
    if !NoDelimiter(tail) {
      var p :| 0 <= p < |tail| && tail[p] == DELIMITER && NoDelimiter(tail[..p])
        && rest == tail[..p] + tail[p + 1..];
      NoneInFront(c, tail[..p]);
      RemovedAt(w, p + 1, [c] + tail[..p], tail[p + 1..], [c] + rest);
    }
  }

  lemma NoneInFront(c: char, s: string)
    requires c != DELIMITER
    ensures NoDelimiter([c] + s) <==> NoDelimiter(s)
  {
  }

  lemma RemovedAt(w: string, p: nat, front: string, back: string, v: string)
    requires p < |w| && w[p] == DELIMITER && NoDelimiter(front) && w[..p] == front && w[p + 1..] == back
    requires v == front + back && !NoDelimiter(w)
    ensures FirstRemoved(w, v)
  {
    hide NoDelimiter;
  }

  // ----- the rule that swaps two digits -----

  const DIGIT := Class([Raw('0'), Raw('-'), Raw('9')], c => '0' <= c <= '9')
  const TILDE := Chr(Literal('~'))
  const TWO_DIGITS := Cat(Group(Chr(DIGIT)), Group(Chr(DIGIT)))
  const SWAP := Rule(Cat(TWO_DIGITS, TILDE), [Ref(2), Ref(1)])

  lemma SwapMatches(s: string)
    requires s == "12~"
    ensures M(AppendEnd(SWAP.from), s, 0, 3)
  {
    assert M(Chr(DIGIT), s, 0, 1) && M(Chr(DIGIT), s, 1, 2) && M(TILDE, s, 2, 3) && M(End, s, 3, 3);
    assert M(Group(Chr(DIGIT)), s, 0, 1) && M(Group(Chr(DIGIT)), s, 1, 2);
    hide M;
    JoinCat(Group(Chr(DIGIT)), Group(Chr(DIGIT)), s, 0, 1, 2);
    JoinCat(TWO_DIGITS, TILDE, s, 0, 2, 3);
    JoinCat(SWAP.from, End, s, 0, 3, 3);
  }

  lemma SwapCaptures(s: string, m: Match)
    requires s == "12~" && IsMatch(AppendEnd(SWAP.from), s, m) && m.start == 0
    ensures m.end == 3 && 1 in m.caps && 2 in m.caps && m.caps[1] == (0, 1) && m.caps[2] == (1, 2)
  {
    hide SpansIn, MC, Groups;
    var k, c, none := SplitCaptures(SWAP.from, End, s, 0, m.end, 1, m.caps);
    var l, d, tilde := SplitCaptures(TWO_DIGITS, TILDE, s, 0, k, 1, c);
    var a, first, second := SplitCaptures(Group(Chr(DIGIT)), Group(Chr(DIGIT)), s, 0, l, 1, d);
    OneUnit(s, 0, a, 1, first);
    OneUnit(s, a, l, 2, second);
    NoUnit(s, l, k, m.end, tilde, none);
  }

  lemma OneUnit(s: string, i: nat, j: nat, g: nat, caps: Caps)
    requires MC(Group(Chr(DIGIT)), s, i, j, g, caps)
    ensures j == i + 1 && caps == map[g := (i, j)] && Groups(Group(Chr(DIGIT))) == 1
  {
    forall q | q in caps ensures q == g {
      assert q == g || q in caps - {g};
    }
  }

  lemma NoUnit(s: string, i: nat, j: nat, k: nat, tilde: Caps, none: Caps)
    requires MC(TILDE, s, i, j, 1 + Groups(TWO_DIGITS), tilde) && MC(End, s, j, k, 1 + Groups(SWAP.from), none)
    ensures tilde == map[] && none == map[] && k == |s|
  {
  }

  // Typing ~ behind 12 makes it 21.
  lemma SwapExample(re2: Re2)
    requires IsRe2(re2)
    ensures Transform(re2, [SWAP], "12", -1, "~") == Some("21")
  {
    hide IsRe2, Transform, M, MC, Preferred;
    SwapIsSmall();
    var str, k, m, x, cuts := TransformByPosition(re2, [SWAP], "12", -1, "~");
    assert str == "12~";
    SwapMatches(str);
    assert [SWAP][0] == SWAP;
    assert Fires([SWAP], str, 1);
    assert k == 0;
    SwapStarts(str, m);
    SwapCaptures(str, m);
    SwapWrites(str, m, x, cuts);
    assert str[..0] + "21" + str[3..] == "21";
  }

  lemma SwapIsSmall()
    ensures SmallEnough([SWAP]) && RefsExist(AppendEnd(SWAP.from), SWAP.to)
  {
    assert Groups(TWO_DIGITS) == 2;
    assert Merged([SWAP]) == Group(AppendEnd(SWAP.from));
    assert Groups(AppendEnd(SWAP.from)) == 2;
  }

  lemma SwapStarts(s: string, m: Match)
    requires s == "12~" && IsFirstMatch([SWAP], s, 0, m)
    ensures m.start == 0
  {
    hide M, MC, Preferred, SpansIn;
    SwapMatches(s);
    assert [SWAP][0] == SWAP;
    assert NoMatchBefore(AppendEnd([SWAP][0].from), s, m.start);
  }

  lemma SwapWrites(s: string, m: Match, x: string, cuts: seq<nat>)
    requires s == "12~" && SpansIn(m, s) && IsRewriting(s, m, SWAP.to, x, cuts)
    requires 1 in m.caps && 2 in m.caps && m.caps[1] == (0, 1) && m.caps[2] == (1, 2)
    ensures x == "21"
  {
    assert Shows(s, m, SWAP.to[0], x[cuts[0]..cuts[1]]) && Shows(s, m, SWAP.to[1], x[cuts[1]..cuts[2]]);
    assert x == x[cuts[0]..cuts[1]] + x[cuts[1]..cuts[2]];
    assert x[cuts[0]..cuts[1]] == [s[1]] && x[cuts[1]..cuts[2]] == [s[0]];
  }
}
