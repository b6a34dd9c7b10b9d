/**
 The delimiter stays inside Transform: one is put in, and whatever the rule does with it,
 removing the first one leaves none.
 */
module RulesDelimiter {
  import opened Options
  import opened Regex
  import opened Captures
  import opened RulesData
  import opened RulesTransform

  function Delimiters(s: string): nat {
    multiset(s)[DELIMITER]
  }

  lemma DelimitersAdd(a: string, b: string)
    ensures Delimiters(a + b) == Delimiters(a) + Delimiters(b)
  {
  }

  lemma NoneIsNone(s: string)
    ensures Delimiters(s) == 0 <==> NoDelimiter(s)
  {
  }

  // A span inside a span.
  lemma DelimitersInside(s: string, i: nat, x: nat, y: nat, j: nat)
    requires i <= x <= y <= j <= |s|
    ensures Delimiters(s[i..j]) == Delimiters(s[i..x]) + Delimiters(s[x..y]) + Delimiters(s[y..j])
  {
    assert s[i..j] == s[i..x] + s[x..y] + s[y..j];
    DelimitersAdd(s[i..x] + s[x..y], s[y..j]);
    DelimitersAdd(s[i..x], s[x..y]);
  }

  lemma InsertedIsOne(context: string, transat: int)
    requires transat <= |context| && NoDelimiter(context)
    ensures Delimiters(Annotated(context, transat)) <= 1
  {
    if transat > 0 {
      NoneIsNone(context[..transat]);
      NoneIsNone(context[transat..]);
      DelimitersAdd(context[..transat] + [DELIMITER], context[transat..]);
      DelimitersAdd(context[..transat], [DELIMITER]);
    } else {
      NoneIsNone(context);
    }
  }

  lemma {:induction false} RemoveFirstTakesOne(s: string)
    ensures Delimiters(RemoveFirst(s, DELIMITER)) == if Delimiters(s) == 0 then 0 else Delimiters(s) - 1
    decreases |s|
  {
    if s != "" {
      assert s == [s[0]] + s[1..];
      DelimitersAdd([s[0]], s[1..]);
      if s[0] == DELIMITER {
      } else {
        RemoveFirstTakesOne(s[1..]);
        DelimitersAdd([s[0]], RemoveFirst(s[1..], DELIMITER));
      }
    }
  }

  // ----- the rewritten text has no more delimiters than the match -----

  // Two references that never show the same character twice.
  predicate Disjoint(r: Re, p: nat, q: nat) {
    p > 0 && q > 0 && p != q && Siblings(r, 1, p, q)
  }

  // The text of the template has no delimiter, and its references are pairwise disjoint.
  ghost predicate CleanTemplate(rule: Rule) {
    && PlainTemplate(rule.to)
    && forall a, b :: 0 <= a < b < |rule.to| && rule.to[a].Ref? && rule.to[b].Ref?
                      ==> Disjoint(AppendEnd(rule.from), rule.to[a].n, rule.to[b].n)
  }

  ghost predicate CleanTemplates(rules: seq<Rule>) {
    forall k :: 0 <= k < |rules| ==> CleanTemplate(rules[k])
  }

  // A match as the search reports it.
  ghost predicate IsMatch(r: Re, s: string, m: Match) {
    SpansIn(m, s) && MC(r, s, m.start, m.end, 1, m.caps)
  }

  lemma GroupHasNoMore(r: Re, s: string, m: Match, n: nat)
    requires IsMatch(r, s, m)
    ensures Delimiters(GroupText(s, m, n)) <= Delimiters(s[m.start..m.end])
  {
    hide Delimiters, MC;
    NoneIsNone("");
    if n > 0 && n in m.caps {
      CapturesInRange(r, s, m.start, m.end, 1, m.caps);
      DelimitersInside(s, m.start, m.caps[n].0, m.caps[n].1, m.end);
    }
  }

  lemma DisjointGroupsHaveNoMore(r: Re, s: string, m: Match, p: nat, q: nat)
    requires IsMatch(r, s, m) && Disjoint(r, p, q)
    ensures Delimiters(GroupText(s, m, p)) + Delimiters(GroupText(s, m, q)) <= Delimiters(s[m.start..m.end])
  {
    hide Delimiters, MC, Siblings;
    NoneIsNone("");
    GroupHasNoMore(r, s, m, p);
    GroupHasNoMore(r, s, m, q);
    if p in m.caps && q in m.caps {
      CapturesInRange(r, s, m.start, m.end, 1, m.caps);
      SiblingsAreApart(r, s, m.start, m.end, 1, m.caps, p, q);
      var x, y := m.caps[p], m.caps[q];
      if x.1 <= y.0 {
        ApartSpans(s, m.start, x.0, x.1, y.0, y.1, m.end);
      } else {
        ApartSpans(s, m.start, y.0, y.1, x.0, x.1, m.end);
      }
    }
  }

  lemma ApartSpans(s: string, i: nat, a: nat, b: nat, c: nat, d: nat, j: nat)
    requires i <= a <= b <= c <= d <= j <= |s|
    ensures Delimiters(s[a..b]) + Delimiters(s[c..d]) <= Delimiters(s[i..j])
  {
    hide Delimiters;
    DelimitersInside(s, i, a, b, j);
    DelimitersInside(s, b, c, d, j);
  }

  // If there is a delimiter, exactly one reference shows it.
  ghost predicate ShownBy(s: string, m: Match, to: seq<Piece>)
    requires SpansIn(m, s)
  {
    exists a :: 0 <= a < |to| && to[a].Ref? && Delimiters(GroupText(s, m, to[a].n)) == 1
  }

  lemma {:induction false} RewriteHasNoMore(rule: Rule, s: string, m: Match, n: nat)
    requires IsMatch(AppendEnd(rule.from), s, m) && CleanTemplate(rule) && n <= |rule.to|
    requires Delimiters(s[m.start..m.end]) <= 1
    ensures Delimiters(Rewrite(s, m, rule.to[..n])) <= Delimiters(s[m.start..m.end])
    ensures Delimiters(Rewrite(s, m, rule.to[..n])) == 1 ==> ShownBy(s, m, rule.to[..n])
  {
    hide Delimiters, GroupText, Disjoint, AppendEnd, MC, PlainTemplate;
    NoneIsNone("");
    if n > 0 {
      RewriteHasNoMore(rule, s, m, n - 1);
      var to := rule.to[..n];
      assert to[..n - 1] == rule.to[..n - 1];
      var front := Rewrite(s, m, to[..n - 1]);
      match to[n - 1]
      case Text(t) =>
        PlainText(rule.to, n - 1);
        DelimitersAdd(front, t);
        StillShown(s, m, to, n - 1);
      case Ref(q) =>
        var shown := GroupText(s, m, q);
        DelimitersAdd(front, shown);
        GroupHasNoMore(AppendEnd(rule.from), s, m, q);
        StillShown(s, m, to, n - 1);
        if Delimiters(front) == 1 {
          var a :| 0 <= a < n - 1 && to[a].Ref? && Delimiters(GroupText(s, m, to[a].n)) == 1;
          assert rule.to[a] == to[a] && rule.to[n - 1] == to[n - 1];
          DisjointGroupsHaveNoMore(AppendEnd(rule.from), s, m, to[a].n, q);
        } else if Delimiters(shown) == 1 {
          assert to[n - 1].Ref? && Delimiters(GroupText(s, m, to[n - 1].n)) == 1;
        }
    }
  }

  lemma PlainText(to: seq<Piece>, i: nat)
    requires PlainTemplate(to) && i < |to| && to[i].Text?
    ensures Delimiters(to[i].s) == 0
  {
    NoneIsNone(to[i].s);
  }

  lemma StillShown(s: string, m: Match, to: seq<Piece>, n: nat)
    requires SpansIn(m, s) && n <= |to|
    ensures ShownBy(s, m, to[..n]) ==> ShownBy(s, m, to)
  {
    if ShownBy(s, m, to[..n]) {
      var a :| 0 <= a < n && to[..n][a].Ref? && Delimiters(GroupText(s, m, to[..n][a].n)) == 1;
      assert to[a].Ref? && Delimiters(GroupText(s, m, to[a].n)) == 1;
    }
  }

  lemma ReplaceHasNoMore(re2: Re2, rule: Rule, s: string)
    requires IsRe2(re2) && CleanTemplate(rule) && Delimiters(s) <= 1
    ensures Delimiters(Replace(re2, AppendEnd(rule.from), s, rule.to)) <= 1
  {
    hide Delimiters, Rewrite, AppendEnd, MC, CleanTemplate;
    var r := AppendEnd(rule.from);
    FoundSpans(re2, r, s);
    var found := re2.search(r, s);
    if found.Some? {
      var m := found.value;
      assert s[0..|s|] == s && s[0..m.start] == s[..m.start] && s[m.end..|s|] == s[m.end..];
      DelimitersInside(s, 0, m.start, m.end, |s|);
      RewriteHasNoMore(rule, s, m, |rule.to|);
      assert rule.to[..|rule.to|] == rule.to;
      DelimitersAdd(s[..m.start] + Rewrite(s, m, rule.to), s[m.end..]);
      DelimitersAdd(s[..m.start], Rewrite(s, m, rule.to));
    }
  }

  // Clean context and key, clean result.
  lemma DelimiterNeverLeaks(re2: Re2, rules: seq<Rule>, context: string, transat: int, appended: string)
    requires IsRe2(re2) && rules != [] && CleanTemplates(rules) && transat <= |context|
    requires NoDelimiter(context) && NoDelimiter(appended)
    ensures var t := Transform(re2, rules, context, transat, appended); t.Some? ==> NoDelimiter(t.value)
  {
    hide Delimiters, AppendEnd, Replace, RemoveFirst, CleanTemplate, Merged, RuleMap, NoDelimiter;
    var str := Annotated(context, transat) + appended;
    InsertedIsOne(context, transat);
    NoneIsNone(appended);
    DelimitersAdd(Annotated(context, transat), appended);
    var t := Transform(re2, rules, context, transat, appended);
    if t.Some? {
      var pos := FirstSet(re2.search(Merged(rules), str).value.caps, 1, Groups(Merged(rules)));
      var k := RuleOfMap(rules, |rules|, pos);
      var re := AppendEnd(rules[k].from);
      ReplaceHasNoMore(re2, rules[k], str);
      RemoveFirstTakesOne(Replace(re2, re, str, rules[k].to));
      NoneIsNone(t.value);
    }
  }

  // ----- and it is needed that references are disjoint -----

  function Typed(text: string): Re
    requires text != ""
    decreases |text|
  {
    var n := |text| - 1;
    if n == 0 then Chr(Literal(text[0])) else Cat(Typed(text[..n]), Chr(Literal(text[n])))
  }

  const LEAKY := Rule(Group(Typed(['a', DELIMITER, 'b'])), [Ref(1), Ref(1)])

  lemma {:induction false} TypedMatches(text: string, s: string, i: nat, j: nat)
    requires text != ""
    ensures M(Typed(text), s, i, j) <==> j == i + |text| && j <= |s| && s[i..j] == text
    ensures Groups(Typed(text)) == 0
    decreases |text|
  {
    hide M;
    var n := |text| - 1;
    var last := Literal(text[n]);
    assert text == text[..n] + [text[n]];
    if n == 0 {
      UnitMatches(last, s, i, j);
      if j == i + 1 && j <= |s| {
        assert s[i..j] == [s[i]];
      }
    } else {
      assert Typed(text) == Cat(Typed(text[..n]), Chr(last));
      TypedMatches(text[..n], s, i, i + n);
      if M(Typed(text), s, i, j) {
        var k := SplitCat(Typed(text[..n]), Chr(last), s, i, j);
        TypedMatches(text[..n], s, i, k);
        UnitMatches(last, s, k, j);
        assert s[i..j] == s[i..k] + [s[k]];
      }
      if j == i + |text| && j <= |s| && s[i..j] == text {
        assert s[i..j - 1] == s[i..j][..n] && s[j - 1] == s[i..j][n];
        UnitMatches(last, s, j - 1, j);
        JoinCat(Typed(text[..n]), Chr(last), s, i, j - 1, j);
      }
    }
  }

  lemma UnitMatches(u: Unit, s: string, i: nat, j: nat)
    ensures M(Chr(u), s, i, j) <==> j == i + 1 && j <= |s| && u.Accepts(s[i])
  {
  }

  // Shown twice, the delimiter survives.
  lemma RepeatedReferenceLeaks(re2: Re2)
    requires IsRe2(re2)
    ensures var t := Transform(re2, [LEAKY], "a", 1, "b"); t.Some? && !NoDelimiter(t.value)
  {
    hide Typed, Delimiters, Replace, RemoveFirst;
    var str := ['a', DELIMITER, 'b'];
    assert Annotated("a", 1) + "b" == str;
    var re := AppendEnd(LEAKY.from);
    assert re == Cat(Group(Typed(str)), End);
    TypedMatches(str, str, 0, 3);
    assert str[0..3] == str;
    assert M(Group(Typed(str)), str, 0, 3) && M(End, str, 3, 3);
    assert M(re, str, 0, 3);
    assert Merged([LEAKY]) == Group(re);
    assert Groups(re) == 1;
    assert Groups(Merged([LEAKY])) == 2;
    assert M(Merged([LEAKY]), str, 0, 3);
    LeftmostIs(re2, Merged([LEAKY]), str, 0, 3);
    LeftmostIs(re2, re, str, 0, 3);
    var k := TransformIsLeftmostRule(re2, [LEAKY], str, 1);
    LeakyReplace(re2, str);
    RemoveFirstTakesOne(Replace(re2, re, str, LEAKY.to));
    NoneIsNone(RemoveFirst(Replace(re2, re, str, LEAKY.to), DELIMITER));
  }

  lemma LeakyReplace(re2: Re2, str: string)
    requires IsRe2(re2) && str == ['a', DELIMITER, 'b']
    requires var m := re2.search(AppendEnd(LEAKY.from), str); m.Some? && m.value.start == 0
    ensures Delimiters(Replace(re2, AppendEnd(LEAKY.from), str, LEAKY.to)) == 2
  {
    hide Typed, MC, Rewrite;
    var re := AppendEnd(LEAKY.from);
    assert re == Cat(Group(Typed(str)), End);
    FoundSpans(re2, re, str);
    var m := re2.search(re, str).value;
    WholeGroup(Typed(str), str, m);
    assert str[0..3] == str;
    assert GroupText(str, m, 1) == str;
    assert RefsExist(re, LEAKY.to);
    ShownTwice(str, m);
    assert Replace(re2, re, str, LEAKY.to) == str[..0] + (str + str) + str[3..];
  }

  lemma ShownTwice(s: string, m: Match)
    requires SpansIn(m, s) && GroupText(s, m, 1) == s
    ensures Rewrite(s, m, LEAKY.to) == s + s
  {
    hide SpansIn, GroupText;
    var to := LEAKY.to;
    assert to[..1] == [Ref(1)] && to[..1][..0] == [];
    assert Rewrite(s, m, to[..1]) == "" + s;
    assert Rewrite(s, m, to) == Rewrite(s, m, to[..1]) + s;
  }

  lemma WholeGroup(r: Re, s: string, m: Match)
    requires IsMatch(Cat(Group(r), End), s, m)
    ensures m.end == |s| && 1 in m.caps && m.caps[1] == (m.start, |s|)
  {
    hide SpansIn, Groups;
    var k, c1, c2 := SplitCaptures(Group(r), End, s, m.start, m.end, 1, m.caps);
  }
}
