/**
 Transform: the rule that matched rewrites the text.
 */
module RulesTransform {
  import opened Options
  import opened Regex
  import opened Captures
  import opened Prefixalize
  import opened RulesData

  // ----- replacing -----

  predicate RefsExist(r: Re, to: seq<Piece>) {
    forall i :: 0 <= i < |to| ==> to[i].Ref? ==> to[i].n <= Groups(r)
  }

  predicate SpansIn(m: Match, s: string) {
    m.start <= m.end <= |s| && forall q :: q in m.caps ==> SpanEnd(m.caps[q]) <= |s|
  }

  function SpanEnd(x: Span): nat {
    x.1
  }

  // A group that took no part is empty; group 0 is the whole match.
  function GroupText(s: string, m: Match, n: nat): string
    requires SpansIn(m, s)
  {
    if n == 0 then s[m.start..m.end]
    else if n in m.caps then
      assert SpanEnd(m.caps[n]) <= |s|;
      s[m.caps[n].0..m.caps[n].1]
    else ""
  }

  function Rewrite(s: string, m: Match, to: seq<Piece>): string
    requires SpansIn(m, s)
  {
    if to == [] then ""
    else
      var n := |to| - 1;
      Rewrite(s, m, to[..n])
      + match to[n]
        case Text(t) => t
        case Ref(q) => GroupText(s, m, q)
  }

  lemma FoundSpans(re2: Re2, r: Re, s: string)
    requires IsRe2(re2)
    ensures var m := re2.search(r, s); m.Some? ==>
            SpansIn(m.value, s) && MC(r, s, m.value.start, m.value.end, 1, m.value.caps)
  {
    assert Finds(re2.search, r, s);
    var m := re2.search(r, s);
    if m.Some? {
      PreferredIsMatch(r, s, m.value.start, m.value.end, 1, m.value.caps);
      CapturesInRange(r, s, m.value.start, m.value.end, 1, m.value.caps);
    }
  }

  // A template with a missing group leaves the text alone.
  function ReplaceMatch(r: Re, s: string, m: Match, to: seq<Piece>): string
    requires SpansIn(m, s)
  {
    if RefsExist(r, to) then s[..m.start] + Rewrite(s, m, to) + s[m.end..] else s
  }

  // RE2::Replace: the first match, rewritten.
  function Replace(re2: Re2, r: Re, s: string, to: seq<Piece>): string
    requires IsRe2(re2)
  {
    FoundSpans(re2, r, s);
    match re2.search(r, s)
    case None => s
    case Some(m) => ReplaceMatch(r, s, m, to)
  }

  function RemoveFirst(s: string, d: char): string {
    if s == "" then ""
    else if s[0] == d then s[1..]
    else [s[0]] + RemoveFirst(s[1..], d)
  }

  // ----- Transform -----

  // The rewriting step, once the rule is known; None if the match starts inside the appended text.
  function ApplyRule(re2: Re2, rule: Rule, str: string, appended: nat): Option<string>
    requires IsRe2(re2)
  {
    var re := AppendEnd(rule.from);
    var m := re2.search(re, str);
    if m.Some? && m.value.start > |str| - appended then None
    else Some(RemoveFirst(Replace(re2, re, str, rule.to), DELIMITER))
  }

  function TransformText(re2: Re2, rules: seq<Rule>, str: string, appended: nat): Option<string>
    requires IsRe2(re2) && rules != []
  {
    match re2.search(Merged(rules), str)
    case None => None
    case Some(m) =>
      var pos := FirstSet(m.caps, 1, Groups(Merged(rules)));
      if pos !in RuleMap(rules, |rules|) then None
      else ApplyRule(re2, RuleMap(rules, |rules|)[pos], str, appended)
  }

  function Transform(re2: Re2, rules: seq<Rule>, context: string, transat: int, appended: string): Option<string>
    requires IsRe2(re2) && rules != [] && transat <= |context|
  {
    TransformText(re2, rules, Annotated(context, transat) + appended, |appended|)
  }

  // The statements of the source; `reMap` is what ParseTransforms returned.
  method TransformInPlace(re2: Re2, rules: seq<Rule>, reMap: map<nat, Rule>, context: string, transat: int,
                          appended: string)
    returns (done: bool, transformed: string)
    requires IsRe2(re2) && rules != [] && reMap == RuleMap(rules, |rules|) && transat <= |context|
    ensures (if done then Some(transformed) else None) == Transform(re2, rules, context, transat, appended)
  {
    hide Merged, RuleMap, Replace, RemoveFirst;
    done, transformed := false, "";
    var str := (if transat > 0 then context[..transat] + [DELIMITER] + context[transat..] else context) + appended;
    assert str == Annotated(context, transat) + appended;
    var merged := Merged(rules);
    var nmatch := Groups(merged);
    var matches := re2.search(merged, str);
    if matches.None? {
      return;
    }
    var pos := FindGroup(matches.value.caps, nmatch);
    if pos !in reMap {
      return;
    }
    var re := AppendEnd(reMap[pos].from);
    var again := re2.search(re, str);
    if again.Some? && again.value.start > |str| - |appended| {
      return;
    }
    str := Replace(re2, re, str, reMap[pos].to);
    str := RemoveFirst(str, DELIMITER);
    done, transformed := true, str;
  }

  // ----- templates -----

  predicate NoDelimiter(s: string) {
    DELIMITER !in s
  }

  predicate PlainTemplate(to: seq<Piece>) {
    forall i :: 0 <= i < |to| ==> to[i].Text? ==> NoDelimiter(to[i].s)
  }

  // ----- what Transform means -----

  ghost predicate SmallEnough(rules: seq<Rule>) {
    rules != [] && Groups(Merged(rules)) < UINT16
  }

  lemma {:induction false} AlternativeMatches(rules: seq<Rule>, s: string, i: nat, j: nat, k: nat)
    requires k < |rules| && M(AppendEnd(rules[k].from), s, i, j)
    ensures M(Merged(rules), s, i, j)
  {
    hide AppendEnd;
    assert M(Group(AppendEnd(rules[k].from)), s, i, j);
    if k > 0 {
      assert rules[1..][k - 1] == rules[k];
      AlternativeMatches(rules[1..], s, i, j, k - 1);
    }
  }

  lemma SomeAlternative(rules: seq<Rule>, s: string, i: nat, j: nat) returns (k: nat)
    requires rules != [] && M(Merged(rules), s, i, j)
    ensures k < |rules| && M(AppendEnd(rules[k].from), s, i, j)
  {
    hide AppendEnd, Merged;
    var caps := MatchCaptures(Merged(rules), s, i, j, 1);
    k := OneAlternative(rules, s, i, j, 1, caps);
    CapturedMatches(Group(AppendEnd(rules[k].from)), s, i, j, Key(rules, k), caps);
  }

  // A transform happens through the first of the rules that match at the leftmost place any rule matches,
  // and exactly when that place is not inside the appended text.
  lemma TransformIsLeftmostRule(re2: Re2, rules: seq<Rule>, str: string, appended: nat) returns (k: nat)
    requires IsRe2(re2) && SmallEnough(rules)
    ensures re2.search(Merged(rules), str).None? ==> TransformText(re2, rules, str, appended) == None
    ensures re2.search(Merged(rules), str).Some? ==>
              && k < |rules|
              && var start := re2.search(Merged(rules), str).value.start;
              && (forall q :: 0 <= q < |rules| ==> NoMatchBefore(AppendEnd(rules[q].from), str, start))
              && StartsAt(AppendEnd(rules[k].from), str, start)
              && (forall q :: 0 <= q < k ==> !StartsAt(AppendEnd(rules[q].from), str, start))
              && TransformText(re2, rules, str, appended)
                 == if start > |str| - appended then None
                    else Some(RemoveFirst(Replace(re2, AppendEnd(rules[k].from), str, rules[k].to), DELIMITER))
  {
    hide AppendEnd, Merged, RuleMap, Replace, RemoveFirst, Groups, FirstSet, Preferred, MC, M;
    k := 0;
    var found := re2.search(Merged(rules), str);
    assert Finds(re2.search, Merged(rules), str);
    if found.Some? {
      var m := found.value;
      k := FirstAlternative(rules, str, m.start, m.end, 1, m.caps);
      DispatchOf(rules, str, m.start, m.end, m.caps, k);
      var re := AppendEnd(rules[k].from);
      CapturedMatches(Group(re), str, m.start, m.end, Key(rules, k), m.caps);
      GroupMatches(re, str, m.start, m.end);
      forall q | 0 <= q < |rules| ensures NoMatchBefore(AppendEnd(rules[q].from), str, m.start) {
        RulesStartLater(rules, str, m.start, q);
      }
      LeftmostIs(re2, re, str, m.start, m.end);
    }
  }

  lemma GroupMatches(r: Re, s: string, i: nat, j: nat)
    ensures M(Group(r), s, i, j) <==> M(r, s, i, j)
  {
  }

  lemma RulesStartLater(rules: seq<Rule>, str: string, start: nat, q: nat)
    requires q < |rules| && NoMatchBefore(Merged(rules), str, start)
    ensures NoMatchBefore(AppendEnd(rules[q].from), str, start)
  {
    hide AppendEnd, Merged;
    forall i: nat, j: nat | i < start ensures !M(AppendEnd(rules[q].from), str, i, j) {
      if M(AppendEnd(rules[q].from), str, i, j) {
        AlternativeMatches(rules, str, i, j, q);
      }
    }
  }

  lemma LeftmostIs(re2: Re2, r: Re, s: string, start: nat, end: nat)
    requires IsRe2(re2) && M(r, s, start, end) && NoMatchBefore(r, s, start)
    ensures var m := re2.search(r, s); m.Some? && m.value.start == start
  {
    assert Finds(re2.search, r, s);
    var m := re2.search(r, s);
    if m.Some? {
      PreferredIsMatch(r, s, m.value.start, m.value.end, 1, m.value.caps);
      CapturedMatches(r, s, m.value.start, m.value.end, 1, m.value.caps);
    }
  }

  lemma {:induction false} RuleOfMap(rules: seq<Rule>, n: nat, pos: nat) returns (k: nat)
    requires n <= |rules| && pos in RuleMap(rules, n)
    ensures k < n && RuleMap(rules, n)[pos] == rules[k]
  {
    if pos == Key(rules, n - 1) % UINT16 {
      k := n - 1;
    } else {
      k := RuleOfMap(rules, n - 1, pos);
    }
  }
}
