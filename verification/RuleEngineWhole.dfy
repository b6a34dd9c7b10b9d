/**
 Layouts with a rule of the form ^(.*)...: as everything begins a match of such a rule, everything is
 predicted, and the engine commits nothing by itself.
 */
module RuleEngineWhole {
  import opened Options
  import opened Regex
  import opened Captures
  import opened Prefixalize
  import opened RulesData
  import opened RulesTransform
  import opened RulesCommit
  import opened RuleEngine

  // ^(.*) and the rest.
  function Anything(rest: Re): Re {
    Cat(Begin, Cat(Group(Star(Dot)), rest))
  }

  predicate OneLine(s: string) {
    '\n' !in s
  }

  lemma {:induction false} DotsMatch(s: string, i: nat, j: nat)
    requires i <= j <= |s| && OneLine(s[i..j])
    ensures Iter(Dot, j - i, s, i, j)
    decreases j - i
  {
    if i < j {
      assert s[i] == s[i..j][0];
      assert s[i + 1..j] == s[i..j][1..];
      DotsMatch(s, i + 1, j);
      assert M(Dot, s, i, i + 1);
    }
  }

  // Every line begins a match.
  lemma EverythingBegins(rest: Re, s: string)
    requires Satisfiable(rest) && OneLine(s)
    ensures IsPrefixOfMatch(Anything(rest), s)
  {
    hide M, Satisfiable;
    var t := SomeMatch(rest, s);
    var w := s + t;
    assert w[0..|s|] == s;
    DotsMatch(w, 0, |s|);
    DotsAreCaptured(w, |s|);
    JoinCat(Group(Star(Dot)), rest, w, 0, |s|, |w|);
    assert M(Begin, w, 0, 0) by { AtBegin(w); }
    JoinCat(Begin, Cat(Group(Star(Dot)), rest), w, 0, 0, |w|);
    assert Matches(Anything(rest), s + t);
  }

  lemma AtBegin(s: string)
    ensures M(Begin, s, 0, 0)
  {
  }

  lemma DotsAreCaptured(s: string, n: nat)
    requires Iter(Dot, n, s, 0, n)
    ensures M(Group(Star(Dot)), s, 0, n)
  {
    assert n <= |s| by { IterGoesForward(Dot, n, s, 0, n); }
    assert M(Star(Dot), s, 0, n);
  }

  // One of the rules has that form.
  ghost predicate KeepsLines(rules: seq<Rule>) {
    exists k, rest :: 0 <= k < |rules| && rules[k].from == Anything(rest) && Satisfiable(rest)
  }

  lemma EverythingIsPredicted(rules: seq<Rule>, context: string, transat: int)
    requires NoBareDots(rules) && KeepsLines(rules)
    requires transat <= |context| && context != "" && OneLine(context)
    ensures Predicts(rules, context, transat)
  {
    hide Predicts, NoBareDots;
    var k, rest :| 0 <= k < |rules| && rules[k].from == Anything(rest) && Satisfiable(rest);
    var s := Annotated(context, transat);
    EverythingBegins(rest, s);
    var t :| Matches(Anything(rest), s + t);
    MatchIsPredicted(rules, context, transat, t, k, 0, |s + t|);
  }

  // ----- the engine -----

  ghost predicate KeepsWhole(layout: Layout) {
    layout.rules != [] && layout.prune.None? && NoBareDots(layout.rules) && KeepsLines(layout.rules)
  }

  // ----- texts of one line stay so -----

  predicate OneLineTemplate(to: seq<Piece>) {
    forall i :: 0 <= i < |to| ==> to[i].Text? ==> OneLine(to[i].s)
  }

  // No newline in the key maps and the templates.
  ghost predicate OneLineLayout(layout: Layout) {
    && (forall ev :: KeyText(layout, ev).Some? ==> OneLine(KeyText(layout, ev).value))
    && forall k :: 0 <= k < |layout.rules| ==> OneLineTemplate(layout.rules[k].to)
  }

  lemma {:induction false} RemoveKeepsLine(s: string, d: char)
    requires OneLine(s)
    ensures OneLine(RemoveFirst(s, d))
  {
    if s != "" && s[0] != d {
      RemoveKeepsLine(s[1..], d);
    }
  }

  lemma TransformKeepsLine(re2: Re2, rules: seq<Rule>, context: string, transat: int, key: string)
    requires IsRe2(re2) && rules != [] && transat <= |context| && OneLine(context) && OneLine(key)
    requires forall k :: 0 <= k < |rules| ==> OneLineTemplate(rules[k].to)
    ensures var text := Transform(re2, rules, context, transat, key); text.Some? ==> OneLine(text.value)
  {
    hide IsRe2, Merged, RuleMap, Groups, Replace, RemoveFirst;
    var str := Annotated(context, transat) + key;
    assert OneLine(str);
    var found := re2.search(Merged(rules), str);
    if found.Some? {
      var pos := FirstSet(found.value.caps, 1, Groups(Merged(rules)));
      if pos in RuleMap(rules, |rules|) {
        var k := RuleOfMap(rules, |rules|, pos);
        var re := AppendEnd(rules[k].from);
        assert OneLineTemplate(rules[k].to);
        ReplaceLacks('\n', re2, re, str, rules[k].to);
        RemoveKeepsLine(Replace(re2, re, str, rules[k].to), DELIMITER);
      }
    }
  }

  // One line in composition, and no snapshot.
  predicate HoldsLine(st: State) {
    OneLine(st.context) && st.historyAmbi == ""
  }

  // ----- nothing is committed -----

  // A key commits nothing but an empty text.
  lemma KeyCommitsNothing(re2: Re2, layout: Layout, st: State, key: string)
    requires IsRe2(re2) && KeepsWhole(layout) && OneLineLayout(layout) && Bounded(st) && HoldsLine(st) && OneLine(key)
    ensures var (now, r) := KeyStep(re2, layout, st, key);
            && HoldsLine(now) && r.commitText == "" && now.context == Advance(re2, layout, st, key).context
  {
    hide IsRe2, Transform, Predicts, NoBareDots, KeepsLines;
    var next := Advance(re2, layout, st, key);
    TransformKeepsLine(re2, layout.rules, st.context, st.transat, key);
    if next.context != "" {
      EverythingIsPredicted(layout.rules, next.context, next.transat);
    }
  }

  // A mapped key, or a Backspace that is not mapped.
  predicate IsEditing(layout: Layout, ev: Event) {
    KeyText(layout, ev).Some? || (ev.Key? && ev.modifiers < KEY_MAP_COUNT && ev.code == Backspace)
  }

  lemma EditCommitsNothing(re2: Re2, layout: Layout, st: State, ev: Event)
    requires IsRe2(re2) && KeepsWhole(layout) && OneLineLayout(layout) && Bounded(st) && HoldsLine(st)
             && IsEditing(layout, ev)
    ensures var (now, r) := Step(re2, layout, st, ev);
            && HoldsLine(now) && r.commitText == "" && now.context == Edited(re2, layout, st, ev)
  {
    hide IsRe2, KeyStep, Attempt, KeepsLines;
    var key := KeyText(layout, ev);
    if key.Some? {
      KeyCommitsNothing(re2, layout, st, key.value);
    }
  }

  // Over any run of mapped keys and Backspaces nothing is ever committed: all that was typed is still in composition.
  lemma {:induction false} NothingIsCommitted(re2: Re2, layout: Layout, events: seq<Event>)
    requires IsRe2(re2) && KeepsWhole(layout) && OneLineLayout(layout)
    requires forall ev :: ev in events ==> IsEditing(layout, ev)
    ensures Committed(re2, layout, INITIAL, events) == "" && HoldsLine(Run(re2, layout, INITIAL, events))
    ensures events != [] ==>
              var n := |events| - 1;
              Run(re2, layout, INITIAL, events).context
                == Edited(re2, layout, Run(re2, layout, INITIAL, events[..n]), events[n])
    decreases |events|
  {
    hide IsRe2, KeepsWhole, OneLineLayout, IsEditing, HoldsLine, Step, Edited;
    if events == [] {
      assert HoldsLine(INITIAL) by { EmptyIsLine(); }
    } else {
      var n := |events| - 1;
      NothingIsCommitted(re2, layout, events[..n]);
      assert events[n] in events;
      EditCommitsNothing(re2, layout, Run(re2, layout, INITIAL, events[..n]), events[n]);
    }
  }

  lemma EmptyIsLine()
    ensures HoldsLine(INITIAL)
  {
  }
}
