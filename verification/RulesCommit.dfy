/**
 An early commit loses nothing: when nothing is predicted and no rule matches inside the context,
 later keys transform as if the context had been committed.  And only then.
 */
module RulesCommit {
  import opened Options
  import opened Regex
  import opened Captures
  import opened RulesData
  import opened RulesTransform

  lemma {:induction false} ShiftedScan(caps: Caps, d: nat, pos: nat, nmatch: nat)
    ensures FirstSet(ShiftCaps(caps, d), pos, nmatch) == FirstSet(caps, pos, nmatch)
    decreases nmatch - pos
  {
    if pos < nmatch && pos !in caps {
      ShiftedScan(caps, d, pos + 1, nmatch);
    }
  }

  lemma ShiftedGroup(p: string, s: string, m: Match, n: nat)
    requires SpansIn(m, s)
    ensures SpansIn(Shift(Some(m), |p|).value, p + s)
    ensures GroupText(p + s, Shift(Some(m), |p|).value, n) == GroupText(s, m, n)
  {
    var x := Shift(Some(m), |p|).value;
    forall q | q in x.caps ensures SpanEnd(x.caps[q]) <= |p + s| {
      assert SpanEnd(m.caps[q]) <= |s|;
    }
    if n in m.caps {
      assert SpanEnd(m.caps[n]) <= |s|;
      assert (p + s)[|p| + m.caps[n].0..|p| + m.caps[n].1] == s[m.caps[n].0..m.caps[n].1];
    }
    assert (p + s)[|p| + m.start..|p| + m.end] == s[m.start..m.end];
  }

  lemma {:induction false} ShiftedRewrite(p: string, s: string, m: Match, to: seq<Piece>)
    requires SpansIn(m, s)
    ensures SpansIn(Shift(Some(m), |p|).value, p + s)
    ensures Rewrite(p + s, Shift(Some(m), |p|).value, to) == Rewrite(s, m, to)
  {
    hide GroupText, Shift, SpansIn;
    ShiftedGroup(p, s, m, 0);
    if to != [] {
      var n := |to| - 1;
      ShiftedRewrite(p, s, m, to[..n]);
      match to[n]
      case Text(_) =>
      case Ref(q) => ShiftedGroup(p, s, m, q);
    }
  }

  lemma ShiftedMatch(p: string, s: string, r: Re, m: Match, to: seq<Piece>)
    requires SpansIn(m, s)
    ensures var x := Shift(Some(m), |p|).value;
            SpansIn(x, p + s) && ReplaceMatch(r, p + s, x, to) == p + ReplaceMatch(r, s, m, to)
  {
    hide Rewrite, RefsExist, SpansIn;
    ShiftedRewrite(p, s, m, to);
    SpansOrdered(s, m);
    var x := Shift(Some(m), |p|).value;
    SpansOrdered(p + s, x);
    assert (p + s)[..|p| + m.start] == p + s[..m.start];
    assert (p + s)[|p| + m.end..] == s[m.end..];
    assert p + s[..m.start] + Rewrite(s, m, to) + s[m.end..] == p + (s[..m.start] + Rewrite(s, m, to) + s[m.end..]);
  }

  lemma SpansOrdered(s: string, m: Match)
    requires SpansIn(m, s)
    ensures m.start <= m.end <= |s|
  {
  }

  lemma ShiftedReplace(re2: Re2, r: Re, p: string, s: string, to: seq<Piece>)
    requires IsRe2(re2) && BeginFree(r) && NoMatchBefore(r, p + s, |p|)
    ensures Replace(re2, r, p + s, to) == p + Replace(re2, r, s, to)
  {
    hide ReplaceMatch, SpansIn, MC;
    assert Forward(re2.search, r, p, s);
    FoundSpans(re2, r, s);
    var found := re2.search(r, s);
    if found.Some? {
      ShiftedMatch(p, s, r, found.value, to);
    }
  }

  lemma {:induction false} RemoveBehind(a: string, b: string, d: char)
    requires d !in a
    ensures RemoveFirst(a + b, d) == a + RemoveFirst(b, d)
    decreases |a|
  {
    if a == "" {
      assert a + b == b && a + RemoveFirst(b, d) == RemoveFirst(b, d);
    } else {
      assert a[0] in a;
      assert (a + b)[1..] == a[1..] + b;
      RemoveBehind(a[1..], b, d);
      assert a == [a[0]] + a[1..];
    }
  }

  lemma RemoveNothing(s: string, d: char)
    requires d !in s
    ensures RemoveFirst(s, d) == s
  {
    RemoveBehind(s, "", d);
    assert s + "" == s;
  }

  // The delimiter put into the context is the one that is taken out.
  lemma RemoveInserted(context: string, transat: int, rest: string)
    requires transat <= |context| && NoDelimiter(context) && NoDelimiter(rest)
    ensures RemoveFirst(Annotated(context, transat) + rest, DELIMITER) == context + rest
  {
    if transat > 0 {
      var front, back := context[..transat], context[transat..];
      assert context == front + back;
      assert Annotated(context, transat) + rest == front + ([DELIMITER] + back + rest);
      assert ([DELIMITER] + back + rest)[1..] == back + rest;
      RemoveBehind(front, [DELIMITER] + back + rest, DELIMITER);
      assert front + (back + rest) == context + rest;
    } else {
      RemoveNothing(context + rest, DELIMITER);
    }
  }

  // A character that is in neither text nor template is not in the rewritten text.
  lemma {:induction false} RewriteLacks(d: char, s: string, m: Match, to: seq<Piece>)
    requires SpansIn(m, s) && d !in s && forall i :: 0 <= i < |to| ==> to[i].Text? ==> d !in to[i].s
    ensures d !in Rewrite(s, m, to)
  {
    if to != [] {
      RewriteLacks(d, s, m, to[..|to| - 1]);
    }
  }

  lemma ReplaceLacks(d: char, re2: Re2, r: Re, s: string, to: seq<Piece>)
    requires IsRe2(re2) && d !in s && forall i :: 0 <= i < |to| ==> to[i].Text? ==> d !in to[i].s
    ensures d !in Replace(re2, r, s, to)
  {
    FoundSpans(re2, r, s);
    var found := re2.search(r, s);
    if found.Some? {
      RewriteLacks(d, s, found.value, to);
    }
  }

  lemma ApplyRuleBehind(re2: Re2, rule: Rule, context: string, transat: int, str: string, appended: nat)
    requires IsRe2(re2) && transat <= |context|
    requires NoDelimiter(context) && NoDelimiter(str) && PlainTemplate(rule.to) && BeginFree(AppendEnd(rule.from))
    requires var p := Annotated(context, transat); NoMatchBefore(AppendEnd(rule.from), p + str, |p|)
    ensures var alone := ApplyRule(re2, rule, str, appended);
            ApplyRule(re2, rule, Annotated(context, transat) + str, appended)
            == if alone.None? then None else Some(context + alone.value)
  {
    hide AppendEnd, RemoveFirst, Replace;
    var p := Annotated(context, transat);
    var re := AppendEnd(rule.from);
    assert Forward(re2.search, re, p, str);
    ShiftedReplace(re2, re, p, str, rule.to);
    var replaced := Replace(re2, re, str, rule.to);
    ReplaceLacks(DELIMITER, re2, re, str, rule.to);
    RemoveInserted(context, transat, replaced);
    RemoveNothing(replaced, DELIMITER);
  }

  ghost predicate PlainTemplates(rules: seq<Rule>) {
    forall k :: 0 <= k < |rules| ==> PlainTemplate(rules[k].to)
  }

  // No rule begins with `^`, so none depends on where the text begins.
  predicate AllFloating(rules: seq<Rule>) {
    forall k :: 0 <= k < |rules| ==> BeginFree(rules[k].from)
  }

  // What is assumed of the rules, and of a context for which nothing is predicted.
  ghost predicate Unpredicted(rules: seq<Rule>, context: string, transat: int) {
    && rules != [] && NoBareDots(rules) && AllFloating(rules) && PlainTemplates(rules)
    && transat <= |context| && NoDelimiter(context) && !Predicts(rules, context, transat)
  }

  // No rule matches in the annotated context as it is.
  ghost predicate Quiescent(rules: seq<Rule>, context: string, transat: int)
    requires rules != [] && transat <= |context|
  {
    var p := Annotated(context, transat);
    NoMatchBefore(Merged(rules), p, |p|)
  }

  ghost predicate MayCommit(rules: seq<Rule>, context: string, transat: int) {
    Unpredicted(rules, context, transat) && Quiescent(rules, context, transat)
  }

  lemma {:induction false} AppendedIsMatch(r: Re, s: string, i: nat, j: nat)
    requires M(AppendEnd(r), s, i, j)
    ensures M(r, s, i, j)
  {
    match r
    case Alt(a, b) =>
      if !M(a, s, i, j) {
        AppendedIsMatch(b, s, i, j);
      }
    case _ =>
      assert AppendEnd(r) == Cat(r, End);
      var k: nat :| i <= k <= j && M(r, s, i, k) && M(End, s, k, j);
  }

  // A match that ends inside `p` is one of an unanchored alternative, so it is a match of `p` already.
  lemma {:induction false} EndsInside(r: Re, p: string, s: string, i: nat, j: nat)
    requires M(AppendEnd(r), p + s, i, j) && j < |p|
    ensures M(AppendEnd(r), p, i, j)
  {
    match r
    case Alt(a, b) =>
      if M(a, p + s, i, j) {
        Truncate(a, p + s, i, j, |p|);
        assert (p + s)[..|p|] == p;
      } else {
        EndsInside(b, p, s, i, j);
      }
    case _ =>
  }

  lemma RuleStartsOutside(rules: seq<Rule>, context: string, transat: int, str: string, k: nat, i: nat, j: nat)
    requires MayCommit(rules, context, transat) && k < |rules| && i < |Annotated(context, transat)|
    ensures !M(AppendEnd(rules[k].from), Annotated(context, transat) + str, i, j)
  {
    hide AppendEnd, Merged, Predicts, Annotated;
    var p := Annotated(context, transat);
    if M(AppendEnd(rules[k].from), p + str, i, j) {
      AppendedIsMatch(rules[k].from, p + str, i, j);
      if j >= |p| {
        NoFutureMatch(rules, context, transat, str, k, i, j);
      } else {
        EndsInside(rules[k].from, p, str, i, j);
        AlternativeMatches(rules, p, i, j, k);
      }
    }
  }

  // No rule matches from inside the annotated context, whatever is typed.
  lemma NothingStartsInside(rules: seq<Rule>, context: string, transat: int, str: string)
    requires MayCommit(rules, context, transat)
    ensures var p := Annotated(context, transat);
            NoMatchBefore(Merged(rules), p + str, |p|)
            && forall k :: 0 <= k < |rules| ==> NoMatchBefore(AppendEnd(rules[k].from), p + str, |p|)
  {
    hide AppendEnd, Merged, Predicts, MayCommit, Annotated;
    MayCommitMeans(rules, context, transat);
    var p := Annotated(context, transat);
    forall k, i: nat, j: nat | 0 <= k < |rules| && i < |p| ensures !M(AppendEnd(rules[k].from), p + str, i, j) {
      RuleStartsOutside(rules, context, transat, str, k, i, j);
    }
    forall i: nat, j: nat | i < |p| ensures !M(Merged(rules), p + str, i, j) {
      if M(Merged(rules), p + str, i, j) {
        var k := SomeAlternative(rules, p + str, i, j);
      }
    }
  }

  lemma {:induction false} AppendEndIsBeginFree(r: Re)
    requires BeginFree(r)
    ensures BeginFree(AppendEnd(r))
  {
    match r
    case Alt(a, b) => AppendEndIsBeginFree(b);
    case _ =>
  }

  lemma {:induction false} MergedIsBeginFree(rules: seq<Rule>)
    requires rules != [] && AllFloating(rules)
    ensures BeginFree(Merged(rules))
  {
    AppendEndIsBeginFree(rules[0].from);
    if |rules| > 1 {
      MergedIsBeginFree(rules[1..]);
    }
  }

  lemma TransformBehind(re2: Re2, rules: seq<Rule>, context: string, transat: int, str: string, appended: nat)
    requires IsRe2(re2) && MayCommit(rules, context, transat) && NoDelimiter(str)
    ensures var alone := TransformText(re2, rules, str, appended);
            TransformText(re2, rules, Annotated(context, transat) + str, appended)
            == if alone.None? then None else Some(context + alone.value)
  {
    hide Merged, RuleMap, ApplyRule, Predicts, Groups, Annotated;
    var p := Annotated(context, transat);
    NothingStartsInside(rules, context, transat, str);
    MergedIsBeginFree(rules);
    assert Forward(re2.search, Merged(rules), p, str);
    var found := re2.search(Merged(rules), str);
    if found.Some? {
      ShiftedScan(found.value.caps, |p|, 1, Groups(Merged(rules)));
      var pos := FirstSet(found.value.caps, 1, Groups(Merged(rules)));
      if pos in RuleMap(rules, |rules|) {
        var k := RuleOfMap(rules, |rules|, pos);
        AppendEndIsBeginFree(rules[k].from);
        ApplyRuleBehind(re2, rules[k], context, transat, str, appended);
      }
    }
  }

  lemma AnnotatedGrows(context: string, transat: int, more: string)
    requires transat <= |context|
    ensures Annotated(context + more, transat) == Annotated(context, transat) + more
    ensures Annotated(more, -1) == more
  {
    if transat > 0 {
      var front, back := context[..transat], context[transat..];
      assert (context + more)[..transat] == front;
      assert (context + more)[transat..] == back + more;
      AssociateLast(front + [DELIMITER], back, more);
    }
  }

  lemma AssociateLast(a: string, b: string, c: string)
    ensures a + (b + c) == a + b + c
  {
  }

  // Once nothing is predicted, a key typed later, behind any untransformed text, transforms as if the
  // context had been committed.
  lemma EarlyCommitLosesNothing(re2: Re2, rules: seq<Rule>, context: string, transat: int, typed: string, key: string)
    requires IsRe2(re2) && MayCommit(rules, context, transat) && NoDelimiter(typed) && NoDelimiter(key)
    ensures var alone := Transform(re2, rules, typed, -1, key);
            Transform(re2, rules, context + typed, transat, key) == if alone.None? then None
              else Some(context + alone.value)
  {
    hide TransformText, MayCommit, Annotated;
    assert transat <= |context| by { MayCommitMeans(rules, context, transat); }
    AnnotatedGrows(context, transat, typed);
    assert Annotated(context, transat) + typed + key == Annotated(context, transat) + (typed + key);
    TransformBehind(re2, rules, context, transat, typed + key, |key|);
  }

  lemma MayCommitMeans(rules: seq<Rule>, context: string, transat: int)
    requires MayCommit(rules, context, transat)
    ensures rules != [] && transat <= |context|
  {
  }

  // A transform: the number of the key it comes with, and the text it gives.
  type First = Option<(nat, string)>

  // Seen from one key earlier.
  function Later(f: First): First {
    if f.None? then None else Some((f.value.0 + 1, f.value.1))
  }

  // Behind a text that stays.
  function Behind(context: string, f: First): First {
    if f.None? then None else Some((f.value.0, context + f.value.1))
  }

  // Which of the keys is the first to transform, and into what.
  function FirstTransform(re2: Re2, rules: seq<Rule>, context: string, transat: int, keys: seq<string>): First
    requires IsRe2(re2) && rules != [] && transat <= |context|
    decreases |keys|
  {
    if keys == [] then None
    else
      var now := Transform(re2, rules, context, transat, keys[0]);
      if now.Some? then Some((0, now.value))
      else Later(FirstTransform(re2, rules, context + keys[0], transat, keys[1..]))
  }

  // The same over any number of keys: the next transform happens at the same key and gives the same text.
  lemma {:induction false} CommittedRunsAlike(re2: Re2, rules: seq<Rule>, context: string, transat: int,
                                              typed: string, keys: seq<string>)
    requires IsRe2(re2) && MayCommit(rules, context, transat) && NoDelimiter(typed)
    requires forall i :: 0 <= i < |keys| ==> NoDelimiter(keys[i])
    ensures FirstTransform(re2, rules, context + typed, transat, keys)
            == Behind(context, FirstTransform(re2, rules, typed, -1, keys))
    decreases |keys|
  {
    hide Transform, MayCommit;
    MayCommitMeans(rules, context, transat);
    if keys != [] {
      EarlyCommitLosesNothing(re2, rules, context, transat, typed, keys[0]);
      assert context + typed + keys[0] == context + (typed + keys[0]);
      CommittedRunsAlike(re2, rules, context, transat, typed + keys[0], keys[1..]);
    }
  }

  // ----- exactly when -----

  // Committing changes nothing that any later key does.
  ghost predicate CommitIsHarmless(re2: Re2, rules: seq<Rule>, context: string, transat: int)
    requires IsRe2(re2) && rules != [] && transat <= |context|
  {
    forall typed, key :: NoDelimiter(typed) && NoDelimiter(key) ==> SameBehind(re2, rules, context, transat, typed, key)
  }

  ghost predicate SameBehind(re2: Re2, rules: seq<Rule>, context: string, transat: int, typed: string, key: string)
    requires IsRe2(re2) && rules != [] && transat <= |context|
  {
    var alone := Transform(re2, rules, typed, -1, key);
    Transform(re2, rules, context + typed, transat, key) == if alone.None? then None else Some(context + alone.value)
  }

  ghost predicate NoRuleMatchesNothing(rules: seq<Rule>) {
    forall k :: 0 <= k < |rules| ==> !M(rules[k].from, "", 0, 0)
  }

  // When nothing is predicted, committing is harmless exactly if no rule matches in the context already.
  lemma CommitIsHarmlessIff(re2: Re2, rules: seq<Rule>, context: string, transat: int)
    requires IsRe2(re2) && Unpredicted(rules, context, transat) && SmallEnough(rules) && NoRuleMatchesNothing(rules)
    ensures CommitIsHarmless(re2, rules, context, transat) <==> Quiescent(rules, context, transat)
  {
    hide Unpredicted, Transform, IsRe2, Quiescent, SameBehind, NoRuleMatchesNothing, Groups, Merged;
    UnpredictedMeans(rules, context, transat);
    if Quiescent(rules, context, transat) {
      forall typed, key | NoDelimiter(typed) && NoDelimiter(key)
        ensures SameBehind(re2, rules, context, transat, typed, key) {
        EarlyCommitLosesNothing(re2, rules, context, transat, typed, key);
        SameBehindMeans(re2, rules, context, transat, typed, key);
      }
    }
    if CommitIsHarmless(re2, rules, context, transat) {
      assert SameBehind(re2, rules, context, transat, "", "");
      HarmlessIsQuiescent(re2, rules, context, transat);
    }
  }

  lemma SameBehindMeans(re2: Re2, rules: seq<Rule>, context: string, transat: int, typed: string, key: string)
    requires IsRe2(re2) && rules != [] && transat <= |context|
    ensures SameBehind(re2, rules, context, transat, typed, key) <==>
              var alone := Transform(re2, rules, typed, -1, key);
              Transform(re2, rules, context + typed, transat, key) == if alone.None? then None
                else Some(context + alone.value)
  {
  }

  lemma UnpredictedMeans(rules: seq<Rule>, context: string, transat: int)
    requires Unpredicted(rules, context, transat)
    ensures rules != [] && transat <= |context|
  {
  }

  // With nothing typed, a match inside the context would transform, and an empty text does not.
  lemma HarmlessIsQuiescent(re2: Re2, rules: seq<Rule>, context: string, transat: int)
    requires IsRe2(re2) && SmallEnough(rules) && NoRuleMatchesNothing(rules) && transat <= |context|
    requires SameBehind(re2, rules, context, transat, "", "")
    ensures Quiescent(rules, context, transat)
  {
    hide IsRe2, TransformText, Merged, Groups, NoRuleMatchesNothing, Annotated;
    var p := Annotated(context, transat);
    SameBehindMeans(re2, rules, context, transat, "", "");
    AnnotatedGrows(context, transat, "");
    assert context + "" == context && p + "" == p && Annotated("", -1) + "" == "";
    NothingInNothing(re2, rules);
    var k := TransformIsLeftmostRule(re2, rules, p, 0);
    SearchMisses(re2, Merged(rules), p);
  }

  lemma SearchMisses(re2: Re2, r: Re, s: string)
    requires IsRe2(re2)
    ensures re2.search(r, s).None? ==> NoMatchBefore(r, s, |s|)
    ensures re2.search(r, s).Some? ==> re2.search(r, s).value.start <= |s|
  {
    assert Finds(re2.search, r, s);
    var m := re2.search(r, s);
    if m.Some? {
      FoundSpans(re2, r, s);
    }
  }

  lemma NothingInNothing(re2: Re2, rules: seq<Rule>)
    requires IsRe2(re2) && SmallEnough(rules) && NoRuleMatchesNothing(rules)
    ensures TransformText(re2, rules, "", 0) == None
  {
    hide Merged, Groups, TransformText, NoRuleMatchesNothing;
    var k := TransformIsLeftmostRule(re2, rules, "", 0);
    if re2.search(Merged(rules), "").Some? {
      var start := re2.search(Merged(rules), "").value.start;
      var j: nat :| M(AppendEnd(rules[k].from), "", start, j);
      AppendedIsMatch(rules[k].from, "", start, j);
      MatchIsInside(rules[k].from, "", start, j);
      MatchesSomething(rules, k);
    }
  }

  lemma MatchesSomething(rules: seq<Rule>, k: nat)
    requires NoRuleMatchesNothing(rules) && k < |rules|
    ensures !M(rules[k].from, "", 0, 0)
  {
  }

  // ----- rules without a top-level alternative -----

  // Then every rule is anchored at the end of the text.
  predicate AllAnchored(rules: seq<Rule>) {
    forall k :: 0 <= k < |rules| ==> !rules[k].from.Alt?
  }

  // Anchored rules that are not predicted do not match either.
  lemma AnchoredIsQuiescent(rules: seq<Rule>, context: string, transat: int)
    requires Unpredicted(rules, context, transat) && AllAnchored(rules)
    ensures MayCommit(rules, context, transat)
  {
    hide Merged, AppendEnd, Predicts;
    var p := Annotated(context, transat);
    assert p + "" == p;
    forall i: nat, j: nat | i < |p| ensures !M(Merged(rules), p, i, j) {
      if M(Merged(rules), p, i, j) {
        var k := SomeAlternative(rules, p, i, j);
        AnchoredEndsAtEnd(rules[k].from, p, i, j);
        NoFutureMatch(rules, context, transat, "", k, i, |p|);
      }
    }
  }

  lemma AnchoredEndsAtEnd(r: Re, s: string, i: nat, j: nat)
    requires !r.Alt? && M(AppendEnd(r), s, i, j)
    ensures j == |s| && M(r, s, i, |s|)
  {
    assert AppendEnd(r) == Cat(r, End);
    var k: nat :| i <= k <= j && M(r, s, i, k) && M(End, s, k, j);
  }

  // The $ of the source anchors only the second alternative.
  const UNANCHORED := Rule(Alt(Chr(Literal('a')), Chr(Literal('b'))), [Ref(0)])

  // Nothing is predicted behind a transformed 'a', and yet the next key would transform again if 'a' had not been
  // committed.
  lemma UnanchoredCommitDiffers(re2: Re2)
    requires IsRe2(re2)
    ensures var rules := [UNANCHORED];
            && AllPredictable(rules) && AllFloating(rules) && PlainTemplates(rules) && !AllAnchored(rules)
                 && !Predicts(rules, "a", 1)
            && Transform(re2, rules, "", -1, "c") == None && Transform(re2, rules, "a", 1, "c").Some?
  {
    hide Predicts, Transform, IsRe2;
    var rules := [UNANCHORED];
    var a, b := Literal('a'), Literal('b');
    assert a.Accepts('a') && b.Accepts('b');
    assert AllPredictable(rules);
    NothingPredicted();
    NothingFound(re2);
    StillFound(re2);
    assert !AllAnchored(rules) by {
      assert rules[0].from.Alt?;
    }
  }

  lemma NothingPredicted()
    requires AllPredictable([UNANCHORED])
    ensures !Predicts([UNANCHORED], "a", 1)
  {
    var rules := [UNANCHORED];
    var s := Annotated("a", 1);
    PredictionIsExact(rules, "a", 1);
    assert s == ['a', DELIMITER];
    forall p | 0 <= p < |s| ensures !SomeRuleBegins(rules, s[p..]) {
      forall t ensures !Matches(UNANCHORED.from, s[p..] + t) {
        assert (s[p..] + t)[|s[p..]| - 1] == DELIMITER;
      }
      assert !IsPrefixOfMatch(rules[0].from, s[p..]);
    }
  }

  lemma NothingFound(re2: Re2)
    requires IsRe2(re2)
    ensures Transform(re2, [UNANCHORED], "", -1, "c") == None
  {
    hide TransformText;
    AnnotatedGrows("", -1, "");
    assert Annotated("", -1) + "c" == "c";
    var merged := Merged([UNANCHORED]);
    var k := TransformIsLeftmostRule(re2, [UNANCHORED], "c", 1);
    assert Finds(re2.search, merged, "c");
    var found := re2.search(merged, "c");
    if found.Some? {
      CapturedMatches(merged, "c", found.value.start, found.value.end, 1, found.value.caps);
      OnlyAOrB("c", found.value.start, found.value.end);
    }
  }

  lemma OnlyAOrB(s: string, i: nat, j: nat)
    requires M(Merged([UNANCHORED]), s, i, j)
    ensures i < |s| && (s[i] == 'a' || s[i] == 'b')
  {
    var end := Cat(Chr(Literal('b')), End);
    assert Merged([UNANCHORED]) == Group(Alt(Chr(Literal('a')), end));
    assert M(Alt(Chr(Literal('a')), end), s, i, j);
    if !M(Chr(Literal('a')), s, i, j) {
      var k: nat :| i <= k <= j && M(Chr(Literal('b')), s, i, k) && M(End, s, k, j);
    }
  }

  lemma StillFound(re2: Re2)
    requires IsRe2(re2)
    ensures Transform(re2, [UNANCHORED], "a", 1, "c").Some?
  {
    hide TransformText;
    var str := ['a', DELIMITER, 'c'];
    assert Annotated("a", 1) + "c" == str;
    var merged := Merged([UNANCHORED]);
    assert M(Chr(Literal('a')), str, 0, 1);
    assert M(AppendEnd(UNANCHORED.from), str, 0, 1);
    AlternativeMatches([UNANCHORED], str, 0, 1, 0);
    LeftmostIs(re2, merged, str, 0, 1);
    var k := TransformIsLeftmostRule(re2, [UNANCHORED], str, 1);
  }

  // ----- a rule that begins with `^` -----

  const OPENING := Rule(Cat(Begin, Chr(Literal('b'))), [Text("X")])

  // Nothing is predicted behind an 'a', and nothing matches in it; but only if the 'a' is committed, the next 'b'
  // stands at the beginning and is transformed.
  lemma AnchoredAtTheBeginningDiffers(re2: Re2)
    requires IsRe2(re2)
    ensures var rules := [OPENING];
            && AllPredictable(rules) && PlainTemplates(rules) && AllAnchored(rules) && !Predicts(rules, "a", -1)
            && Quiescent(rules, "a", -1)
            && Transform(re2, rules, "", -1, "b").Some? && Transform(re2, rules, "a", -1, "b") == None
  {
    hide Predicts, Transform, IsRe2, Quiescent;
    var b := Literal('b');
    assert b.Accepts('b');
    assert AllPredictable([OPENING]);
    OpeningIsNotPredicted();
    OpeningFound(re2);
    OpeningMissed(re2);
  }

  lemma OpeningMatches(s: string, i: nat, j: nat)
    ensures M(Merged([OPENING]), s, i, j) <==> i == 0 && j == |s| == 1 && s[0] == 'b'
    ensures M(OPENING.from, s, i, j) ==> i == 0 && |s| > 0 && s[0] == 'b'
  {
    hide M;
    var rule := OPENING.from;
    assert Merged([OPENING]) == Group(Cat(rule, End));
    GroupMatches(Cat(rule, End), s, i, j);
    OpeningIs(s, i, j);
    if M(Cat(rule, End), s, i, j) {
      var k := SplitCat(rule, End, s, i, j);
      OpeningIs(s, i, k);
      AtEnd(s, k, j);
    }
    if i == 0 && j == |s| == 1 && s[0] == 'b' {
      OpeningIs(s, 0, 1);
      AtEnd(s, 1, 1);
      JoinCat(rule, End, s, 0, 1, 1);
    }
  }

  lemma OpeningIs(s: string, i: nat, j: nat)
    ensures M(OPENING.from, s, i, j) <==> i == 0 && j == 1 <= |s| && s[0] == 'b'
  {
    var b := Chr(Literal('b'));
    if M(OPENING.from, s, i, j) {
      var k := SplitCat(Begin, b, s, i, j);
    }
    if i == 0 && j == 1 <= |s| && s[0] == 'b' {
      JoinCat(Begin, b, s, 0, 0, 1);
    }
  }

  lemma AtEnd(s: string, i: nat, j: nat)
    ensures M(End, s, i, j) <==> i == j == |s|
  {
  }

  lemma OpeningIsNotPredicted()
    requires AllPredictable([OPENING])
    ensures !Predicts([OPENING], "a", -1) && Quiescent([OPENING], "a", -1)
  {
    hide Merged;
    var rules := [OPENING];
    PredictionIsExact(rules, "a", -1);
    assert "a"[0..] == "a";
    forall t ensures !Matches(OPENING.from, "a" + t) {
      OpeningMatches("a" + t, 0, |"a" + t|);
    }
    assert !IsPrefixOfMatch(rules[0].from, "a");
    forall i: nat, j: nat ensures !M(Merged(rules), "a", i, j) {
      OpeningMatches("a", i, j);
    }
  }

  lemma OpeningFound(re2: Re2)
    requires IsRe2(re2)
    ensures Transform(re2, [OPENING], "", -1, "b").Some?
  {
    hide TransformText, Merged;
    AnnotatedGrows("", -1, "");
    assert Annotated("", -1) + "b" == "b";
    OpeningMatches("b", 0, 1);
    LeftmostIs(re2, Merged([OPENING]), "b", 0, 1);
    OpeningIsSmall();
    var k := TransformIsLeftmostRule(re2, [OPENING], "b", 1);
  }

  lemma OpeningMissed(re2: Re2)
    requires IsRe2(re2)
    ensures Transform(re2, [OPENING], "a", -1, "b") == None
  {
    hide TransformText, Merged;
    assert Annotated("a", -1) + "b" == "ab";
    OpeningIsSmall();
    var k := TransformIsLeftmostRule(re2, [OPENING], "ab", 1);
    FoundSpans(re2, Merged([OPENING]), "ab");
    var found := re2.search(Merged([OPENING]), "ab");
    if found.Some? {
      CapturedMatches(Merged([OPENING]), "ab", found.value.start, found.value.end, 1, found.value.caps);
      OpeningMatches("ab", found.value.start, found.value.end);
    }
  }

  lemma OpeningIsSmall()
    ensures SmallEnough([OPENING])
  {
    assert Groups(Merged([OPENING])) == 1;
  }
}
