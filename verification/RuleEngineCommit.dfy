/**
 Early commits of the engine.  Until the next transform, the engine that committed and the engine that
 did not differ only by the snapshot the latter still has: exactly when that matters, and an example.
 */
module RuleEngineCommit {
  import opened Options
  import opened Regex
  import opened Captures
  import opened Prefixalize
  import opened RulesData
  import opened RulesTransform
  import opened RulesCommit
  import opened RulesDelimiter
  import opened RuleEngine

  // The first transform of an engine that commits nothing: snapshot first, then the context, as the engine tries them.
  ghost function FirstAttempt(re2: Re2, layout: Layout, st: State, keys: seq<string>): First
    requires IsRe2(re2) && layout.rules != [] && Bounded(st)
    decreases |keys|
  {
    if keys == [] then None
    else
      var now := Attempt(re2, layout, st, keys[0]);
      if now.Some? then Some((0, now.value))
      else Later(FirstAttempt(re2, layout, Advance(re2, layout, st, keys[0]), keys[1..]))
  }

  // The first transform through a snapshot, as long as that is kept.
  ghost function SnapshotFires(re2: Re2, layout: Layout, context: string, transat: int, ambi: string,
                               keys: seq<string>): First
    requires IsRe2(re2) && layout.rules != [] && transat <= |context|
    decreases |keys|
  {
    if keys == [] || ambi == "" then None
    else
      var now := Transform(re2, layout.rules, context, transat, ambi + keys[0]);
      if now.Some? then Some((0, now.value))
      else if Prunes(re2, layout, ambi + keys[0]) then
        Later(SnapshotFires(re2, layout, context, transat, ambi + keys[0], keys[1..]))
      else None
  }

  // The first of two; at the same key, `a`.
  function Earlier(a: First, b: First): First {
    if a.None? then b
    else if b.None? || a.value.0 <= b.value.0 then a else b
  }

  // ----- a snapshot of the running text is redundant -----

  // With less of the text counted as appended, the same transform is still allowed.
  lemma ShorterAppended(re2: Re2, rules: seq<Rule>, str: string, n: nat, m: nat)
    requires IsRe2(re2) && rules != [] && m <= n
    ensures TransformText(re2, rules, str, n).Some? ==>
            TransformText(re2, rules, str, m) == TransformText(re2, rules, str, n)
  {
    hide Replace, RemoveFirst, IsRe2;
  }

  lemma SnapshotAgrees(re2: Re2, rules: seq<Rule>, context: string, transat: int, ambi: string, key: string)
    requires IsRe2(re2) && rules != [] && transat <= |context|
    ensures Transform(re2, rules, context, transat, ambi + key).Some? ==>
              Transform(re2, rules, context + ambi, transat, key) == Transform(re2, rules, context, transat, ambi + key)
  {
    hide TransformText, IsRe2, Annotated;
    AnnotatedGrows(context, transat, ambi);
    assert Annotated(context, transat) + ambi + key == Annotated(context, transat) + (ambi + key);
    ShorterAppended(re2, rules, Annotated(context, transat) + (ambi + key), |ambi + key|, |key|);
  }

  lemma {:induction false} RedundantFires(re2: Re2, layout: Layout, context: string, transat: int, ambi: string,
                                          keys: seq<string>)
    requires IsRe2(re2) && layout.rules != [] && transat <= |context|
    ensures var fires := SnapshotFires(re2, layout, context, transat, ambi, keys);
            var first := FirstTransform(re2, layout.rules, context + ambi, transat, keys);
            Earlier(fires, first) == first
    decreases |keys|
  {
    hide Transform, IsRe2, Prunes;
    if keys != [] && ambi != "" {
      SnapshotAgrees(re2, layout.rules, context, transat, ambi, keys[0]);
      assert context + ambi + keys[0] == context + (ambi + keys[0]);
      RedundantFires(re2, layout, context, transat, ambi + keys[0], keys[1..]);
    }
  }

  // Decomposition: the engine's next transform is the earlier of its snapshot's and its text's.
  lemma {:induction false} AttemptsSplit(re2: Re2, layout: Layout, st: State, keys: seq<string>)
    requires IsRe2(re2) && layout.rules != [] && Bounded(st)
    ensures FirstAttempt(re2, layout, st, keys)
            == Earlier(SnapshotFires(re2, layout, st.historyContext, st.historyTransat, st.historyAmbi, keys),
                       FirstTransform(re2, layout.rules, st.context, st.transat, keys))
    decreases |keys|
  {
    hide Transform, IsRe2, Prunes;
    if keys != [] {
      var key, rest := keys[0], keys[1..];
      var next := Advance(re2, layout, st, key);
      AttemptsSplit(re2, layout, next, rest);
      if Attempt(re2, layout, st, key).None? && !(st.historyAmbi != "" && Prunes(re2, layout, st.historyAmbi + key)) {
        if next.historyAmbi != "" {
          assert next.historyContext == st.context && next.historyAmbi == key && next.context == st.context + key;
          RedundantFires(re2, layout, st.context, st.transat, key, rest);
        }
      }
    }
  }

  // ----- exactly when a commit loses nothing -----

  // The first commit test fires, and no rule matches in the text as it is.
  ghost predicate CommitsQuietly(layout: Layout, st: State)
    requires Bounded(st) && layout.rules != []
  {
    !Predicts(layout.rules, st.context, st.transat) && Quiescent(layout.rules, st.context, st.transat)
  }

  predicate CleanKeys(keys: seq<string>) {
    forall i :: 0 <= i < |keys| ==> NoDelimiter(keys[i])
  }

  // The engine that committed makes the next transform at the same key, into the same text.
  ghost predicate SameNext(re2: Re2, layout: Layout, st: State, keys: seq<string>)
    requires IsRe2(re2) && layout.rules != [] && Bounded(st)
  {
    FirstAttempt(re2, layout, st, keys) == Behind(st.context, FirstAttempt(re2, layout, INITIAL, keys))
  }

  // Whatever is typed later, over any number of keys, committing `st` changes nothing.
  ghost predicate CommitIsLossless(re2: Re2, layout: Layout, st: State)
    requires IsRe2(re2) && layout.rules != [] && Bounded(st)
  {
    forall keys :: CleanKeys(keys) ==> SameNext(re2, layout, st, keys)
  }

  // With the text `t` the snapshot makes nothing, or what `t` alone becomes, behind the context.
  ghost predicate AddsNothing(re2: Re2, rules: seq<Rule>, st: State, t: string)
    requires IsRe2(re2) && rules != [] && Bounded(st)
  {
    var older := Transform(re2, rules, st.historyContext, st.historyTransat, st.historyAmbi + t);
    var alone := Transform(re2, rules, "", -1, t);
    older.None? || (alone.Some? && older == Some(st.context + alone.value))
  }

  // So it is for every text: a condition on single transforms, without runs and without the prune pattern.
  ghost predicate SnapshotAddsNothing(re2: Re2, rules: seq<Rule>, st: State)
    requires IsRe2(re2) && rules != [] && Bounded(st)
  {
    st.historyAmbi == "" || forall t :: NoDelimiter(t) ==> AddsNothing(re2, rules, st, t)
  }

  // A commit by the first test loses nothing exactly if the snapshot adds nothing.
  lemma EngineCommitIsLosslessIff(re2: Re2, layout: Layout, st: State, key: string)
    requires IsRe2(re2) && Bounded(st) && CleanLayout(layout) && CleanState(st) && NoDelimiter(key)
    requires layout.rules != [] && NoBareDots(layout.rules) && AllFloating(layout.rules)
    ensures var next := Advance(re2, layout, st, key);
            CommitsQuietly(layout, next) ==>
              && KeyStep(re2, layout, st, key) == (INITIAL, Result(true, next.context, ""))
              && (CommitIsLossless(re2, layout, next) <==> SnapshotAddsNothing(re2, layout.rules, next))
  {
    hide IsRe2, Quiescent, Predicts, NoBareDots, AllFloating, Attempt, Prunes, SameNext, AddsNothing, CleanLayout,
         CleanState;
    var next := Advance(re2, layout, st, key);
    NextIsClean(re2, layout, st, key);
    if CommitsQuietly(layout, next) {
      if CommitIsLossless(re2, layout, next) {
        forall t | next.historyAmbi != "" && NoDelimiter(t) ensures AddsNothing(re2, layout.rules, next, t) {
          assert CleanKeys([t]);
          assert SameNext(re2, layout, next, [t]);
          LosslessAddsNothing(re2, layout, next, t);
        }
      }
      if SnapshotAddsNothing(re2, layout.rules, next) {
        forall keys | CleanKeys(keys) ensures SameNext(re2, layout, next, keys) {
          NothingAddedIsLossless(re2, layout, next, keys);
        }
      }
    }
  }

  lemma NextIsClean(re2: Re2, layout: Layout, st: State, key: string)
    requires IsRe2(re2) && Bounded(st) && CleanLayout(layout) && CleanState(st) && NoDelimiter(key)
             && layout.rules != []
    ensures NoDelimiter(Advance(re2, layout, st, key).context) && PlainTemplates(layout.rules)
  {
    hide IsRe2, Prunes;
    AttemptIsClean(re2, layout, st, key);
    CleanIsPlain(layout.rules);
  }

  // One key is enough to tell.
  lemma LosslessAddsNothing(re2: Re2, layout: Layout, st: State, t: string)
    requires IsRe2(re2) && layout.rules != [] && Bounded(st) && st.historyAmbi != ""
    requires SameNext(re2, layout, st, [t])
    ensures AddsNothing(re2, layout.rules, st, t)
  {
    hide IsRe2, Transform, Prunes;
    assert FirstAttempt(re2, layout, Advance(re2, layout, st, t), [t][1..]) == None;
    assert FirstAttempt(re2, layout, Advance(re2, layout, INITIAL, t), [t][1..]) == None;
  }

  // The two engines differ by what the snapshot still makes of the keys.
  lemma CommitSplit(re2: Re2, layout: Layout, st: State, keys: seq<string>)
    requires IsRe2(re2) && layout.rules != [] && Bounded(st) && MayCommit(layout.rules, st.context, st.transat)
    requires CleanKeys(keys)
    ensures var again := Behind(st.context, FirstAttempt(re2, layout, INITIAL, keys));
            && again == Behind(st.context, FirstTransform(re2, layout.rules, "", -1, keys))
            && FirstAttempt(re2, layout, st, keys)
               == Earlier(SnapshotFires(re2, layout, st.historyContext, st.historyTransat, st.historyAmbi, keys), again)
  {
    hide IsRe2, FirstTransform, MayCommit, FirstAttempt, SnapshotFires;
    CommittedRunsAlike(re2, layout.rules, st.context, st.transat, "", keys);
    assert st.context + "" == st.context;
    AttemptsSplit(re2, layout, st, keys);
    AttemptsSplit(re2, layout, INITIAL, keys);
    NoSnapshot(re2, layout, "", -1, keys);
  }

  lemma NoSnapshot(re2: Re2, layout: Layout, context: string, transat: int, keys: seq<string>)
    requires IsRe2(re2) && layout.rules != [] && transat <= |context|
    ensures SnapshotFires(re2, layout, context, transat, "", keys) == None
  {
  }

  lemma NothingAddedIsLossless(re2: Re2, layout: Layout, st: State, keys: seq<string>)
    requires IsRe2(re2) && layout.rules != [] && Bounded(st) && MayCommit(layout.rules, st.context, st.transat)
    requires SnapshotAddsNothing(re2, layout.rules, st) && CleanKeys(keys)
    ensures SameNext(re2, layout, st, keys)
  {
    hide IsRe2, MayCommit, FirstTransform, FirstAttempt, SnapshotFires, AddsNothing;
    CommitSplit(re2, layout, st, keys);
    if st.historyAmbi == "" {
      NoSnapshot(re2, layout, st.historyContext, st.historyTransat, keys);
    } else {
      assert st.historyAmbi + "" == st.historyAmbi;
      SnapshotComesSecond(re2, layout, st, "", keys);
    }
  }

  // When the snapshot transforms, the fresh engine has, or does the same.
  lemma {:induction false} SnapshotComesSecond(re2: Re2, layout: Layout, st: State, typed: string, keys: seq<string>)
    requires IsRe2(re2) && layout.rules != [] && Bounded(st) && st.historyAmbi != ""
    requires SnapshotAddsNothing(re2, layout.rules, st) && NoDelimiter(typed) && CleanKeys(keys)
    ensures var fires := SnapshotFires(re2, layout, st.historyContext, st.historyTransat, st.historyAmbi + typed, keys);
            var again := Behind(st.context, FirstTransform(re2, layout.rules, typed, -1, keys));
            Earlier(fires, again) == again
    decreases |keys|
  {
    hide IsRe2, Transform, Prunes;
    if keys != [] {
      var t := typed + keys[0];
      assert NoDelimiter(keys[0]) && AddsNothing(re2, layout.rules, st, t);
      assert st.historyAmbi + typed + keys[0] == st.historyAmbi + t;
      assert "" + typed == typed;
      SnapshotAgrees(re2, layout.rules, "", -1, typed, keys[0]);
      SnapshotComesSecond(re2, layout, st, t, keys[1..]);
    }
  }

  // ----- a guard that can be tested -----

  // In the text of the snapshot no rule match begins, or is predicted to begin, before the ambiguous part.
  ghost predicate SnapshotIsQuiet(rules: seq<Rule>, st: State)
    requires rules != [] && Bounded(st)
  {
    var a := Annotated(st.historyContext, st.historyTransat);
    var s := a + st.historyAmbi;
    && NoMatchBefore(Merged(rules), s, |a| + 1)
    && forall p :: 0 <= p <= |a| && p < |s| ==> !Matches(MergedPrefix(rules), s[p..])
  }

  // Then, and without a snapshot, the commit loses nothing.
  lemma EngineCommitLosesNothing(re2: Re2, layout: Layout, st: State, key: string)
    requires IsRe2(re2) && Bounded(st) && CleanLayout(layout) && CleanState(st) && NoDelimiter(key)
    requires layout.rules != [] && NoBareDots(layout.rules) && AllFloating(layout.rules)
    requires var next := Advance(re2, layout, st, key);
             next.historyAmbi == "" || (SmallEnough(layout.rules) && SnapshotIsQuiet(layout.rules, next))
    ensures var next := Advance(re2, layout, st, key);
            CommitsQuietly(layout, next) ==>
              KeyStep(re2, layout, st, key).0 == INITIAL && CommitIsLossless(re2, layout, next)
  {
    hide IsRe2, CommitIsLossless, NoBareDots, AllFloating, CleanLayout, CleanState, CommitsQuietly, Attempt, Prunes,
         KeyStep, SnapshotIsQuiet,
         Transform, Merged, Groups;
    var next := Advance(re2, layout, st, key);
    EngineCommitIsLosslessIff(re2, layout, st, key);
    forall t | next.historyAmbi != "" && NoDelimiter(t) ensures AddsNothing(re2, layout.rules, next, t) {
      SnapshotMisses(re2, layout.rules, next, t);
    }
  }

  // The snapshot transforms only if a match starts at or before the place where it was taken.
  lemma SnapshotMisses(re2: Re2, rules: seq<Rule>, st: State, t: string)
    requires IsRe2(re2) && SmallEnough(rules) && NoBareDots(rules) && Bounded(st) && st.historyAmbi != ""
    requires SnapshotIsQuiet(rules, st)
    ensures Transform(re2, rules, st.historyContext, st.historyTransat, st.historyAmbi + t) == None
  {
    hide IsRe2, Annotated, Merged, Groups, TransformText, AppendEnd, NoBareDots, SnapshotIsQuiet;
    var a := Annotated(st.historyContext, st.historyTransat);
    var s := a + st.historyAmbi;
    assert a + (st.historyAmbi + t) == s + t;
    var k := TransformIsLeftmostRule(re2, rules, s + t, |st.historyAmbi + t|);
    var found := re2.search(Merged(rules), s + t);
    if found.Some? && found.value.start <= |a| {
      var j: nat :| M(AppendEnd(rules[k].from), s + t, found.value.start, j);
      NothingStartsBefore(rules, st, t, k, found.value.start, j);
    }
  }

  lemma NothingStartsBefore(rules: seq<Rule>, st: State, t: string, k: nat, i: nat, j: nat)
    requires NoBareDots(rules) && Bounded(st) && st.historyAmbi != "" && k < |rules| && SnapshotIsQuiet(rules, st)
    requires i <= |Annotated(st.historyContext, st.historyTransat)|
    ensures !M(AppendEnd(rules[k].from), Annotated(st.historyContext, st.historyTransat) + st.historyAmbi + t, i, j)
  {
    hide Annotated, Merged, MergedPrefix, AppendEnd, M, NoBareDots;
    var s := Annotated(st.historyContext, st.historyTransat) + st.historyAmbi;
    if M(AppendEnd(rules[k].from), s + t, i, j) {
      AppendedIsMatch(rules[k].from, s + t, i, j);
      if j >= |s| {
        SuffixIsPrefixMatch(rules, s, t, k, i, j);
      } else {
        EndsInside(rules[k].from, s, t, i, j);
        AlternativeMatches(rules, s, i, j, k);
      }
    }
  }

  lemma CleanIsPlain(rules: seq<Rule>)
    requires CleanTemplates(rules)
    ensures PlainTemplates(rules)
  {
    forall k | 0 <= k < |rules| ensures PlainTemplate(rules[k].to) {
      assert CleanTemplate(rules[k]);
    }
  }

  // ----- a commit that loses -----

  // a -> X, aa -> Y, and 'a' is ambiguous.
  const ONE := Rule(Typed("a"), [Text("X")])
  const TWO := Rule(Typed("aa"), [Text("Y")])
  const NO_KEYS: seq<map<DomCode, string>> := [map[], map[], map[], map[], map[], map[], map[], map[]]
  const AMBIGUOUS: Layout := RawLayout(NO_KEYS, [ONE, TWO], Some(Typed("a")))

  lemma TypedEnds(w: string, s: string, i: nat, j: nat)
    requires w != ""
    ensures M(AppendEnd(Typed(w)), s, i, j) <==> i + |w| == |s| && j == |s| && s[i..] == w
  {
    hide Typed;
    TypedShape(w);
    assert AppendEnd(Typed(w)) == Cat(Typed(w), End);
    if M(Cat(Typed(w), End), s, i, j) {
      AnchoredEndsAtEnd(Typed(w), s, i, j);
      TypedMatches(w, s, i, |s|);
    }
    if i + |w| == |s| && j == |s| && s[i..] == w {
      TypedMatches(w, s, i, |s|);
      assert M(End, s, |s|, |s|);
    }
  }

  lemma {:induction false} TypedShape(w: string)
    requires w != ""
    ensures Typed(w).Chr? || Typed(w).Cat?
    ensures Satisfiable(Typed(w)) && Leading(Typed(w)) && BeginFree(Typed(w)) && DotsAreOptional(Typed(w))
    decreases |w|
  {
    var n := |w| - 1;
    assert Literal(w[n]).Accepts(w[n]);
    if n > 0 {
      TypedShape(w[..n]);
    }
  }

  // A literal rule that matches the whole text replaces it.
  lemma WholeReplaced(re2: Re2, w: string, t: string)
    requires IsRe2(re2) && w != "" && DELIMITER !in t
    ensures RemoveFirst(Replace(re2, AppendEnd(Typed(w)), w, [Text(t)]), DELIMITER) == t
  {
    hide Typed, RemoveFirst, MC;
    var re := AppendEnd(Typed(w));
    TypedEnds(w, w, 0, |w|);
    LeftmostIs(re2, re, w, 0, |w|);
    FoundSpans(re2, re, w);
    var m := re2.search(re, w).value;
    CapturedMatches(re, w, m.start, m.end, 1, m.caps);
    TypedEnds(w, w, m.start, m.end);
    assert [Text(t)][..0] == [];
    assert Rewrite(w, m, [Text(t)]) == "" + t;
    assert Replace(re2, re, w, [Text(t)]) == w[..m.start] + Rewrite(w, m, [Text(t)]) + w[m.end..];
    assert w[..0] + t + w[|w|..] == t && "" + t == t;
    RemoveNothing(t, DELIMITER);
  }

  // On a run of 'a' the rule of that length applies.
  lemma RuleOfLength(re2: Re2, w: string, k: nat)
    requires IsRe2(re2) && ((k == 0 && w == "a") || (k == 1 && w == "aa"))
    ensures var rules := AMBIGUOUS.rules; TransformText(re2, rules, w, |w|) == Some(if k == 0 then "X" else "Y")
  {
    hide Typed, AppendEnd, Replace, RemoveFirst, MC, M;
    var rules := AMBIGUOUS.rules;
    assert rules[k].from == Typed(w);
    AmbiguousIsSmall();
    TypedEnds(w, w, 0, |w|);
    assert w[0..] == w;
    AlternativeMatches(rules, w, 0, |w|, k);
    LeftmostIs(re2, Merged(rules), w, 0, |w|);
    var n := TransformIsLeftmostRule(re2, rules, w, |w|);
    var j: nat :| M(AppendEnd(rules[n].from), w, 0, j);
    TypedEnds(if n == 0 then "a" else "aa", w, 0, j);
    WholeReplaced(re2, w, if k == 0 then "X" else "Y");
  }

  lemma AmbiguousIsSmall()
    ensures SmallEnough(AMBIGUOUS.rules) && AllPredictable(AMBIGUOUS.rules) && NoBareDots(AMBIGUOUS.rules)
            && AllFloating(AMBIGUOUS.rules) && AllAnchored(AMBIGUOUS.rules)
    ensures PlainTemplates(AMBIGUOUS.rules) && CleanLayout(AMBIGUOUS)
  {
    hide Typed, Groups, Merged;
    hide Satisfiable, Leading, BeginFree, DotsAreOptional, CleanLayout;
    TypedShape("a");
    TypedShape("aa");
    AmbiguousIsClean();
    AmbiguousGroups();
  }

  lemma AmbiguousGroups()
    ensures Groups(Merged(AMBIGUOUS.rules)) == 2
  {
    hide Typed, AppendEnd;
    OneGroup("a");
    OneGroup("aa");
    var rules := AMBIGUOUS.rules;
    assert rules[1..] == [TWO];
    assert Merged(rules) == Alt(Group(AppendEnd(ONE.from)), Merged([TWO]));
    assert Merged([TWO]) == Group(AppendEnd(TWO.from));
  }

  lemma OneGroup(w: string)
    requires w != ""
    ensures Groups(Group(AppendEnd(Typed(w)))) == 1
  {
    hide Typed, AppendEnd;
    TypedMatches(w, "", 0, 0);
    AppendEndText(Typed(w));
  }

  lemma AmbiguousIsClean()
    ensures CleanLayout(AMBIGUOUS)
  {
    hide Typed, Siblings;
    assert CleanTemplate(ONE) && CleanTemplate(TWO);
  }

  // Behind a transformed 'a' nothing begins a match.
  lemma NothingFollows()
    ensures !Predicts(AMBIGUOUS.rules, "X", 1)
  {
    hide Typed, AllPredictable, Predicts, AllFloating, AllAnchored, CleanLayout, IsPrefixOfMatch, PlainTemplates,
         SmallEnough;
    var rules := AMBIGUOUS.rules;
    AmbiguousIsSmall();
    PredictionIsExact(rules, "X", 1);
    var s := Annotated("X", 1);
    assert s == ['X', DELIMITER];
    forall p | 0 <= p < |s| ensures !SomeRuleBegins(rules, s[p..]) {
      forall k | 0 <= k < |rules| ensures !IsPrefixOfMatch(rules[k].from, s[p..]) {
        NotTyped(if k == 0 then "a" else "aa", s[p..]);
      }
    }
  }

  lemma NotTyped(w: string, s: string)
    requires w != "" && s != "" && s[0] != w[0]
    ensures !IsPrefixOfMatch(Typed(w), s)
  {
    hide Typed;
    forall t ensures !Matches(Typed(w), s + t) {
      assert (s + t)[0..|s + t|] == s + t && (s + t)[0] == s[0];
      TypedMatches(w, s + t, 0, |s + t|);
    }
  }

  // The first commit test fires on "X"; the next 'a' would have made "Y" of the snapshot, and makes "XX" of it all now.
  lemma SnapshotIsLost(re2: Re2)
    requires IsRe2(re2)
    ensures var next := Advance(re2, AMBIGUOUS, INITIAL, "a");
            && AllPredictable(AMBIGUOUS.rules) && AllFloating(AMBIGUOUS.rules) && AllAnchored(AMBIGUOUS.rules)
                 && CleanLayout(AMBIGUOUS)
            && next == State("X", 1, "", -1, "a") && CommitsQuietly(AMBIGUOUS, next)
            && FirstAttempt(re2, AMBIGUOUS, next, ["a"]) == Some((0, "Y"))
            && Behind(next.context, FirstAttempt(re2, AMBIGUOUS, INITIAL, ["a"])) == Some((0, "XX"))
            && !CommitIsLossless(re2, AMBIGUOUS, next)
  {
    hide Typed, TransformText, Predicts, IsRe2, AllPredictable, AllFloating, AllAnchored, CleanLayout, Merged,
         Quiescent, PlainTemplates;
    AmbiguousIsSmall();
    RuleOfLength(re2, "a", 0);
    RuleOfLength(re2, "aa", 1);
    assert Annotated("", -1) + "a" == "a" && Annotated("", -1) + "aa" == "aa" && "a" + "a" == "aa" && "" + "a" == "a";
    AmbiguousPrunes(re2);
    var next := Advance(re2, AMBIGUOUS, INITIAL, "a");
    assert Attempt(re2, AMBIGUOUS, INITIAL, "a") == Some("X");
    assert next == State("X", 1, "", -1, "a");
    assert Attempt(re2, AMBIGUOUS, next, "a") == Some("Y");
    assert "X" + "X" == "XX";
    NothingFollows();
    AnchoredIsQuiescent(AMBIGUOUS.rules, "X", 1);
    MayCommitIsQuiet(AMBIGUOUS.rules, "X", 1);
    assert CleanKeys(["a"]) && !SameNext(re2, AMBIGUOUS, next, ["a"]);
  }

  lemma MayCommitIsQuiet(rules: seq<Rule>, context: string, transat: int)
    requires MayCommit(rules, context, transat)
    ensures rules != [] && transat <= |context| && Quiescent(rules, context, transat)
  {
  }

  lemma AmbiguousPrunes(re2: Re2)
    requires IsRe2(re2)
    ensures Prunes(re2, AMBIGUOUS, "a")
  {
    hide Typed, M;
    TypedMatches("a", "a", 0, 1);
    var re := Cat(Group(Typed("a")), End);
    assert "a"[0..1] == "a";
    GroupMatches(Typed("a"), "a", 0, 1);
    AtEnd("a", 1, 1);
    JoinCat(Group(Typed("a")), End, "a", 0, 1, 1);
    assert Matches(re, "a");
  }
}
