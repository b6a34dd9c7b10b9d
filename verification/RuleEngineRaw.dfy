/**
 The text typed and not deleted.  Across every run, Backspaces included, the ambiguous text is the end of it,
 and the snapshot is the state from before that end was typed.
 */
module RuleEngineRaw {
  import opened Options
  import opened Regex
  import opened RulesData
  import opened RulesTransform
  import opened RuleEngine

  function WithoutLast(s: string): string {
    if s == "" then "" else s[..|s| - 1]
  }

  // What an event makes of the text typed so far: a Backspace takes one character, whatever else puts the engine
  // into its initial state empties it, and any other key appends its text.
  ghost function RawStep(re2: Re2, layout: Layout, st: State, ev: Event, raw: string): string
    requires IsRe2(re2) && Bounded(st)
  {
    if TakesBack(layout, st, ev) then WithoutLast(raw)
    else if Step(re2, layout, st, ev).0 == INITIAL then ""
    else raw + KeyText(layout, ev).GetOr("")
  }

  ghost function RawText(re2: Re2, layout: Layout, events: seq<Event>): string
    requires IsRe2(re2)
  {
    if events == [] then ""
    else
      var n := |events| - 1;
      RawStep(re2, layout, Run(re2, layout, INITIAL, events[..n]), events[n], RawText(re2, layout, events[..n]))
  }

  // ----- Backspace -----

  function Min(a: int, b: int): int {
    if a <= b then a else b
  }

  // One character less of the context and of the ambiguous text; the position moves back with the text,
  // and the snapshot goes with the last ambiguous character.
  lemma BackspaceTakesOne(re2: Re2, layout: Layout, st: State, ev: Event)
    requires IsRe2(re2) && Bounded(st) && TakesBack(layout, st, ev)
    ensures var (now, r) := Step(re2, layout, st, ev);
            && r == Result(true, "", now.context)
            && |now.context| == |st.context| - 1 && now.context <= st.context
            && now.transat == Min(st.transat, |now.context|)
            && now.historyAmbi == WithoutLast(st.historyAmbi)
            && (now.historyAmbi != "" ==>
                  now.historyContext == st.historyContext && now.historyTransat == st.historyTransat)
            && (|st.historyAmbi| == 1 ==> now.historyContext == "" && now.historyTransat == -1)
  {
  }

  // ----- what an event answers -----

  // An event is handled exactly if it is a mapped key or a Backspace with text to take from; any other commits what a
  // key finds in composition and starts anew.
  lemma HandledIff(re2: Re2, layout: Layout, st: State, ev: Event)
    requires IsRe2(re2) && Bounded(st)
    ensures var (now, r) := Step(re2, layout, st, ev);
            && (r.keyHandled <==> KeyText(layout, ev).Some? || TakesBack(layout, st, ev))
            && (!r.keyHandled ==>
                  now == INITIAL && r.compositionText == "" && r.commitText == if ev.Key? then st.context else "")
  {
    hide Attempt, MustCommit, Prunes, IsRe2;
  }

  // The text after a key: what the rules make of the snapshot with all that is ambiguous, else what they make of the
  // text, else the text with the key; a transform moves the position to the end.
  lemma KeyComposes(re2: Re2, layout: Layout, st: State, key: string)
    requires IsRe2(re2) && layout.rules != [] && Bounded(st)
    ensures var next := Advance(re2, layout, st, key);
            var older := Transform(re2, layout.rules, st.historyContext, st.historyTransat, st.historyAmbi + key);
            var newer := Transform(re2, layout.rules, st.context, st.transat, key);
            if st.historyAmbi != "" && older.Some? then next.context == older.value && next.transat == |older.value|
            else if newer.Some? then next.context == newer.value && next.transat == |newer.value|
            else next.context == st.context + key && next.transat == st.transat
  {
    hide Transform, Prunes, IsRe2;
  }

  // ----- what a key remembers -----

  // After a key the ambiguous text is the old one with the key, or the key alone, or empty: the longest of these
  // that the prune pattern matches.  A new one comes with a snapshot of the text before the key.
  lemma KeyRemembersLongest(re2: Re2, layout: Layout, st: State, key: string)
    requires IsRe2(re2) && layout.rules != [] && Bounded(st)
    ensures var next := Advance(re2, layout, st, key);
            && (Prunes(re2, layout, st.historyAmbi + key) ==> next.historyAmbi == st.historyAmbi + key)
            && (!Prunes(re2, layout, st.historyAmbi + key) && Prunes(re2, layout, key) ==> next.historyAmbi == key)
            && (!Prunes(re2, layout, st.historyAmbi + key) && !Prunes(re2, layout, key) ==>
                  next.historyAmbi == next.historyContext == "" && next.historyTransat == -1)
    ensures var next := Advance(re2, layout, st, key);
            if st.historyAmbi != "" && Prunes(re2, layout, st.historyAmbi + key)
            then next.historyContext == st.historyContext && next.historyTransat == st.historyTransat
            else next.historyAmbi != "" ==> next.historyContext == st.context && next.historyTransat == st.transat
  {
    hide Attempt, IsRe2, Prunes;
    assert "" + key == key;
  }

  // The text stays in composition exactly if some suffix of it begins a match of some rule, and some suffix of
  // the snapshot's text does.
  lemma KeyIsKeptIff(re2: Re2, layout: Layout, st: State, key: string)
    requires IsRe2(re2) && layout.rules != [] && AllPredictable(layout.rules) && Bounded(st)
    ensures var next := Advance(re2, layout, st, key);
            var kept := BeginsMatch(layout.rules, Annotated(next.context, next.transat))
                        && (next.historyAmbi != "" ==>
                              BeginsMatch(layout.rules,
                                Annotated(next.historyContext + next.historyAmbi, next.historyTransat)));
            KeyStep(re2, layout, st, key) == if kept then (next, Result(true, "", next.context))
                                             else (INITIAL, Result(true, next.context, ""))
  {
    hide Attempt, IsRe2, Predicts, BeginsMatch, AllPredictable, Annotated;
    var next := Advance(re2, layout, st, key);
    PredictionIsExact(layout.rules, next.context, next.transat);
    PredictionIsExact(layout.rules, next.historyContext + next.historyAmbi, next.historyTransat);
  }

  // No key with an empty text counts as ambiguous.
  ghost predicate NoEmptyAmbiguity(re2: Re2, layout: Layout) {
    Prunes(re2, layout, "") ==> forall ev :: KeyText(layout, ev) != Some("")
  }

  predicate EmptyIsForgotten(st: State) {
    st.historyAmbi == "" ==> st.historyContext == "" && st.historyTransat == -1
  }

  // A key leaves a snapshot behind an empty ambiguous text exactly if its own text is empty and counts as
  // ambiguous, and no ambiguous text goes on with it.
  lemma SnapshotBehindNothingIff(re2: Re2, layout: Layout, st: State, key: string)
    requires IsRe2(re2) && layout.rules != [] && Bounded(st)
    ensures var next := Advance(re2, layout, st, key);
            EmptyIsForgotten(next) <==>
            !(key == "" && Prunes(re2, layout, "") && !(st.historyAmbi != "" && Prunes(re2, layout, st.historyAmbi))
              && (st.context != "" || st.transat != -1))
  {
    hide Attempt, IsRe2, Prunes;
    assert st.historyAmbi + "" == st.historyAmbi && "" + key == key;
  }

  // ----- over every run -----

  // The snapshot is the state after the first `n` events, and the ambiguous text is what was typed since.
  ghost predicate SnapshotFrom(re2: Re2, layout: Layout, events: seq<Event>, n: nat)
    requires IsRe2(re2) && n <= |events|
  {
    var now, earlier := Run(re2, layout, INITIAL, events), Run(re2, layout, INITIAL, events[..n]);
    && now.historyContext == earlier.context && now.historyTransat == earlier.transat
    && RawText(re2, layout, events) == RawText(re2, layout, events[..n]) + now.historyAmbi
  }

  ghost predicate HistoryIsTyped(re2: Re2, layout: Layout, events: seq<Event>)
    requires IsRe2(re2)
  {
    Run(re2, layout, INITIAL, events).historyAmbi != "" ==>
      exists n: nat :: n < |events| && SnapshotFrom(re2, layout, events, n)
  }

  predicate EndsWith(s: string, tail: string) {
    exists k: nat :: k <= |s| && s[k..] == tail
  }

  lemma HistorySurvivesBackspace(re2: Re2, layout: Layout, events: seq<Event>)
    requires IsRe2(re2)
    ensures HistoryIsTyped(re2, layout, events)
    ensures var now := Run(re2, layout, INITIAL, events);
            && EndsWith(RawText(re2, layout, events), now.historyAmbi)
            && (NoEmptyAmbiguity(re2, layout) && now.historyAmbi == "" ==>
                  now.historyContext == "" && now.historyTransat == -1)
  {
    hide IsRe2, Run, RawText, NoEmptyAmbiguity;
    RunHistory(re2, layout, events);
    var raw, now := RawText(re2, layout, events), Run(re2, layout, INITIAL, events);
    if now.historyAmbi == "" {
      assert raw[|raw|..] == "";
    } else {
      var n: nat :| n < |events| && SnapshotFrom(re2, layout, events, n);
      assert raw[|RawText(re2, layout, events[..n])|..] == now.historyAmbi;
    }
  }

  lemma {:induction false} RunHistory(re2: Re2, layout: Layout, events: seq<Event>)
    requires IsRe2(re2)
    ensures HistoryIsTyped(re2, layout, events)
    ensures NoEmptyAmbiguity(re2, layout) ==> EmptyIsForgotten(Run(re2, layout, INITIAL, events))
  {
    hide IsRe2, Step, RawStep, SnapshotFrom, NoEmptyAmbiguity;
    if events != [] {
      var n := |events| - 1;
      var before := Run(re2, layout, INITIAL, events[..n]);
      RunHistory(re2, layout, events[..n]);
      if layout.rules == [] {
        KeyMapOnlyHasNoContext(re2, layout, events[..n]);
      }
      HistoryStep(re2, layout, before, events[n]);
      var now := Run(re2, layout, INITIAL, events);
      if now.historyAmbi != "" {
        if Continues(layout, before, now, events[n]) {
          var m: nat :| m < n && SnapshotFrom(re2, layout, events[..n], m);
          SnapshotContinues(re2, layout, events, m);
        } else {
          SnapshotBegins(re2, layout, events);
        }
      }
    }
  }

  // The snapshot stays, and the ambiguous text follows the typed one.
  predicate Continues(layout: Layout, before: State, now: State, ev: Event) {
    && before.historyAmbi != ""
    && now.historyContext == before.historyContext && now.historyTransat == before.historyTransat
    && now.historyAmbi == (if TakesBack(layout, before, ev) then WithoutLast(before.historyAmbi)
                           else before.historyAmbi + KeyText(layout, ev).GetOr(""))
  }

  predicate Begins(layout: Layout, before: State, now: State, ev: Event) {
    && !TakesBack(layout, before, ev) && now.historyAmbi == KeyText(layout, ev).GetOr("")
    && now.historyContext == before.context && now.historyTransat == before.transat
  }

  lemma HistoryStep(re2: Re2, layout: Layout, before: State, ev: Event)
    requires IsRe2(re2) && Bounded(before)
    requires layout.rules == [] ==> NoHistory(before)
    ensures var now := Step(re2, layout, before, ev).0;
            && (EmptyIsForgotten(before) && NoEmptyAmbiguity(re2, layout) ==> EmptyIsForgotten(now))
            && (now.historyAmbi != "" ==> Continues(layout, before, now, ev) || Begins(layout, before, now, ev))
  {
    hide Attempt, MustCommit, Prunes, IsRe2;
    var key := KeyText(layout, ev);
    if key.Some? && layout.rules != [] && key.value == "" {
      assert before.historyAmbi + "" == before.historyAmbi;
    }
  }

  lemma SnapshotContinues(re2: Re2, layout: Layout, events: seq<Event>, m: nat)
    requires IsRe2(re2) && events != [] && m < |events| - 1
    requires SnapshotFrom(re2, layout, events[..|events| - 1], m)
    requires Run(re2, layout, INITIAL, events).historyAmbi != ""
    requires Continues(layout, Run(re2, layout, INITIAL, events[..|events| - 1]), Run(re2, layout, INITIAL, events),
             events[|events| - 1])
    ensures SnapshotFrom(re2, layout, events, m)
  {
    hide IsRe2, Step;
    var n := |events| - 1;
    assert events[..n][..m] == events[..m];
    var before, now := Run(re2, layout, INITIAL, events[..n]), Run(re2, layout, INITIAL, events);
    var earlier, raw := RawText(re2, layout, events[..m]), RawText(re2, layout, events[..n]);
    assert now == Step(re2, layout, before, events[n]).0;
    assert raw == earlier + before.historyAmbi;
    if TakesBack(layout, before, events[n]) {
      assert WithoutLast(raw) == earlier + WithoutLast(before.historyAmbi);
    } else {
      var key := KeyText(layout, events[n]).GetOr("");
      assert raw + key == earlier + (before.historyAmbi + key);
    }
  }

  lemma SnapshotBegins(re2: Re2, layout: Layout, events: seq<Event>)
    requires IsRe2(re2) && events != [] && Run(re2, layout, INITIAL, events).historyAmbi != ""
    requires Begins(layout, Run(re2, layout, INITIAL, events[..|events| - 1]), Run(re2, layout, INITIAL, events),
             events[|events| - 1])
    ensures SnapshotFrom(re2, layout, events, |events| - 1)
  {
    hide IsRe2, Step;
  }
}
