/**
 The engine's state machine: current text, position of the last transform, and the snapshot
 taken when the typed text became ambiguous.
 */
module RuleEngine {
  import opened Options
  import opened Regex
  import opened Captures
  import opened RulesData
  import opened RulesTransform
  import opened RulesDelimiter

  datatype DomCode =
    | Backspace | AltLeft | AltRight | ShiftLeft | ShiftRight | ControlLeft | ControlRight | CapsLock
    | Other(id: nat)

  const KEY_MAP_COUNT := 8

  // One entry of the raw data: the key maps of the eight modifier states, the rules and the prune pattern.
  datatype RawLayout = RawLayout(keyMaps: seq<map<DomCode, string>>, rules: seq<Rule>, prune: Option<Re>)
  type Layout = x: RawLayout | |x.keyMaps| == KEY_MAP_COUNT
    witness RawLayout([map[], map[], map[], map[], map[], map[], map[], map[]], [], None)

  datatype State = State(context: string, transat: int, historyContext: string, historyTransat: int,
    historyAmbi: string)
  datatype Result = Result(keyHandled: bool, commitText: string, compositionText: string)

  const INITIAL := State("", -1, "", -1, "")

  // Every position lies within its text.
  predicate Bounded(st: State) {
    -1 <= st.transat <= |st.context| && -1 <= st.historyTransat <= |st.historyContext|
  }

  predicate Prunes(re2: Re2, layout: Layout, s: string) {
    layout.prune.Some? && re2.fullMatch(Cat(Group(layout.prune.value), End), s)
  }

  // ----- one key -----

  // The snapshot's text is tried first.
  ghost function Attempt(re2: Re2, layout: Layout, st: State, key: string): Option<string>
    requires IsRe2(re2) && layout.rules != [] && Bounded(st)
  {
    var older :=
      if st.historyAmbi == "" then None
      else Transform(re2, layout.rules, st.historyContext, st.historyTransat, st.historyAmbi + key);
    if older.Some? then older else Transform(re2, layout.rules, st.context, st.transat, key)
  }

  function Snapshot(st: State, key: string): State {
    st.(historyContext := st.context, historyTransat := st.transat, historyAmbi := key)
  }

  function Forget(st: State): State {
    st.(historyContext := "", historyTransat := -1, historyAmbi := "")
  }

  function Remember(re2: Re2, layout: Layout, st: State, key: string): State {
    if Prunes(re2, layout, st.historyAmbi + key) then
      if st.historyAmbi == "" then Snapshot(st, key) else st.(historyAmbi := st.historyAmbi + key)
    else if Prunes(re2, layout, key) then Snapshot(st, key)
    else Forget(st)
  }

  ghost function Advance(re2: Re2, layout: Layout, st: State, key: string): (next: State)
    requires IsRe2(re2) && layout.rules != [] && Bounded(st)
    ensures Bounded(next)
  {
    var text := Attempt(re2, layout, st, key);
    var kept := Remember(re2, layout, st, key);
    if text.Some? then kept.(context := text.value, transat := |text.value|)
    else kept.(context := st.context + key)
  }

  ghost predicate MustCommit(layout: Layout, st: State)
    requires Bounded(st)
  {
    || !Predicts(layout.rules, st.context, st.transat)
    || (st.historyAmbi != "" && !Predicts(layout.rules, st.historyContext + st.historyAmbi, st.historyTransat))
  }

  ghost function KeyStep(re2: Re2, layout: Layout, st: State, key: string): (State, Result)
    requires IsRe2(re2) && layout.rules != [] && Bounded(st)
  {
    var next := Advance(re2, layout, st, key);
    if MustCommit(layout, next) then (INITIAL, Result(true, next.context, ""))
    else (next, Result(true, "", next.context))
  }

  function AfterBackspace(st: State): State
    requires st.context != ""
  {
    var context := st.context[..|st.context| - 1];
    var back := st.(context := context, transat := if st.transat > |context| then |context| else st.transat);
    if st.historyAmbi == "" then back
    else
      var ambi := st.historyAmbi[..|st.historyAmbi| - 1];
      if ambi == "" then Forget(back) else back.(historyAmbi := ambi)
  }

  // ----- one event -----

  datatype Event = Key(code: DomCode, modifiers: nat) | Canceled

  // The text a key stands for.
  function KeyText(layout: Layout, ev: Event): Option<string> {
    if ev.Key? && ev.modifiers < KEY_MAP_COUNT && ev.code in layout.keyMaps[ev.modifiers]
    then Some(layout.keyMaps[ev.modifiers][ev.code]) else None
  }

  predicate TakesBack(layout: Layout, st: State, ev: Event) {
    ev.Key? && ev.modifiers < KEY_MAP_COUNT && ev.code == Backspace && KeyText(layout, ev).None? && st.context != ""
  }

  ghost function Step(re2: Re2, layout: Layout, st: State, ev: Event): (State, Result)
    requires IsRe2(re2) && Bounded(st)
  {
    var key := KeyText(layout, ev);
    if key.Some? then
      if layout.rules == [] then (st, Result(true, key.value, "")) else KeyStep(re2, layout, st, key.value)
    else if TakesBack(layout, st, ev) then
      var back := AfterBackspace(st);
      (back, Result(true, "", back.context))
    else (INITIAL, Result(false, if ev.Key? then st.context else "", ""))
  }

  lemma StepStaysInRange(re2: Re2, layout: Layout, st: State, ev: Event)
    requires IsRe2(re2) && Bounded(st)
    ensures Bounded(Step(re2, layout, st, ev).0)
  {
    hide Attempt, MustCommit, Remember;
  }

  ghost function Run(re2: Re2, layout: Layout, st: State, events: seq<Event>): (r: State)
    requires IsRe2(re2) && Bounded(st)
    ensures Bounded(r)
  {
    if events == [] then st
    else
      var n := |events| - 1;
      var before := Run(re2, layout, st, events[..n]);
      StepStaysInRange(re2, layout, before, events[n]);
      Step(re2, layout, before, events[n]).0
  }

  // What the last event of a run answered.
  ghost function LastResult(re2: Re2, layout: Layout, st: State, events: seq<Event>): Result
    requires IsRe2(re2) && Bounded(st) && events != []
  {
    var n := |events| - 1;
    Step(re2, layout, Run(re2, layout, st, events[..n]), events[n]).1
  }

  // ----- the snapshot is faithful -----

  function KeyTexts(layout: Layout, events: seq<Event>): string {
    if events == [] then ""
    else
      var n := |events| - 1;
      KeyTexts(layout, events[..n]) + KeyText(layout, events[n]).GetOr("")
  }

  ghost predicate NeverTakesBack(re2: Re2, layout: Layout, st: State, events: seq<Event>)
    requires IsRe2(re2) && Bounded(st)
  {
    forall n :: 0 <= n < |events| ==> !TakesBack(layout, Run(re2, layout, st, events[..n]), events[n])
  }

  // The ambiguous text is what the last events, from the n-th on, have typed, and the snapshot is the state before
  // them.
  ghost predicate SnapshotAt(re2: Re2, layout: Layout, st: State, events: seq<Event>, n: nat)
    requires IsRe2(re2) && Bounded(st) && n <= |events|
  {
    var now := Run(re2, layout, st, events);
    var earlier := Run(re2, layout, st, events[..n]);
    && now.historyAmbi == KeyTexts(layout, events[n..])
    && now.historyContext == earlier.context && now.historyTransat == earlier.transat
    && forall i :: n <= i < |events| ==> KeyText(layout, events[i]).Some?
  }

  ghost predicate Faithful(re2: Re2, layout: Layout, st: State, events: seq<Event>)
    requires IsRe2(re2) && Bounded(st)
  {
    Run(re2, layout, st, events).historyAmbi != "" ==>
      exists n: nat :: n < |events| && SnapshotAt(re2, layout, st, events, n)
  }

  lemma {:induction false} SnapshotIsFaithful(re2: Re2, layout: Layout, st: State, events: seq<Event>)
    requires IsRe2(re2) && Bounded(st) && st.historyAmbi == "" && NeverTakesBack(re2, layout, st, events)
    ensures Faithful(re2, layout, st, events)
    ensures layout.rules == [] ==> Run(re2, layout, st, events).historyAmbi == ""
  {
    hide IsRe2, Step, SnapshotAt, TakesBack;
    if events != [] {
      var n := |events| - 1;
      PrefixNeverTakesBack(re2, layout, st, events, n);
      SnapshotIsFaithful(re2, layout, st, events[..n]);
      var before := Run(re2, layout, st, events[..n]);
      assert !TakesBack(layout, before, events[n]);
      var now := Run(re2, layout, st, events);
      HistoryStep(re2, layout, before, events[n]);
      if now.historyAmbi != "" {
        if KeepsSnapshot(layout, before, now, events[n]) {
          var m: nat :| m < n && SnapshotAt(re2, layout, st, events[..n], m);
          SnapshotStays(re2, layout, st, events, m);
        } else {
          SnapshotTaken(re2, layout, st, events);
        }
      }
    }
  }

  lemma PrefixNeverTakesBack(re2: Re2, layout: Layout, st: State, events: seq<Event>, n: nat)
    requires IsRe2(re2) && Bounded(st) && n <= |events| && NeverTakesBack(re2, layout, st, events)
    ensures NeverTakesBack(re2, layout, st, events[..n])
  {
    hide IsRe2, Step, TakesBack, Run;
    forall m | 0 <= m < n ensures !TakesBack(layout, Run(re2, layout, st, events[..n][..m]), events[..n][m]) {
      assert events[..n][..m] == events[..m];
    }
  }

  // The two ways a snapshot can be there after an event.
  predicate KeepsSnapshot(layout: Layout, before: State, now: State, ev: Event) {
    && KeyText(layout, ev).Some? && before.historyAmbi != ""
    && now.historyAmbi == before.historyAmbi + KeyText(layout, ev).value
    && now.historyContext == before.historyContext && now.historyTransat == before.historyTransat
  }

  predicate TakesSnapshot(layout: Layout, before: State, now: State, ev: Event) {
    && KeyText(layout, ev).Some? && now.historyAmbi == KeyText(layout, ev).value
    && now.historyContext == before.context && now.historyTransat == before.transat
  }

  lemma HistoryStep(re2: Re2, layout: Layout, before: State, ev: Event)
    requires IsRe2(re2) && Bounded(before) && !TakesBack(layout, before, ev)
    ensures var now := Step(re2, layout, before, ev).0;
            now.historyAmbi == "" || KeepsSnapshot(layout, before, now, ev) || TakesSnapshot(layout, before, now, ev)
            || (layout.rules == [] && now == before)
    ensures layout.rules == [] && before.historyAmbi == "" ==> Step(re2, layout, before, ev).0.historyAmbi == ""
  {
    hide Attempt, MustCommit, Prunes;
  }

  lemma KeyTextsGrow(layout: Layout, events: seq<Event>, m: nat)
    requires m < |events|
    ensures var n := |events| - 1;
            KeyTexts(layout, events[m..]) == KeyTexts(layout, events[..n][m..]) + KeyText(layout, events[n]).GetOr("")
  {
    hide KeyText;
    var n := |events| - 1;
    var tail := events[m..];
    assert tail[..|tail| - 1] == events[..n][m..];
    assert tail[|tail| - 1] == events[n];
  }

  lemma SnapshotStays(re2: Re2, layout: Layout, st: State, events: seq<Event>, m: nat)
    requires IsRe2(re2) && Bounded(st) && events != [] && m < |events| - 1
    requires SnapshotAt(re2, layout, st, events[..|events| - 1], m)
    requires KeepsSnapshot(layout, Run(re2, layout, st, events[..|events| - 1]), Run(re2, layout, st, events),
             events[|events| - 1])
    ensures SnapshotAt(re2, layout, st, events, m)
  {
    hide IsRe2, Run, KeyText, KeyTexts;
    var n := |events| - 1;
    assert events[..n][..m] == events[..m];
    KeyTextsGrow(layout, events, m);
    OneMoreKey(layout, events[..n], events, m);
  }

  lemma OneMoreKey(layout: Layout, before: seq<Event>, events: seq<Event>, m: nat)
    requires events != [] && before == events[..|events| - 1] && KeyText(layout, events[|events| - 1]).Some?
    requires forall i :: m <= i < |before| ==> KeyText(layout, before[i]).Some?
    ensures forall i :: m <= i < |events| ==> KeyText(layout, events[i]).Some?
  {
    hide KeyText;
    forall i | m <= i < |before| ensures KeyText(layout, events[i]).Some? {
      assert before[i] == events[i];
    }
  }

  lemma SnapshotTaken(re2: Re2, layout: Layout, st: State, events: seq<Event>)
    requires IsRe2(re2) && Bounded(st) && events != []
    requires TakesSnapshot(layout, Run(re2, layout, st, events[..|events| - 1]), Run(re2, layout, st, events),
             events[|events| - 1])
    ensures SnapshotAt(re2, layout, st, events, |events| - 1)
  {
    hide IsRe2, Run, KeyText;
    var n := |events| - 1;
    assert events[n..] == [events[n]] && [events[n]][..0] == [];
    assert KeyTexts(layout, [events[n]]) == KeyTexts(layout, []) + KeyText(layout, events[n]).GetOr("");
  }

  // ----- layouts without rules -----

  predicate NoHistory(st: State) {
    st.context == "" && st.historyAmbi == ""
  }

  lemma {:induction false} KeyMapOnlyHasNoContext(re2: Re2, layout: Layout, events: seq<Event>)
    requires IsRe2(re2) && layout.rules == []
    ensures NoHistory(Run(re2, layout, INITIAL, events))
    ensures events != [] ==>
              var r := LastResult(re2, layout, INITIAL, events);
              var key := KeyText(layout, events[|events| - 1]);
              r == if key.Some? then Result(true, key.value, "") else Result(false, "", "")
  {
    hide IsRe2, KeyStep;
    if events != [] {
      KeyMapOnlyHasNoContext(re2, layout, events[..|events| - 1]);
    }
  }

  // ----- text is neither lost nor doubled -----

  // The text committed by a run, and the text still in composition.
  ghost function Produced(re2: Re2, layout: Layout, st: State, events: seq<Event>): string
    requires IsRe2(re2) && Bounded(st)
  {
    Committed(re2, layout, st, events) + Run(re2, layout, st, events).context
  }

  ghost function Committed(re2: Re2, layout: Layout, st: State, events: seq<Event>): string
    requires IsRe2(re2) && Bounded(st)
  {
    if events == [] then ""
    else Committed(re2, layout, st, events[..|events| - 1]) + LastResult(re2, layout, st, events).commitText
  }

  // What an event makes of the text in composition: a key appends its text or transforms, Backspace takes
  // one character, an unknown key changes nothing.
  ghost function Edited(re2: Re2, layout: Layout, st: State, ev: Event): string
    requires IsRe2(re2) && Bounded(st)
  {
    var key := KeyText(layout, ev);
    if key.Some? then
      if layout.rules == [] then st.context + key.value
      else
        var text := Attempt(re2, layout, st, key.value);
        if text.Some? then text.value else st.context + key.value
    else if TakesBack(layout, st, ev) then st.context[..|st.context| - 1]
    else if ev.Key? then st.context
    else ""
  }

  lemma StepEdits(re2: Re2, layout: Layout, st: State, ev: Event)
    requires IsRe2(re2) && Bounded(st) && (layout.rules == [] ==> st.context == "")
    ensures var (now, r) := Step(re2, layout, st, ev); r.commitText + now.context == Edited(re2, layout, st, ev)
    ensures var (now, r) := Step(re2, layout, st, ev); r.compositionText == now.context
    ensures var (now, r) := Step(re2, layout, st, ev); layout.rules == [] ==> now.context == ""
  {
    hide Attempt, MustCommit, Prunes;
    var now, r := Step(re2, layout, st, ev).0, Step(re2, layout, st, ev).1;
    assert r.commitText + "" == r.commitText && "" + now.context == now.context;
  }

  // Whenever and why ever it commits, the engine hands over exactly the text it was showing.
  lemma CommitsKeepTheText(re2: Re2, layout: Layout, st: State, events: seq<Event>)
    requires IsRe2(re2) && Bounded(st) && events != [] && (layout.rules == [] ==> st.context == "")
    ensures var front := events[..|events| - 1];
            Produced(re2, layout, st, events)
            == Committed(re2, layout, st, front)
              + Edited(re2, layout, Run(re2, layout, st, front), events[|events| - 1])
  {
    hide IsRe2, Step, Edited;
    var front := events[..|events| - 1];
    var before := Run(re2, layout, st, front);
    var ev := events[|events| - 1];
    KeyMapOnlyStays(re2, layout, st, front);
    StepEdits(re2, layout, before, ev);
    var c, r, now := Committed(re2, layout, st, front), Step(re2, layout, before, ev).1,
        Step(re2, layout, before, ev).0;
    assert c + r.commitText + now.context == c + (r.commitText + now.context);
  }

  lemma {:induction false} KeyMapOnlyStays(re2: Re2, layout: Layout, st: State, events: seq<Event>)
    requires IsRe2(re2) && Bounded(st) && (layout.rules == [] ==> st.context == "")
    ensures layout.rules == [] ==> Run(re2, layout, st, events).context == ""
  {
    hide IsRe2, Step;
    if events != [] {
      var n := |events| - 1;
      KeyMapOnlyStays(re2, layout, st, events[..n]);
      StepEdits(re2, layout, Run(re2, layout, st, events[..n]), events[n]);
    }
  }

  // ----- the delimiter never leaks -----

  ghost predicate CleanLayout(layout: Layout) {
    && CleanTemplates(layout.rules)
    && forall ev :: KeyText(layout, ev).Some? ==> NoDelimiter(KeyText(layout, ev).value)
  }

  predicate CleanState(st: State) {
    NoDelimiter(st.context) && NoDelimiter(st.historyContext) && NoDelimiter(st.historyAmbi)
  }

  predicate CleanResult(r: Result) {
    NoDelimiter(r.commitText) && NoDelimiter(r.compositionText)
  }

  lemma AttemptIsClean(re2: Re2, layout: Layout, st: State, key: string)
    requires IsRe2(re2) && layout.rules != [] && Bounded(st) && CleanTemplates(layout.rules)
    requires CleanState(st) && NoDelimiter(key)
    ensures var t := Attempt(re2, layout, st, key); t.Some? ==> NoDelimiter(t.value)
  {
    hide IsRe2, CleanTemplates, Transform;
    if st.historyAmbi != "" {
      DelimiterNeverLeaks(re2, layout.rules, st.historyContext, st.historyTransat, st.historyAmbi + key);
    }
    DelimiterNeverLeaks(re2, layout.rules, st.context, st.transat, key);
  }

  lemma StepStaysClean(re2: Re2, layout: Layout, st: State, ev: Event)
    requires IsRe2(re2) && Bounded(st) && CleanLayout(layout) && CleanState(st)
    ensures CleanState(Step(re2, layout, st, ev).0) && CleanResult(Step(re2, layout, st, ev).1)
  {
    hide IsRe2, CleanTemplates, Attempt, Prunes, MustCommit;
    var key := KeyText(layout, ev);
    if key.Some? {
      if layout.rules != [] {
        AttemptIsClean(re2, layout, st, key.value);
      }
    } else if TakesBack(layout, st, ev) {
      CleanFront(st.context);
      if st.historyAmbi != "" {
        CleanFront(st.historyAmbi);
      }
    }
  }

  lemma CleanFront(s: string)
    requires s != "" && NoDelimiter(s)
    ensures NoDelimiter(s[..|s| - 1])
  {
  }

  lemma {:induction false} RunStaysClean(re2: Re2, layout: Layout, st: State, events: seq<Event>)
    requires IsRe2(re2) && Bounded(st) && CleanLayout(layout) && CleanState(st)
    ensures CleanState(Run(re2, layout, st, events))
    ensures events != [] ==> CleanResult(LastResult(re2, layout, st, events))
  {
    hide IsRe2, Step, CleanLayout, CleanState, CleanResult;
    if events != [] {
      var n := |events| - 1;
      RunStaysClean(re2, layout, st, events[..n]);
      StepStaysClean(re2, layout, Run(re2, layout, st, events[..n]), events[n]);
    }
  }

  // ----- the class -----

  class Engine {
    const re2: Re2
    const getById: string -> Option<Layout>
    var currentData: Option<Layout>
    var currentId: string
    var context: string
    var transat: int
    var historyContext: string
    var historyTransat: int
    var historyAmbi: string

    function Now(): State
      reads this
    {
      State(context, transat, historyContext, historyTransat, historyAmbi)
    }

    ghost predicate Valid()
      reads this
    {
      && IsRe2(re2) && Bounded(Now())
      && (currentData.Some? && currentData.value.rules == [] ==> context == "")
      && (currentData.None? ==> context == "")
    }

    constructor (re2: Re2, getById: string -> Option<Layout>)
      requires IsRe2(re2)
      ensures Valid() && Now() == INITIAL && currentData == None && currentId == ""
      ensures this.re2 == re2 && this.getById == getById
    {
      this.re2, this.getById := re2, getById;
      currentData, currentId := None, "";
      context, transat := "", -1;
      historyContext, historyTransat, historyAmbi := "", -1, "";
    }

    method Activate(id: string)
      requires Valid()
      modifies this
      ensures Valid() && currentId == id
      ensures if id == old(currentId) then Now() == old(Now()) && currentData == old(currentData)
              else Now() == INITIAL && currentData == getById(id)
    {
      if currentId != id {
        Reset();
        currentId := id;
        currentData := getById(id);
      }
    }

    method Reset()
      requires Valid()
      modifies this`context, this`transat, this`historyContext, this`historyTransat, this`historyAmbi
      ensures Valid() && Now() == INITIAL
    {
      context := "";
      transat := -1;
      ClearHistory();
    }

    method ClearHistory()
      modifies this`historyContext, this`historyTransat, this`historyAmbi
      ensures Now() == Forget(old(Now()))
    {
      historyContext := "";
      historyTransat := -1;
      historyAmbi := "";
    }

    method ProcessBackspace() returns (res: Result)
      requires Valid() && context != ""
      modifies this`context, this`transat, this`historyContext, this`historyTransat, this`historyAmbi
      ensures Valid() && Now() == AfterBackspace(old(Now()))
      ensures transat == if old(transat) <= |context| then old(transat) else |context|
      ensures old(historyAmbi) != "" ==> historyAmbi == old(historyAmbi)[..|old(historyAmbi)| - 1]
      ensures |old(historyAmbi)| == 1 ==> historyContext == "" && historyTransat == -1
      ensures res == Result(true, "", context)
    {
      hide IsRe2;
      context := context[..|context| - 1];
      if transat > |context| {
        transat := |context|;
      }
      if historyAmbi != "" {
        historyAmbi := historyAmbi[..|historyAmbi| - 1];
        if historyAmbi == "" {
          ClearHistory();
        }
      }
      return Result(true, "", context);
    }

    // RulesData::Transform, with the map ParseTransforms built.
    method Transformed(layout: Layout, context: string, transat: int, appended: string) returns (r: Option<string>)
      requires IsRe2(re2) && layout.rules != [] && transat <= |context|
      ensures r == Transform(re2, layout.rules, context, transat, appended)
    {
      hide IsRe2, Transform;
      var done, text := TransformInPlace(re2, layout.rules, RuleMap(layout.rules, |layout.rules|), context, transat,
          appended);
      r := if done then Some(text) else None;
    }

    // The part of ProcessKey that brings the history up to date.
    method UpdateHistory(layout: Layout, keyChar: string)
      modifies this`historyContext, this`historyTransat, this`historyAmbi
      ensures Now() == Remember(re2, layout, old(Now()), keyChar)
    {
      if Prunes(re2, layout, historyAmbi + keyChar) {
        if historyAmbi == "" {
          historyContext := context;
          historyTransat := transat;
          historyAmbi := keyChar;
        } else {
          historyAmbi := historyAmbi + keyChar;
        }
      } else if Prunes(re2, layout, keyChar) {
        historyContext := context;
        historyTransat := transat;
        historyAmbi := keyChar;
      } else {
        ClearHistory();
      }
    }

    method ProcessKey(code: DomCode, modifiers: nat) returns (res: Result)
      requires Valid()
      modifies this`context, this`transat, this`historyContext, this`historyTransat, this`historyAmbi
      ensures Valid()
      ensures old(currentData).None? ==> Now() == INITIAL && res == Result(false, old(context), "")
      ensures old(currentData).Some? ==>
                (Now(), res) == Step(re2, old(currentData).value, old(Now()), Key(code, modifiers))
    {
      hide IsRe2, Attempt, Prunes, Transform, Predicts;
      res := Result(false, context, "");
      if currentData.None? || modifiers > 7 {
        Reset();
        return;
      }
      var layout := currentData.value;
      var keyMap := layout.keyMaps[modifiers];
      if code !in keyMap {
        if code == Backspace && context != "" {
          res := ProcessBackspace();
          return;
        }
        Reset();
        return;
      }
      var keyChar := keyMap[code];
      if layout.rules == [] {
        return Result(true, keyChar, "");
      }
      res := TransformKey(layout, keyChar);
    }

    // The rest of ProcessKey, for a layout with rules.
    method TransformKey(layout: Layout, keyChar: string) returns (res: Result)
      requires Valid() && currentData == Some(layout) && layout.rules != []
      modifies this`context, this`transat, this`historyContext, this`historyTransat, this`historyAmbi
      ensures Valid() && (Now(), res) == KeyStep(re2, layout, old(Now()), keyChar)
    {
      hide IsRe2, Prunes, Transform, Predicts, Remember;
      var composition: Option<string> := None;
      if historyAmbi != "" {
        composition := Transformed(layout, historyContext, historyTransat, historyAmbi + keyChar);
      }
      if composition.None? {
        composition := Transformed(layout, context, transat, keyChar);
      }
      assert composition == Attempt(re2, layout, old(Now()), keyChar);
      UpdateHistory(layout, keyChar);
      if composition.Some? {
        context := composition.value;
        transat := |composition.value|;
      } else {
        context := context + keyChar;
      }
      assert Now() == Advance(re2, layout, old(Now()), keyChar);
      var more := PredictTransform(re2, layout.rules, context, transat);
      if more && historyAmbi != "" {
        more := PredictTransform(re2, layout.rules, historyContext + historyAmbi, historyTransat);
      }
      if !more {
        res := Result(true, context, "");
        Reset();
        return;
      }
      return Result(true, "", context);
    }
  }
}
