/**
 Between the engine and the host: which events reach the engine, and what the host is told.
 */
module RuleAdapter {
  import opened Options
  import opened RulesData
  import opened RuleEngine

  datatype Modifiers = Modifiers(shift: bool, altGraph: bool, capsLock: bool, control: bool, alt: bool)
  datatype KeyEvent = KeyEvent(down: bool, code: DomCode, modifiers: Modifiers)
  datatype KeyEventResult = ConsumedByIme | NeedsHandlingBySystem

  const MODIFIER_SHIFT := 1
  const MODIFIER_ALTGR := 2
  const MODIFIER_CAPSLOCK := 4

  function GenerateModifierValue(m: Modifiers, isAltRightKeyDown: bool): (r: nat)
    ensures r < KEY_MAP_COUNT
    ensures m.shift <==> r % 2 == 1
    ensures m.altGraph || isAltRightKeyDown <==> r / 2 % 2 == 1
    ensures m.capsLock <==> r / 4 == 1
  {
    (if m.shift then MODIFIER_SHIFT else 0)
    + (if m.altGraph || isAltRightKeyDown then MODIFIER_ALTGR else 0)
    + (if m.capsLock then MODIFIER_CAPSLOCK else 0)
  }

  predicate IsModifierKey(code: DomCode) {
    code in {AltLeft, AltRight, ShiftLeft, ShiftRight, ControlLeft, ControlRight, CapsLock}
  }

  // ----- the host -----

  // The text before the cursor and the text under composition.
  datatype Screen = Screen(text: string, preedit: string)

  function Committing(screen: Screen, text: string): Screen {
    Screen(screen.text + text, "")
  }

  function Composing(screen: Screen, text: string): Screen {
    screen.(preedit := text)
  }

  class Host {
    var screen: Screen

    constructor ()
      ensures screen == Screen("", "")
    {
      screen := Screen("", "");
    }

    method CommitText(text: string)
      modifies this
      ensures screen == Committing(old(screen), text)
    {
      screen := Committing(screen, text);
    }

    method SetComposition(text: string)
      modifies this
      ensures screen == Composing(old(screen), text)
    {
      screen := Composing(screen, text);
    }
  }

  // ----- what the host is told -----

  function Shown(norm: string -> string, screen: Screen, r: Result): Screen {
    var committed := if r.commitText != "" then Committing(screen, norm(r.commitText)) else screen;
    if r.compositionText != "" || (r.keyHandled && r.commitText == "")
    then Composing(committed, norm(r.compositionText)) else committed
  }

  method HandleEngineResult(norm: string -> string, r: Result, host: Host) returns (answer: KeyEventResult)
    modifies host
    ensures host.screen == Shown(norm, old(host.screen), r)
    ensures answer == ConsumedByIme <==> r.keyHandled
  {
    if r.commitText != "" {
      host.CommitText(norm(r.commitText));
    }
    if r.compositionText != "" || (r.keyHandled && r.commitText == "") {
      host.SetComposition(norm(r.compositionText));
    }
    return if r.keyHandled then ConsumedByIme else NeedsHandlingBySystem;
  }

  // The host shows the engine's text.
  predicate Agrees(norm: string -> string, screen: Screen, st: State) {
    screen.preedit == norm(st.context)
  }

  // ----- runs over both layers -----

  datatype Joint = Joint(st: State, altRightDown: bool, screen: Screen)

  // What the filter lets through to the engine.
  predicate Reaches(ev: KeyEvent, altRightDown: bool) {
    ev.down && !IsModifierKey(ev.code) && !ev.modifiers.control && (ev.modifiers.alt ==> altRightDown)
  }

  function AltRightAfter(ev: KeyEvent, altRightDown: bool): bool {
    if ev.code == AltRight then ev.down else altRightDown
  }

  function EngineEvent(ev: KeyEvent, altRightDown: bool): Event {
    Key(ev.code, GenerateModifierValue(ev.modifiers, altRightDown))
  }

  ghost function JointStep(re2: Re2, layout: Layout, norm: string -> string, j: Joint, ev: KeyEvent): Joint
    requires IsRe2(re2) && Bounded(j.st)
  {
    var down := AltRightAfter(ev, j.altRightDown);
    if Reaches(ev, down) then
      var (next, r) := Step(re2, layout, j.st, EngineEvent(ev, down));
      Joint(next, down, Shown(norm, j.screen, r))
    else j.(altRightDown := down)
  }

  predicate InStep(layout: Layout, norm: string -> string, j: Joint) {
    Bounded(j.st) && (layout.rules == [] ==> j.st.context == "") && Agrees(norm, j.screen, j.st)
  }

  // One event keeps host and engine in step, and adds exactly the committed text in front of the cursor.
  lemma StepKeepsInStep(re2: Re2, layout: Layout, norm: string -> string, j: Joint, ev: KeyEvent)
    requires IsRe2(re2) && norm("") == "" && InStep(layout, norm, j)
    ensures InStep(layout, norm, JointStep(re2, layout, norm, j, ev))
    ensures var down := AltRightAfter(ev, j.altRightDown);
            JointStep(re2, layout, norm, j, ev).screen.text
            == j.screen.text + if Reaches(ev, down)
              then norm(Step(re2, layout, j.st, EngineEvent(ev, down)).1.commitText) else ""
  {
    hide IsRe2, Step, GenerateModifierValue;
    var down := AltRightAfter(ev, j.altRightDown);
    if Reaches(ev, down) {
      StepStaysInRange(re2, layout, j.st, EngineEvent(ev, down));
      StepEdits(re2, layout, j.st, EngineEvent(ev, down));
      StepAnswers(re2, layout, j.st, EngineEvent(ev, down));
      var r := Step(re2, layout, j.st, EngineEvent(ev, down)).1;
      if r.commitText == "" {
        assert j.screen.text + "" == j.screen.text;
      }
    }
  }

  // Either everything is committed, or everything stays in composition; an unhandled key without text changed nothing.
  lemma StepAnswers(re2: Re2, layout: Layout, st: State, ev: Event)
    requires IsRe2(re2) && Bounded(st) && (layout.rules == [] ==> st.context == "") && ev.Key?
    ensures var (next, r) := Step(re2, layout, st, ev);
            && (r.commitText != "" ==> next.context == "")
            && (!r.keyHandled && r.commitText == "" ==> st.context == "" && next.context == "")
  {
    hide Advance, MustCommit, IsRe2;
  }

  ghost function JointRun(re2: Re2, layout: Layout, norm: string -> string, j: Joint, events: seq<KeyEvent>): (r: Joint)
    requires IsRe2(re2) && Bounded(j.st)
    ensures Bounded(r.st)
  {
    if events == [] then j
    else
      var n := |events| - 1;
      var before := JointRun(re2, layout, norm, j, events[..n]);
      JointStepStaysBounded(re2, layout, norm, before, events[n]);
      JointStep(re2, layout, norm, before, events[n])
  }

  lemma JointStepStaysBounded(re2: Re2, layout: Layout, norm: string -> string, j: Joint, ev: KeyEvent)
    requires IsRe2(re2) && Bounded(j.st)
    ensures Bounded(JointStep(re2, layout, norm, j, ev).st)
  {
    hide Step, IsRe2, GenerateModifierValue;
    StepStaysInRange(re2, layout, j.st, EngineEvent(ev, AltRightAfter(ev, j.altRightDown)));
  }

  // After any sequence of key events the host shows the normalised text of the engine; with key maps only, nothing.
  lemma {:induction false} PreeditAgrees(re2: Re2, layout: Layout, norm: string -> string, j: Joint,
                                         events: seq<KeyEvent>)
    requires IsRe2(re2) && norm("") == "" && InStep(layout, norm, j)
    ensures InStep(layout, norm, JointRun(re2, layout, norm, j, events))
    ensures layout.rules == [] ==> JointRun(re2, layout, norm, j, events).screen.preedit == ""
  {
    hide IsRe2, JointStep;
    if events != [] {
      var n := |events| - 1;
      PreeditAgrees(re2, layout, norm, j, events[..n]);
      StepKeepsInStep(re2, layout, norm, JointRun(re2, layout, norm, j, events[..n]), events[n]);
    }
  }

  // ----- the class -----

  class RuleBasedEngine {
    const engine: Engine
    const host: Host
    const norm: string -> string
    var isAltRightKeyDown: bool

    ghost predicate Valid()
      reads this, engine, host
    {
      engine.Valid() && norm("") == "" && Agrees(norm, host.screen, engine.Now())
    }

    // The screen of the input field starts empty.
    constructor (re2: Re2, getById: string -> Option<Layout>, norm: string -> string, host: Host, id: string)
      requires IsRe2(re2) && norm("") == "" && host.screen.preedit == ""
      ensures Valid() && fresh(engine) && this.host == host && this.norm == norm && !isAltRightKeyDown
      ensures engine.Now() == INITIAL && (id != "" ==> engine.currentData == getById(id))
    {
      engine := new Engine(re2, getById);
      this.host, this.norm := host, norm;
      isAltRightKeyDown := false;
      new;
      engine.Activate(id);
    }

    // The system has dropped the composition on its side.
    method OnCompositionCanceledBySystem()
      requires engine.Valid() && norm("") == "" && host.screen.preedit == ""
      modifies this, engine
      ensures Valid() && engine.Now() == INITIAL && !isAltRightKeyDown
      ensures engine.currentData == old(engine.currentData) && host.screen == old(host.screen)
    {
      engine.Reset();
      isAltRightKeyDown := false;
    }

    ghost function Snapshot(): Joint
      reads this, engine, host
    {
      Joint(engine.Now(), isAltRightKeyDown, host.screen)
    }

    method ProcessKeyEvent(ev: KeyEvent) returns (answer: KeyEventResult)
      requires Valid()
      modifies this, engine, host
      ensures Valid() && engine.currentData == old(engine.currentData)
      ensures old(engine.currentData).Some? ==>
                Snapshot() == JointStep(engine.re2, old(engine.currentData).value, norm, old(Snapshot()), ev)
      ensures answer == ConsumedByIme ==> Reaches(ev, isAltRightKeyDown)
    {
      hide IsRe2, Step, GenerateModifierValue;
      if ev.code == AltRight {
        isAltRightKeyDown := ev.down;
      }
      var isAltDown := ev.modifiers.alt && !isAltRightKeyDown;
      if !ev.down || IsModifierKey(ev.code) || ev.modifiers.control || isAltDown {
        return NeedsHandlingBySystem;
      }
      if engine.currentData.Some? {
        StepKeepsInStep(engine.re2, engine.currentData.value, norm, Snapshot(), ev);
      }
      var r := engine.ProcessKey(ev.code, GenerateModifierValue(ev.modifiers, isAltRightKeyDown));
      answer := HandleEngineResult(norm, r, host);
    }
  }
}
