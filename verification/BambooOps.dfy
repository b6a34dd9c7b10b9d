/**
 Runs that mix keys, backspaces and restores.
 */
module BambooOps {
  import opened Options
  import opened BambooChars
  import opened BambooSpelling
  import opened BambooFlattener
  import opened BambooUtils
  import opened BambooKeys
  import opened BambooShape
  import opened BambooGenerators
  import opened BambooSteps
  import opened BambooWords
  import opened BambooRuns
  import opened BambooRestore
  import opened BambooStack
  import opened BambooBackspace
  import opened BambooVisible

  datatype Op = Type(key: char, english: bool) | Backspace(refresh: bool) | Restore

  function Apply(c: Config, st: State, op: Op): State {
    match op
    case Type(key, english) => ProcessKey(c, st, key, english)
    case Backspace(refresh) => RemoveLastChar(c, st, refresh)
    case Restore => RestoreLastWord(c, st, false)
  }

  function RunOps(c: Config, ops: seq<Op>): State {
    if ops == [] then EMPTY else Apply(c, RunOps(c, ops[..|ops| - 1]), ops[|ops| - 1])
  }

  ghost predicate GoodOp(cs: Charset, op: Op) {
    op.Type? ==> cs.lower(op.key) != NUL
  }

  // ----- the invariant over every run -----

  lemma {:induction false} BrokenKeys(cs: Charset, keys: seq<char>, word: Composition, nid: nat)
    requires forall t :: t in word ==> EntryOk(cs, keys, t)
    requires forall k :: k in keys ==> cs.lower(k) == k
    ensures forall t :: t in BreakComposition(word, nid) ==>
              t.rule.key == t.rule.effectOn == t.rule.result && cs.lower(t.rule.key) == t.rule.key && t.rule.key != NUL
                && IsAppending(t)
  {
    if word != [] {
      var n := |word| - 1;
      assert word[n] in word;
      BrokenKeys(cs, keys, word[..n], nid);
    }
  }

  lemma RestoreStaysPlain(c: Config, st: State)
    requires GoodMethod(c.env.cs, c.im) && PlainInv(c, st)
    ensures Plain(c.env.cs, RestoreLastWord(c, st, false).comp)
  {
    hide ExtractLastWord, Separated, EntryOk, IsPlain;
    var cs := c.env.cs;
    var (previous, word) := ExtractLastWord(cs, st.comp, c.im.keys);
    CutIsLossless(cs, st.comp, c.im.keys);
    assert forall t :: t in word ==> t in st.comp;
    PlainConcat(cs, previous, word);
    var broken := BreakComposition(word, st.nextId);
    BrokenKeys(cs, c.im.keys, word, st.nextId);
    PlainLetters(cs, broken);
    PlainConcat(cs, previous, broken);
  }

  lemma PlainLetters(cs: Charset, letters: Composition)
    requires forall t :: t in letters ==>
               t.rule.key == t.rule.effectOn == t.rule.result && cs.lower(t.rule.key) == t.rule.key && t.rule.key != NUL
                 && IsAppending(t)
    ensures Plain(cs, letters)
  {
  }

  // The pointer shape and the separation of words hold after any run of keys, backspaces and restores, for every
  // method without virtual letters.
  lemma {:induction false} RunsKeepShape(c: Config, ops: seq<Op>)
    requires GoodMethod(c.env.cs, c.im) && NoAppended(c.im) && forall op :: op in ops ==> GoodOp(c.env.cs, op)
    ensures VisibleInv(c, RunOps(c, ops))
  {
    hide Inv, GoodMethod, NoAppended, ProcessKey, RemoveLastChar, RestoreLastWord, NoVirtual;
    if ops == [] {
      EmptyInv(c);
      NoLettersAreVisible([]);
    } else {
      var n := |ops| - 1;
      var st := RunOps(c, ops[..n]);
      assert ops[n] in ops;
      RunsKeepShape(c, ops[..n]);
      match ops[n]
      case Type(key, english) => KeyKeepsVisible(c, st, key, english);
      case Backspace(refresh) => BackspaceKeepsVisible(c, st, refresh);
      case Restore => RestoreKeepsVisible(c, st);
    }
  }

  // Without Appending rules the letters are plain as well.
  lemma {:induction false} RunsKeepInvariant(c: Config, ops: seq<Op>)
    requires GoodMethod(c.env.cs, c.im) && NoAppending(c.im) && forall op :: op in ops ==> GoodOp(c.env.cs, op)
    ensures PlainInv(c, RunOps(c, ops))
  {
    hide Inv, GoodMethod, NoAppending, ProcessKey, RemoveLastChar, RestoreLastWord, Plain;
    if ops == [] {
      EmptyInv(c);
      QuietIsPlain(c.env.cs, []);
    } else {
      var n := |ops| - 1;
      assert ops[n] in ops;
      RunsKeepInvariant(c, ops[..n]);
      StepKeepsInvariant(c, RunOps(c, ops[..n]), ops[n]);
    }
  }

  lemma StepKeepsInvariant(c: Config, st: State, op: Op)
    requires GoodMethod(c.env.cs, c.im) && NoAppending(c.im) && GoodOp(c.env.cs, op) && PlainInv(c, st)
    ensures PlainInv(c, Apply(c, st, op))
  {
    hide Inv, GoodMethod, NoAppending, ProcessKey, RemoveLastChar, RestoreLastWord, Plain;
    match op
    case Type(key, english) =>
      KeyPushes(c, st, key, english);
    case Backspace(refresh) =>
      PlainHasNoVirtual(c.env.cs, st.comp);
      BackspacePops(c, st, refresh);
      BackspaceStaysPlain(c, st, refresh);
    case Restore =>
      RestoreExposesKeys(c, st);
      RestoreStaysPlain(c, st);
  }

  // ----- tones that lose their target -----

  // The one way an effect ends up without a target: the refresh finds vowels but no vowel to carry the tone.
  predicate RefreshDrops(c: Config, comp: Composition) {
    && c.flags.free && IsValid(c.env, comp, false)
    && !ExtractCvcTrans(c.env.cs, comp).voIsNil && LastToneIndex(comp) > 0
    && FindToneTarget(c.env.cs, comp, c.flags.std).None?
  }

  lemma AllTargetedConcat(a: Composition, b: Composition)
    ensures AllTargeted(a + b) <==> AllTargeted(a) && AllTargeted(b)
  {
    if AllTargeted(a + b) {
      assert forall t :: t in a ==> t in a + b;
      assert forall t :: t in b ==> t in a + b;
    }
  }

  lemma RefreshTargets(c: Config, comp: Composition, nid: nat)
    requires forall t :: t in comp ==> IsAppending(t) ==> t.target.None?
    ensures var (refreshed, extra) := Refresh(c, comp, nid);
            AllTargeted(refreshed + extra) <==> AllTargeted(comp) && !RefreshDrops(c, comp)
  {
    hide FindToneTarget, ExtractCvcTrans, IsValid, AllTargeted;
    var (refreshed, extra) := Refresh(c, comp, nid);
    if extra == [] {
      assert refreshed + extra == comp;
    } else {
      var i := LastToneIndex(comp) - 1;
      var target := FindToneTarget(c.env.cs, comp, c.flags.std);
      assert extra == [Candidate(nid, UNDO_TONE, target), Candidate(nid + 1, comp[i].rule.(key := NUL), target)];
      AllTargetedConcat(refreshed, extra);
      TargetedCopies(comp, i, target, nid);
    }
  }

  lemma TargetedCopies(comp: Composition, i: nat, target: Option<nat>, nid: nat)
    requires i < |comp| && comp[i].rule.effectType == ToneTransformation && comp[i].target.Some?
    ensures AllTargeted([Candidate(nid, UNDO_TONE, target), Candidate(nid + 1, comp[i].rule.(key := NUL), target)])
            <==> target.Some?
    ensures target.Some? ==> (AllTargeted(comp[i := comp[i].(target := target)]) <==> AllTargeted(comp))
  {
    var extra := [Candidate(nid, UNDO_TONE, target), Candidate(nid + 1, comp[i].rule.(key := NUL), target)];
    assert extra[0] in extra;
    if target.Some? {
      var next := comp[i := comp[i].(target := target)];
      if AllTargeted(comp) {
        forall t | t in next && !IsAppending(t) ensures t.target.Some? {
          var j :| 0 <= j < |next| && next[j] == t;
          assert comp[j] in comp;
        }
      }
      if AllTargeted(next) {
        forall t | t in comp && !IsAppending(t) ensures t.target.Some? {
          var j :| 0 <= j < |comp| && comp[j] == t;
          assert next[j] in next;
        }
      }
    }
  }

  // The composition a step hands to the tone refresh.
  function Refreshed(c: Config, st: State, op: Op): Composition {
    match op
    case Type(key, english) =>
      if IsProcessed(c, key, english) then
        var syllable := ExtractLastSyllable(c.env, st.comp).1;
        syllable + KeyTransformations(c, syllable, c.env.cs.lower(key), c.env.cs.isUpper(key), st.nextId)
      else []
    case Backspace(refresh) =>
      var last := FindLastAppending(st.comp);
      if refresh && last.Some? && CanProcessKey(c.env.cs, last.value.rule.key, c.im.keys)
      then Without(ExtractLastWord(c.env.cs, st.comp, c.im.keys).1, last.value)
      else []
    case Restore => []
  }

  predicate StepDrops(c: Config, st: State, op: Op) {
    RefreshDrops(c, Refreshed(c, st, op))
  }

  lemma RootsOfShape(cs: Charset, keys: seq<char>, comp: Composition)
    requires forall t :: t in comp ==> EntryOk(cs, keys, t)
    ensures forall t :: t in comp ==> IsAppending(t) ==> t.target.None?
  {
    forall t | t in comp && IsAppending(t) ensures t.target.None? {
      EntryHasNoTarget(cs, keys, t);
    }
  }

  // A key leaves every effect with a target, exactly when its refresh does not drop the tone.
  lemma KeyKeepsTargets(c: Config, st: State, key: char)
    requires GoodMethod(c.env.cs, c.im) && Inv(c, st) && IsProcessed(c, key, false) && c.env.cs.lower(key) != NUL
    ensures AllTargeted(ProcessKey(c, st, key, false).comp)
       <==> AllTargeted(st.comp) && !StepDrops(c, st, Type(key, false))
  {
    hide ExtractLastSyllable, Separated, GoodMethod, TargetsIn, IsTypedKey, KeyTransformations, Refresh, RefreshDrops,
         EntryOk, Distinct, AllTargeted, Typed, IsRawDouble, CharsetData.Good, WellFormed;
    var cs, keys := c.env.cs, c.im.keys;
    var lowerKey, isUpperCase := cs.lower(key), cs.isUpper(key);
    var (previous, syllable) := ExtractLastSyllable(c.env, st.comp);
    assert previous + syllable == st.comp;
    WellFormedParts(cs, keys, previous, syllable, st.nextId);
    TypedKeyIsProcessed(c, key);
    TransformationsShape(c, syllable, lowerKey, isUpperCase, st.nextId);
    var ts := KeyTransformations(c, syllable, lowerKey, isUpperCase, st.nextId);
    AppendGenerated(cs, keys, syllable, ts, st.nextId);
    var full := syllable + ts;
    GrownIsWellFormed(cs, keys, syllable, full, st.nextId);
    RootsOfShape(cs, keys, full);
    RefreshTargets(c, full, st.nextId + |full| - |syllable|);
    AllTargetedConcat(previous, syllable);
    AllTargetedConcat(syllable, ts);
    AllTargetedConcat(previous, NewSyllable(c, syllable, lowerKey, isUpperCase, st.nextId));
  }

  lemma UnprocessedKeepsTargets(c: Config, st: State, key: char, english: bool)
    requires !IsProcessed(c, key, english) && AllTargeted(st.comp)
    ensures AllTargeted(ProcessKey(c, st, key, english).comp)
  {
  }

  lemma BackspaceKeepsTargets(c: Config, st: State, refresh: bool)
    requires GoodMethod(c.env.cs, c.im) && Inv(c, st) && AllTargeted(st.comp) && !StepDrops(c, st, Backspace(refresh))
    ensures AllTargeted(RemoveLastChar(c, st, refresh).comp)
  {
    hide ExtractLastWord, Separated, GoodMethod, TargetsIn, Refresh, RefreshDrops, EntryOk, Distinct, AllTargeted,
         CanProcessKey, CharsetData.Good;
    var last := FindLastAppending(st.comp);
    if last.Some? {
      if CanProcessKey(c.env.cs, last.value.rule.key, c.im.keys) {
        var (previous, word) := ExtractLastWord(c.env.cs, st.comp, c.im.keys);
        CutIsLossless(c.env.cs, st.comp, c.im.keys);
        var rest := Without(word, last.value);
        AllTargetedConcat(previous, word);
        RestTargeted(word, last.value);
        AllTargetedConcat(previous, rest);
        if refresh {
          WithoutMembers(word, last.value);
          RootsOfShape(c.env.cs, c.im.keys, rest);
          RefreshTargets(c, rest, st.nextId);
          var (refreshed, extra) := Refresh(c, rest, st.nextId);
          AllTargetedConcat(previous, refreshed + extra);
          assert previous + (refreshed + extra) == previous + refreshed + extra;
        } else {
          assert previous + rest + [] == previous + rest;
        }
      } else {
        var n := |st.comp| - 1;
        assert st.comp == st.comp[..n] + [st.comp[n]];
        AllTargetedConcat(st.comp[..n], [st.comp[n]]);
      }
    }
  }

  lemma RestTargeted(comp: Composition, letter: Trans)
    requires AllTargeted(comp)
    ensures AllTargeted(Without(comp, letter))
  {
    WithoutMembers(comp, letter);
  }

  lemma RestoreKeepsTargets(c: Config, st: State)
    requires AllTargeted(st.comp)
    ensures AllTargeted(RestoreLastWord(c, st, false).comp)
  {
    hide ExtractLastWord, AllTargeted;
    var (previous, word) := ExtractLastWord(c.env.cs, st.comp, c.im.keys);
    CutIsLossless(c.env.cs, st.comp, c.im.keys);
    AllTargetedConcat(previous, word);
    BrokenText(c.env.cs, word, st.nextId);
    LettersTargeted(BreakComposition(word, st.nextId));
    AllTargetedConcat(previous, BreakComposition(word, st.nextId));
  }

  lemma LettersTargeted(letters: Composition)
    requires forall t :: t in letters ==> IsAppending(t)
    ensures AllTargeted(letters)
  {
  }

  // With every effect targeted, nothing follows a letter that ends a word.
  lemma TargetedPops(c: Config, st: State)
    requires GoodMethod(c.env.cs, c.im) && Inv(c, st) && NoVirtual(st.comp) && AllTargeted(st.comp)
    ensures FindLastAppending(st.comp).Some? ==> Pops(c, st)
  {
    hide CanProcessKey, EntryOk, IsBreak, GoodMethod;
    var last := FindLastAppending(st.comp);
    if last.Some? && !CanProcessKey(c.env.cs, last.value.rule.key, c.im.keys) {
      ProcessableIsNoBreak(c, st, last.value);
      var p := LastAppendingIndex(st.comp);
      assert TargetsIn(st.comp[p + 1..], st.comp[p + 1..]);
      forall t | t in st.comp[p + 1..] ensures !IsAppending(t) ==> t.target.Some? {
        assert t in st.comp;
      }
      if p + 1 < |st.comp| {
        EffectsNeedLetters(st.comp[p + 1..]);
      }
    }
  }

  lemma EffectsNeedLetters(tail: Composition)
    requires TargetsIn(tail, tail) && AllTargeted(tail) && tail != []
    ensures exists t :: t in tail && IsAppending(t)
  {
    assert tail[0] in tail;
    if !IsAppending(tail[0]) {
      assert HasLetter(tail, tail[0].target.value);
    }
  }

  lemma {:induction false} LastAppendingIndex(comp: Composition) returns (p: nat)
    requires FindLastAppending(comp).Some?
    ensures p < |comp| && comp[p] == FindLastAppending(comp).value
    ensures forall t :: t in comp[p + 1..] ==> !IsAppending(t)
  {
    var n := |comp| - 1;
    if IsAppending(comp[n]) {
      p := n;
    } else {
      p := LastAppendingIndex(comp[..n]);
      assert comp[p + 1..] == comp[..n][p + 1..] + [comp[n]];
    }
  }

  // ----- backspaces of a run -----

  // On a nonempty text a backspace pops exactly one letter, or, exactly when Pops is false, none.
  lemma BackspacePopsIff(c: Config, ops: seq<Op>, refresh: bool)
    requires GoodMethod(c.env.cs, c.im) && NoAppended(c.im) && forall op :: op in ops ==> GoodOp(c.env.cs, op)
    ensures var before := Letters(RunOps(c, ops).comp, false);
            var after := Letters(RunOps(c, ops + [Backspace(refresh)]).comp, false);
            if before == [] then after == []
            else
              && (after == before[..|before| - 1] <==> Pops(c, RunOps(c, ops)))
              && (after == before <==> !Pops(c, RunOps(c, ops)))
  {
    hide Inv, GoodMethod, NoAppended, RemoveLastChar, Letters, Pops, NoVirtual;
    var st := RunOps(c, ops);
    RunsKeepShape(c, ops);
    BackspacePops(c, st, refresh);
    assert (ops + [Backspace(refresh)])[..|ops|] == ops;
  }

  // A run none of whose refreshes drops a tone.
  predicate DropsNothing(c: Config, ops: seq<Op>) {
    ops == []
    || (DropsNothing(c, ops[..|ops| - 1]) && !StepDrops(c, RunOps(c, ops[..|ops| - 1]), ops[|ops| - 1]))
  }

  // Without free tone marking there is no refresh, and nothing is dropped.
  lemma {:induction false} FixedTonesDropNothing(c: Config, ops: seq<Op>)
    requires !c.flags.free
    ensures DropsNothing(c, ops)
  {
    hide RunOps, Refreshed;
    if ops != [] {
      FixedTonesDropNothing(c, ops[..|ops| - 1]);
    }
  }

  // Then every backspace on a nonempty text pops exactly one letter.
  lemma BackspaceAlwaysPops(c: Config, ops: seq<Op>, refresh: bool)
    requires GoodMethod(c.env.cs, c.im) && NoAppended(c.im) && forall op :: op in ops ==> GoodOp(c.env.cs, op)
    requires !c.flags.free || DropsNothing(c, ops)
    ensures AllTargeted(RunOps(c, ops).comp)
    ensures var before := Letters(RunOps(c, ops).comp, false);
            before != [] ==> Letters(RunOps(c, ops + [Backspace(refresh)]).comp, false) == before[..|before| - 1]
  {
    hide Inv, GoodMethod, NoAppended, RemoveLastChar, StepDrops, AllTargeted, Letters, DropsNothing, NoVirtual, Pops,
         FindLastAppending;
    var st := RunOps(c, ops);
    if !c.flags.free {
      FixedTonesDropNothing(c, ops);
    }
    RunsKeepShape(c, ops);
    RunStaysTargeted(c, ops);
    TargetedPops(c, st);
    LastLetter(st.comp);
    BackspacePopsIff(c, ops, refresh);
  }

  lemma {:induction false} RunStaysTargeted(c: Config, ops: seq<Op>)
    requires GoodMethod(c.env.cs, c.im) && NoAppended(c.im) && forall op :: op in ops ==> GoodOp(c.env.cs, op)
    requires DropsNothing(c, ops)
    ensures AllTargeted(RunOps(c, ops).comp)
  {
    hide Inv, GoodMethod, NoAppended, ProcessKey, RemoveLastChar, RestoreLastWord, StepDrops, IsProcessed, NoVirtual;
    if ops != [] {
      var n := |ops| - 1;
      var st := RunOps(c, ops[..n]);
      assert ops[n] in ops;
      RunsKeepShape(c, ops[..n]);
      RunStaysTargeted(c, ops[..n]);
      match ops[n]
      case Type(key, english) =>
        if IsProcessed(c, key, english) {
          ProcessedIsVietnamese(c, key, english);
          KeyKeepsTargets(c, st, key);
        } else {
          UnprocessedKeepsTargets(c, st, key, english);
        }
      case Backspace(refresh) => BackspaceKeepsTargets(c, st, refresh);
      case Restore => RestoreKeepsTargets(c, st);
    }
  }

  lemma ProcessedIsVietnamese(c: Config, key: char, english: bool)
    requires IsProcessed(c, key, english)
    ensures !english
  {
  }
}
