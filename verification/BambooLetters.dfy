/**
 When a key becomes a letter: it undoes the effects of its rules first, if there are any, and a letter that is
 typed may bring virtual ones and the missing horn with it.
 */
module BambooLetters {
  import opened Options
  import opened BambooChars
  import opened BambooSpelling
  import opened BambooFlattener
  import opened BambooUtils
  import opened BambooKeys
  import opened BambooShape
  import opened BambooGenerators
  import opened BambooSteps
  import opened BambooRuns
  import opened BambooPlacement
  import opened BambooFits
  import opened BambooAnswers

  // ----- undoing -----

  // Without its marks the target of this entry would read differently.
  ghost predicate MarkGoes(cs: Charset, comp: Composition, t: Trans, rule: Rule, nid: nat) {
    && rule.effectType == MarkTransformation && t.rule.result == rule.effectOn
    && Canvas(cs, comp + [Drop(nid, RootTarget(t))], TONELESS_LOWER) != Canvas(cs, comp, TONELESS_LOWER)
  }

  // Some tone rule of the key aims at this letter.
  ghost predicate ClearsTone(cs: Charset, comp: Composition, rules: seq<Rule>, flags: Flags, id: nat) {
    exists r :: r in rules && r.effectType == ToneTransformation && TonePlace(cs, comp, r.effect, flags) == Some(id)
  }

  // Some mark rule of the key works on what an entry made of this letter, and the letter shows a mark.
  ghost predicate ClearsMark(cs: Charset, comp: Composition, rules: seq<Rule>, nid: nat, id: nat) {
    exists r, t :: r in rules && t in comp && MarkGoes(cs, comp, t, r, nid) && RootTarget(t) == id
  }

  predicate Names(undo: Composition, rule: Rule, id: nat) {
    exists u :: u in undo && u.rule == rule && u.target == Some(id)
  }

  ghost predicate AreCandidates(undo: Composition, nid: nat) {
    forall k :: 0 <= k < |undo| ==>
      && undo[k].target.Some? && (undo[k].rule == UNDO_TONE || undo[k].rule == UNDO_MARK)
      && undo[k] == Candidate(nid + k, undo[k].rule, undo[k].target)
  }

  // Virtual entries that clear exactly the tones and marks of the letters the rules aim at.
  ghost predicate IsUndo(cs: Charset, comp: Composition, rules: seq<Rule>, flags: Flags, nid: nat, n: nat,
                         undo: Composition)
  {
    && AreCandidates(undo, nid)
    && (forall id: nat :: Names(undo, UNDO_TONE, id) <==> ClearsTone(cs, comp, rules, flags, id))
    && (forall id: nat :: Names(undo, UNDO_MARK, id) <==> ClearsMark(cs, comp, rules, n, id))
  }

  lemma NamesConcat(a: Composition, b: Composition, rule: Rule, id: nat)
    ensures Names(a + b, rule, id) <==> Names(a, rule, id) || Names(b, rule, id)
  {
    if Names(a, rule, id) {
      var u :| u in a && u.rule == rule && u.target == Some(id);
      assert u in a + b;
    }
    if Names(b, rule, id) {
      var u :| u in b && u.rule == rule && u.target == Some(id);
      assert u in a + b;
    }
  }

  lemma CandidatesConcat(a: Composition, b: Composition, nid: nat)
    requires AreCandidates(a, nid) && AreCandidates(b, nid + |a|)
    ensures AreCandidates(a + b, nid)
  {
  }

  lemma NamesOne(u: Trans, rule: Rule, id: nat)
    ensures Names([u], rule, id) <==> u.rule == rule && u.target == Some(id)
    ensures !Names([], rule, id)
  {
    assert u in [u];
  }

  // The identity of an effect does not show.
  lemma EffectIdIsSilent(cs: Charset, comp: Composition, a: Trans, b: Trans, mode: Mode)
    requires !mode.english && a.rule == b.rule && a.target == b.target && !IsAppending(a)
    ensures Canvas(cs, comp + [a], mode) == Canvas(cs, comp + [b], mode)
  {
    hide CharsetData.Good, Letters, EffectsOn, Finish;
    LettersConcat(comp, [a], false);
    LettersConcat(comp, [b], false);
    NoLetter(a);
    NoLetter(b);
    forall l ensures Glyph(cs, comp + [a], l, mode) == Glyph(cs, comp + [b], l, mode) {
      EffectsConcat(comp, [a], l.id);
      EffectsConcat(comp, [b], l.id);
      OneEffect(a, l.id);
      OneEffect(b, l.id);
      LastEffect(cs, l, EffectsOn(comp, l.id), a);
      LastEffect(cs, l, EffectsOn(comp, l.id), b);
    }
    assert Letters(comp + [a], false) == Letters(comp + [b], false);
  }

  lemma NoLetter(t: Trans)
    requires !IsAppending(t)
    ensures Letters([t], false) == []
  {
    assert [t][..0] == [];
  }

  lemma OneEffect(t: Trans, id: nat)
    requires !IsAppending(t)
    ensures EffectsOn([t], id) == if t.target == Some(id) then [t] else []
  {
    assert [t][..0] == [];
  }

  lemma LastEffect(cs: Charset, l: Trans, effects: Composition, t: Trans)
    ensures Fold(cs, l.rule.effectOn, l.rule.key, effects + [t])
         == ApplyEffect(cs, Fold(cs, l.rule.effectOn, l.rule.key, effects), l.rule.key, t)
    ensures effects + [] == effects
  {
    assert (effects + [t])[..|effects|] == effects;
  }

  lemma GoesIs(cs: Charset, comp: Composition, t: Trans, rule: Rule, nid: nat, n: nat)
    requires rule.effectType == MarkTransformation
    ensures UndoShows(cs, comp, t, rule, nid) <==> MarkGoes(cs, comp, t, rule, n)
  {
    hide CharsetData.Good, Canvas;
    EffectIdIsSilent(cs, comp, Candidate(nid, UNDO_MARK, Some(RootTarget(t))), Drop(n, RootTarget(t)), TONELESS_LOWER);
  }

  lemma {:induction false} UndoneMarks(cs: Charset, comp: Composition, rule: Rule, i: nat, nid: nat, n: nat, id: nat)
    requires i <= |comp| && rule.effectType == MarkTransformation
    ensures var undo := UndoMarks(cs, comp, rule, i, nid);
            && AreCandidates(undo, nid) && !Names(undo, UNDO_TONE, id)
            && (Names(undo, UNDO_MARK, id)
                <==> exists h :: 0 <= h < i && MarkGoes(cs, comp, comp[h], rule, n) && RootTarget(comp[h]) == id)
  {
    hide CharsetData.Good, UndoShows, MarkGoes, Names;
    if i == 0 {
      NamesOne(Drop(0, 0), UNDO_MARK, id);
      NamesOne(Drop(0, 0), UNDO_TONE, id);
    } else {
      GoesIs(cs, comp, comp[i - 1], rule, nid, n);
      if UndoShows(cs, comp, comp[i - 1], rule, nid) {
        UndoneMarks(cs, comp, rule, i - 1, nid + 1, n, id);
        var u, rest := Candidate(nid, UNDO_MARK, Some(RootTarget(comp[i - 1]))),
          UndoMarks(cs, comp, rule, i - 1, nid + 1);
        NamesOne(u, UNDO_MARK, id);
        NamesOne(u, UNDO_TONE, id);
        NamesConcat([u], rest, UNDO_MARK, id);
        NamesConcat([u], rest, UNDO_TONE, id);
        CandidatesConcat([u], rest, nid);
      } else {
        UndoneMarks(cs, comp, rule, i - 1, nid, n, id);
      }
    }
  }

  // What one rule clears.
  lemma RuleUndoes(cs: Charset, keys: seq<char>, comp: Composition, rule: Rule, flags: Flags, nid: nat, n: nat, id: nat)
    requires forall t :: t in comp ==> EntryOk(cs, keys, t)
    ensures var undo := UndoRule(cs, comp, rule, flags, nid);
            && AreCandidates(undo, nid)
            && (Names(undo, UNDO_TONE, id) <==> ClearsTone(cs, comp, [rule], flags, id))
            && (Names(undo, UNDO_MARK, id) <==> ClearsMark(cs, comp, [rule], n, id))
  {
    hide CharsetData.Good, EntryOk, MarkGoes, TonePlace, Names, ToneTargetFor;
    PlaceIsFound(cs, keys, comp, rule.effect, flags);
    assert rule in [rule];
    NamesOne(Drop(0, 0), UNDO_TONE, id);
    NamesOne(Drop(0, 0), UNDO_MARK, id);
    match rule.effectType
    case ToneTransformation =>
      var target := TonePlace(cs, comp, rule.effect, flags);
      NamesOne(Candidate(nid, UNDO_TONE, target), UNDO_TONE, id);
      NamesOne(Candidate(nid, UNDO_TONE, target), UNDO_MARK, id);
      NoMarkRule(cs, comp, rule, n, id);
    case MarkTransformation =>
      UndoneMarks(cs, comp, rule, |comp|, nid, n, id);
      MarksOfRule(cs, comp, rule, n, id);
    case _ =>
      NoMarkRule(cs, comp, rule, n, id);
  }

  lemma NoMarkRule(cs: Charset, comp: Composition, rule: Rule, n: nat, id: nat)
    requires rule.effectType != MarkTransformation
    ensures !ClearsMark(cs, comp, [rule], n, id)
  {
    hide CharsetData.Good, Canvas;
  }

  lemma MarksOfRule(cs: Charset, comp: Composition, rule: Rule, n: nat, id: nat)
    ensures ClearsMark(cs, comp, [rule], n, id)
            <==> exists h :: 0 <= h < |comp| && MarkGoes(cs, comp, comp[h], rule, n) && RootTarget(comp[h]) == id
  {
    hide CharsetData.Good, MarkGoes;
    if ClearsMark(cs, comp, [rule], n, id) {
      var r, t :| r in [rule] && t in comp && MarkGoes(cs, comp, t, r, n) && RootTarget(t) == id;
      var h :| 0 <= h < |comp| && comp[h] == t;
    }
    if h :| 0 <= h < |comp| && MarkGoes(cs, comp, comp[h], rule, n) && RootTarget(comp[h]) == id {
      assert rule in [rule] && comp[h] in comp;
    }
  }

  lemma ClearsMore(cs: Charset, comp: Composition, rules: seq<Rule>, flags: Flags, n: nat, id: nat)
    requires rules != []
    ensures ClearsTone(cs, comp, rules, flags, id)
            <==> ClearsTone(cs, comp, [rules[0]], flags, id) || ClearsTone(cs, comp, rules[1..], flags, id)
    ensures ClearsMark(cs, comp, rules, n, id)
            <==> ClearsMark(cs, comp, [rules[0]], n, id) || ClearsMark(cs, comp, rules[1..], n, id)
  {
    hide CharsetData.Good, MarkGoes, TonePlace;
    assert forall r :: r in rules <==> r in [rules[0]] || r in rules[1..];
  }

  lemma {:induction false} UndoIs(cs: Charset, keys: seq<char>, comp: Composition, rules: seq<Rule>, flags: Flags,
                                  nid: nat, n: nat)
    requires forall t :: t in comp ==> EntryOk(cs, keys, t)
    ensures IsUndo(cs, comp, rules, flags, nid, n, GenerateUndo(cs, comp, rules, flags, nid))
  {
    hide CharsetData.Good, EntryOk, ClearsTone, ClearsMark, UndoRule, Names, AreCandidates;
    if rules == [] {
      NothingClears(cs, comp, flags, n);
    } else {
      var first := UndoRule(cs, comp, rules[0], flags, nid);
      var rest := GenerateUndo(cs, comp, rules[1..], flags, nid + |first|);
      RuleUndoes(cs, keys, comp, rules[0], flags, nid, n, 0);
      UndoIs(cs, keys, comp, rules[1..], flags, nid + |first|, n);
      CandidatesConcat(first, rest, nid);
      forall id: nat
        ensures Names(first + rest, UNDO_TONE, id) <==> ClearsTone(cs, comp, rules, flags, id)
        ensures Names(first + rest, UNDO_MARK, id) <==> ClearsMark(cs, comp, rules, n, id)
      {
        RuleUndoes(cs, keys, comp, rules[0], flags, nid, n, id);
        NamesConcat(first, rest, UNDO_TONE, id);
        NamesConcat(first, rest, UNDO_MARK, id);
        ClearsMore(cs, comp, rules, flags, n, id);
      }
    }
  }

  lemma NothingClears(cs: Charset, comp: Composition, flags: Flags, n: nat)
    ensures AreCandidates([], n)
    ensures forall id: nat ::
              !ClearsTone(cs, comp, [], flags, id) && !ClearsMark(cs, comp, [], n, id)
              && !Names([], UNDO_TONE, id) && !Names([], UNDO_MARK, id)
    ensures AreCandidates([], n) ==> forall k: nat :: AreCandidates([], k)
  {
    hide CharsetData.Good;
  }

  // ----- the two patterns -----

  // The text has ưo or ươ somewhere.
  lemma UhOIff(s: string)
    ensures HasUhO(s) <==> exists a, b :: s == a + "ưo" + b || s == a + "ươ" + b
  {
    if HasUhO(s) {
      var i: nat :| i < |s| && (PairAt(s, i, 'ư', 'o') || PairAt(s, i, 'ư', 'ơ'));
      assert s == s[..i] + [s[i], s[i + 1]] + s[i + 2..];
    }
    if a, b :| s == a + "ưo" + b || s == a + "ươ" + b {
      assert s[|a|] == 'ư' && (s[|a| + 1] == 'o' || s[|a| + 1] == 'ơ');
      assert PairAt(s, |a|, 'ư', 'o') || PairAt(s, |a|, 'ư', 'ơ');
    }
  }

  // The text has uơ or ưo with a letter behind it.
  lemma UOhTailIff(cs: Charset, s: string)
    ensures HasUOhTail(cs, s) <==>
            exists a, x, b :: (s == a + "uơ" + [x] + b || s == a + "ưo" + [x] + b) && cs.isLetter(x)
  {
    hide CharsetData.Good;
    if HasUOhTail(cs, s) {
      var i: nat :| i < |s| - 2 && (PairAt(s, i, 'u', 'ơ') || PairAt(s, i, 'ư', 'o')) && cs.isLetter(s[i + 2]);
      assert s == s[..i] + [s[i], s[i + 1]] + [s[i + 2]] + s[i + 3..];
    }
    if a, x, b :| (s == a + "uơ" + [x] + b || s == a + "ưo" + [x] + b) && cs.isLetter(x) {
      assert s[|a|] == 'u' || s[|a|] == 'ư';
      assert PairAt(s, |a|, 'u', 'ơ') || PairAt(s, |a|, 'ư', 'o');
      assert s[|a| + 2] == x;
    }
  }

  // ----- the key as a letter -----

  // The key has effects to undo.
  ghost predicate ClearsSomething(c: Config, st: State, key: char) {
    exists id: nat ::
      || ClearsTone(c.env.cs, LastSyllable(c, st), KeyRules(c, key), c.flags, id)
      || ClearsMark(c.env.cs, LastSyllable(c, st), KeyRules(c, key), st.nextId, id)
  }

  ghost predicate IsUndoOf(c: Config, st: State, key: char, undo: Composition) {
    IsUndo(c.env.cs, LastSyllable(c, st), KeyRules(c, key), c.flags, st.nextId, st.nextId, undo)
  }

  // Nothing fits and nothing is rewritten, but there is something to undo: the key is a letter behind the undo.
  lemma UndoAdds(c: Config, st: State, key: char) returns (undo: Composition)
    requires IsTyped(c, st, key) && !IsDoubled(c, st, key)
    requires NothingFitsKey(c, st, key, []) && NothingRewrites(c, st, key) && ClearsSomething(c, st, key)
    ensures undo != [] && IsUndoOf(c, st, key, undo)
    ensures Adds(c, st, key,
            undo + [NewAppendingTrans(st.nextId + |undo|, c.env.cs.lower(key), c.env.cs.isUpper(key))])
  {
    hide CharsetData.Good, ExtractLastSyllable, Adds, CanProcessKey, Inv, GoodMethod, FindTarget, EntryOk, NothingFits,
         RulesFor, IsRawDouble, UoRewrite, NothingRewrites, ClearsSomething, IsUndo, GenerateUndo, KeyTransformations;
    var s, rules := LastSyllable(c, st), KeyRules(c, key);
    StateIsOk(c, st);
    assert s + [] == s;
    TargetIsFit(c.env, c.im.keys, s, rules, c.flags, st.nextId);
    RewriteIs(c, st, key);
    undo := GenerateUndo(c.env.cs, s, rules, c.flags, st.nextId);
    UndoIs(c.env.cs, c.im.keys, s, rules, c.flags, st.nextId, st.nextId);
    ClearedIsNamed(c, st, key, undo);
    GeneratesUndo(c, s, c.env.cs.lower(key), c.env.cs.isUpper(key), st.nextId, undo);
    KeyStepIs(c, st, key, undo + [NewAppendingTrans(st.nextId + |undo|, c.env.cs.lower(key), c.env.cs.isUpper(key))]);
  }

  lemma GeneratesUndo(c: Config, s: Composition, lowerKey: char, isUpperCase: bool, nid: nat, undo: Composition)
    requires var rules := RulesFor(c, lowerKey);
             && !IsRawDouble(s, lowerKey) && FindTarget(c.env, s, rules, rules, c.flags, nid) == None
             && UoRewrite(c.env, s, rules, c.flags, isUpperCase, nid) == []
             && undo == GenerateUndo(c.env.cs, s, rules, c.flags, nid) && undo != []
    ensures KeyTransformations(c, s, lowerKey, isUpperCase, nid)
         == undo + [NewAppendingTrans(nid + |undo|, lowerKey, isUpperCase)]
  {
    hide CharsetData.Good, FindTarget, UoRewrite, GenerateUndo, IsRawDouble, RulesFor;
  }

  lemma ClearedIsNamed(c: Config, st: State, key: char, undo: Composition)
    requires IsUndoOf(c, st, key, undo) && ClearsSomething(c, st, key)
    ensures undo != []
  {
    hide CharsetData.Good, ClearsTone, ClearsMark, LastSyllable, RulesFor, AreCandidates;
    var id: nat :|
      || ClearsTone(c.env.cs, LastSyllable(c, st), KeyRules(c, key), c.flags, id)
      || ClearsMark(c.env.cs, LastSyllable(c, st), KeyRules(c, key), st.nextId, id);
    assert Names(undo, UNDO_TONE, id) || Names(undo, UNDO_MARK, id);
  }

  // The first rule that makes a letter of the key; |rules| if there is none.
  ghost predicate IsFirstAppending(rules: seq<Rule>, k: nat) {
    && k <= |rules| && (k < |rules| ==> IsAppendingRule(rules[k]))
    && forall j :: 0 <= j < k ==> !IsAppendingRule(rules[j])
  }

  // The letter a rule makes, with this key, and its case.
  function MadeLetter(cs: Charset, id: nat, key: char, rule: Rule, isUpperCase: bool): Trans {
    var face := cs.lower(rule.effectOn);
    Trans(id, rule.(key := key, effectOn := face, result := face), None, isUpperCase || cs.isUpper(rule.effectOn))
  }

  // The letter of the key, and a virtual one for each letter its rule brings along.
  ghost predicate AreLetters(cs: Charset, rules: seq<Rule>, lowerKey: char, isUpperCase: bool, nid: nat,
                             letters: Composition)
  {
    exists k: nat :: IsFirstAppending(rules, k) &&
      if k == |rules| then letters == [NewAppendingTrans(nid, lowerKey, isUpperCase)]
      else AreMade(cs, rules[k], lowerKey, isUpperCase, nid, letters)
  }

  predicate AreMade(cs: Charset, rule: Rule, lowerKey: char, isUpperCase: bool, nid: nat, letters: Composition) {
    && |letters| == 1 + |rule.appendedRules| && letters[0] == MadeLetter(cs, nid, lowerKey, rule, isUpperCase)
    && forall i :: 1 <= i < |letters| ==>
         letters[i] == MadeLetter(cs, nid + i, NUL, rule.appendedRules[i - 1], isUpperCase)
  }

  // The horn the syllable still lacks: a virtual entry of the rule that fits the first super key.
  ghost predicate IsShortcut(c: Config, syllable: Composition, nid: nat, shortcut: Composition) {
    if c.im.superKeys == [] || !HasUOhTail(c.env.cs, Canvas(c.env.cs, syllable, TONELESS_LOWER)) then shortcut == []
    else
      var rules := RulesFor(c, c.im.superKeys[0]);
      if NothingFits(c.env, syllable, rules, c.flags, nid) then shortcut == []
      else
        exists target: nat, rule :: Fits(c.env, syllable, rules, c.flags, nid, target, rule)
          && shortcut == [Candidate(nid, rule.(key := NUL), Some(target))]
  }

  lemma {:induction false} FirstAppending(rules: seq<Rule>, lowerKey: char) returns (k: nat)
    requires forall r :: r in rules ==> r.key == lowerKey
    ensures IsFirstAppending(rules, k)
    ensures AppendingRuleFor(rules, lowerKey) == if k < |rules| then Some(rules[k]) else None
  {
    if rules == [] {
      k := 0;
    } else if rules[0].key == lowerKey && rules[0].effectType == Appending {
      k := 0;
    } else {
      var j := FirstAppending(rules[1..], lowerKey);
      k := j + 1;
      assert rules[0] in rules;
      assert forall i :: 0 < i < |rules| ==> rules[i] == rules[1..][i - 1];
    }
  }

  lemma {:induction false} VirtualAre(cs: Charset, appended: seq<Rule>, isUpperCase: bool, nid: nat)
    ensures var ls := VirtualLetters(cs, appended, isUpperCase, nid);
            |ls| == |appended| && forall i :: 0 <= i < |appended| ==>
                                    ls[i] == MadeLetter(cs, nid + i, NUL, appended[i], isUpperCase)
  {
    hide CharsetData.Good;
    if appended != [] {
      VirtualAre(cs, appended[1..], isUpperCase, nid + 1);
    }
  }

  lemma FallbackIs(cs: Charset, rules: seq<Rule>, lowerKey: char, isUpperCase: bool, nid: nat)
    requires forall r :: r in rules ==> r.key == lowerKey
    ensures AreLetters(cs, rules, lowerKey, isUpperCase, nid, GenerateFallback(cs, rules, lowerKey, isUpperCase, nid))
  {
    hide CharsetData.Good, AppendingRuleFor, VirtualLetters;
    var k := FirstAppending(rules, lowerKey);
    var letters := GenerateFallback(cs, rules, lowerKey, isUpperCase, nid);
    if k < |rules| {
      assert rules[k] in rules;
      VirtualAre(cs, rules[k].appendedRules, isUpperCase, nid + 1);
    } else {
      VirtualAre(cs, [], isUpperCase, nid + 1);
      assert letters == [NewAppendingTrans(nid, lowerKey, isUpperCase)] + [];
    }
  }

  lemma ShortcutIs(c: Config, syllable: Composition, nid: nat)
    requires AllOk(c, syllable)
    ensures IsShortcut(c, syllable, nid, UowShortcut(c, syllable, nid))
  {
    hide CharsetData.Good, FindTarget, EntryOk, NothingFits, Fits, RulesFor, Canvas, HasUOhTail;
    if c.im.superKeys != [] {
      TargetIsFit(c.env, c.im.keys, syllable, RulesFor(c, c.im.superKeys[0]), c.flags, nid);
    }
  }

  // Otherwise the key is a letter, with what it brings along.
  lemma LetterAdds(c: Config, st: State, key: char) returns (letters: Composition, shortcut: Composition)
    requires IsTyped(c, st, key) && !IsDoubled(c, st, key)
    requires NothingFitsKey(c, st, key, []) && NothingRewrites(c, st, key) && !ClearsSomething(c, st, key)
    ensures AreLetters(c.env.cs, KeyRules(c, key), c.env.cs.lower(key), c.env.cs.isUpper(key), st.nextId, letters)
    ensures IsShortcut(c, LastSyllable(c, st) + letters, st.nextId + |letters|, shortcut)
    ensures Adds(c, st, key, letters + shortcut)
  {
    hide CharsetData.Good, ExtractLastSyllable, Adds, CanProcessKey, Inv, GoodMethod, FindTarget, EntryOk, NothingFits,
         RulesFor, IsRawDouble, UoRewrite, NothingRewrites, ClearsTone, ClearsMark, GenerateUndo, GenerateFallback,
         UowShortcut, AreLetters, IsShortcut;
    var s, rules, lowerKey, up := LastSyllable(c, st), KeyRules(c, key), c.env.cs.lower(key), c.env.cs.isUpper(key);
    StateIsOk(c, st);
    assert s + [] == s;
    TargetIsFit(c.env, c.im.keys, s, rules, c.flags, st.nextId);
    RewriteIs(c, st, key);
    var undo := GenerateUndo(c.env.cs, s, rules, c.flags, st.nextId);
    UndoIs(c.env.cs, c.im.keys, s, rules, c.flags, st.nextId, st.nextId);
    if undo != [] {
      NamedIsCleared(c, st, key, undo);
    }
    letters := GenerateFallback(c.env.cs, rules, lowerKey, up, st.nextId);
    RulesAreGood(c, key);
    FallbackIs(c.env.cs, rules, lowerKey, up, st.nextId);
    FallbackIsOk(c, st, key);
    AllOkConcat(c, s, letters);
    ShortcutIs(c, s + letters, st.nextId + |letters|);
    shortcut := UowShortcut(c, s + letters, st.nextId + |letters|);
    KeyStepIs(c, st, key, letters + shortcut);
  }

  lemma NamedIsCleared(c: Config, st: State, key: char, undo: Composition)
    requires IsUndoOf(c, st, key, undo) && undo != []
    ensures ClearsSomething(c, st, key)
  {
    hide CharsetData.Good, ClearsTone, ClearsMark, LastSyllable, RulesFor;
    var u := undo[0];
    assert u in undo && Names(undo, u.rule, u.target.value);
    assert u.rule == UNDO_TONE || u.rule == UNDO_MARK;
  }

  lemma FallbackIsOk(c: Config, st: State, key: char)
    requires IsTyped(c, st, key)
    ensures AllOk(c, GenerateFallback(c.env.cs, KeyRules(c, key), c.env.cs.lower(key), c.env.cs.isUpper(key),
            st.nextId))
  {
    hide CharsetData.Good, EntryOk, IsBreak, RulesFor, GenerateFallback, CanProcessKey, Inv, RulesOk, IsTypedKey, Typed;
    TypedKeyIsProcessed(c, key);
    RulesAreGood(c, key);
    FallbackShape(c.env.cs, c.im.keys, [], KeyRules(c, key), c.env.cs.lower(key), c.env.cs.isUpper(key), st.nextId);
  }
}
