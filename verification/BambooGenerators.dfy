/**
 What one key adds to a syllable: exactly one entry that records the key (none for a
 raw double), at most one letter, and effects that decorate letters at hand.
 */
module BambooGenerators {
  import opened Options
  import opened BambooChars
  import opened BambooSpelling
  import opened BambooFlattener
  import opened BambooUtils
  import opened BambooKeys
  import opened BambooShape

  // A lower-case key that the engine processes.
  predicate IsTypedKey(cs: Charset, keys: seq<char>, key: char) {
    cs.lower(key) == key && key != NUL && IsWordChar(BaseLetter(cs, key), keys)
  }

  function CasedKey(cs: Charset, lowerKey: char, isUpperCase: bool): char {
    if isUpperCase then cs.upper(lowerKey) else lowerKey
  }

  // The keys a composition records, with their case.
  function Typed(cs: Charset, comp: Composition): string {
    Canvas(cs, comp, ENGLISH)
  }

  // New entries: consecutive identities, well formed, decorating letters of `home` only.
  ghost predicate Generated(cs: Charset, keys: seq<char>, home: Composition, ts: Composition, nid: nat) {
    && (forall i :: 0 <= i < |ts| ==> ts[i].id == nid + i)
    && (forall i :: 0 <= i < |ts| ==> EntryOk(cs, keys, ts[i]) && !IsBreak(cs, keys, ts[i]))
    && TargetsIn(ts, home)
  }

  // The letters among the new entries: none, or one for the key.
  ghost predicate PushesAtMost(ts: Composition, lowerKey: char) {
    var letters := Letters(ts, false);
    letters == [] || (|letters| == 1 && letters[0].rule.key == letters[0].rule.effectOn == lowerKey)
  }

  ghost predicate Plain(cs: Charset, comp: Composition) {
    NoRaw(comp) && forall t :: t in comp && IsAppending(t) ==> IsPlain(cs, t)
  }

  lemma TypedConcat(cs: Charset, a: Composition, b: Composition)
    ensures Typed(cs, a + b) == Typed(cs, a) + Typed(cs, b)
  {
    CanvasConcat(cs, a, b, ENGLISH);
  }

  lemma {:induction false} VirtualIsSilent(cs: Charset, ts: Composition)
    requires forall t :: t in ts ==> t.rule.key == NUL
    ensures Typed(cs, ts) == "" && Letters(ts, true) == [] && Letters(ts, false) == []
  {
    if ts != [] {
      VirtualIsSilent(cs, ts[..|ts| - 1]);
      assert ts[|ts| - 1] in ts;
    }
  }

  lemma OneEntry(cs: Charset, t: Trans)
    requires t.rule.key != NUL
    ensures Typed(cs, [t]) == [CasedKey(cs, t.rule.key, t.isUpperCase)]
    ensures Letters([t], false) == if IsAppending(t) then [t] else []
  {
    assert Letters([t], true) == [t] by { assert [t][..0] == []; }
    assert [t][..0] == [];
  }

  lemma Joins(cs: Charset, a: Composition, b: Composition)
    ensures Typed(cs, a + b) == Typed(cs, a) + Typed(cs, b)
    ensures Letters(a + b, false) == Letters(a, false) + Letters(b, false)
    ensures NoRaw(a) && NoRaw(b) ==> NoRaw(a + b)
  {
    TypedConcat(cs, a, b);
    LettersConcat(a, b, false);
  }

  lemma GeneratedConcat(cs: Charset, keys: seq<char>, home: Composition, a: Composition, b: Composition, nid: nat)
    requires Generated(cs, keys, home, a, nid) && Generated(cs, keys, home, b, nid + |a|)
    ensures Generated(cs, keys, home, a + b, nid)
  {
  }

  // Every effect has a target.
  ghost predicate AllTargeted(comp: Composition) {
    forall t :: t in comp && !IsAppending(t) ==> t.target.Some?
  }

  // New entries that record no key and are no letters.
  ghost predicate Quiet(cs: Charset, keys: seq<char>, home: Composition, ts: Composition, nid: nat) {
    && Generated(cs, keys, home, ts, nid)
    && (forall t :: t in ts ==> t.rule.key == NUL && !IsAppending(t))
    && NoRaw(ts) && AllTargeted(ts)
  }

  // New entries that record the key once.
  ghost predicate Outcome(cs: Charset, keys: seq<char>, home: Composition, ts: Composition, lowerKey: char,
                          isUpperCase: bool, nid: nat)
  {
    && Generated(cs, keys, home, ts, nid)
    && Typed(cs, ts) == [CasedKey(cs, lowerKey, isUpperCase)]
    && PushesAtMost(ts, lowerKey)
    && NoRaw(ts) && AllTargeted(ts)
    && forall t :: t in ts && IsAppending(t) ==> IsPlain(cs, t)
  }

  lemma QuietConcat(cs: Charset, keys: seq<char>, home: Composition, a: Composition, b: Composition, nid: nat)
    requires Quiet(cs, keys, home, a, nid) && Quiet(cs, keys, home, b, nid + |a|)
    ensures Quiet(cs, keys, home, a + b, nid)
  {
    GeneratedConcat(cs, keys, home, a, b, nid);
  }

  lemma QuietThenOutcome(cs: Charset, keys: seq<char>, home: Composition, a: Composition, b: Composition,
                         lowerKey: char, isUpperCase: bool, nid: nat)
    requires Quiet(cs, keys, home, a, nid) && Outcome(cs, keys, home, b, lowerKey, isUpperCase, nid + |a|)
    ensures Outcome(cs, keys, home, a + b, lowerKey, isUpperCase, nid)
  {
    GeneratedConcat(cs, keys, home, a, b, nid);
    VirtualIsSilent(cs, a);
    Joins(cs, a, b);
  }

  lemma OutcomeThenQuiet(cs: Charset, keys: seq<char>, home: Composition, a: Composition, b: Composition,
                         lowerKey: char, isUpperCase: bool, nid: nat)
    requires Outcome(cs, keys, home, a, lowerKey, isUpperCase, nid) && Quiet(cs, keys, home, b, nid + |a|)
    ensures Outcome(cs, keys, home, a + b, lowerKey, isUpperCase, nid)
  {
    hide CharsetData.Good, EntryOk;
    GeneratedConcat(cs, keys, home, a, b, nid);
    VirtualIsSilent(cs, b);
    Joins(cs, a, b);
  }

  lemma LetterOutcome(cs: Charset, keys: seq<char>, home: Composition, lowerKey: char, isUpperCase: bool, nid: nat)
    requires IsTypedKey(cs, keys, lowerKey)
    ensures Outcome(cs, keys, home, [NewAppendingTrans(nid, lowerKey, isUpperCase)], lowerKey, isUpperCase, nid)
  {
    hide Typed, Letters, BaseLetter;
    var letter := NewAppendingTrans(nid, lowerKey, isUpperCase);
    OneEntry(cs, letter);
    assert EntryOk(cs, keys, letter) && !IsBreak(cs, keys, letter);
  }

  // ----- undo -----

  lemma QuietUndo(cs: Charset, keys: seq<char>, comp: Composition, rule: Rule, target: nat, nid: nat)
    requires rule == UNDO_MARK || rule == UNDO_TONE
    requires HasLetter(comp, target)
    ensures Quiet(cs, keys, comp, [Candidate(nid, rule, Some(target))], nid)
  {
  }

  lemma UndoShowsOnLetter(cs: Charset, comp: Composition, t: Trans, rule: Rule, nid: nat)
    requires UndoShows(cs, comp, t, rule, nid)
    ensures HasLetter(comp, RootTarget(t))
  {
    ShownTargetIsLetter(cs, comp, Candidate(nid, UNDO_MARK, Some(RootTarget(t))), TONELESS_LOWER);
  }

  lemma {:induction false} UndoMarksShape(cs: Charset, keys: seq<char>, comp: Composition, rule: Rule, i: nat, nid: nat)
    requires i <= |comp|
    ensures Quiet(cs, keys, comp, UndoMarks(cs, comp, rule, i, nid), nid)
  {
    if i > 0 {
      var shows := UndoShows(cs, comp, comp[i - 1], rule, nid);
      var t := Candidate(nid, UNDO_MARK, Some(RootTarget(comp[i - 1])));
      var rest := UndoMarks(cs, comp, rule, i - 1, if shows then nid + 1 else nid);
      assert UndoMarks(cs, comp, rule, i, nid) == if shows then [t] + rest else rest;
      UndoMarksShape(cs, keys, comp, rule, i - 1, if shows then nid + 1 else nid);
      if shows {
        UndoShowsOnLetter(cs, comp, comp[i - 1], rule, nid);
        QuietUndo(cs, keys, comp, UNDO_MARK, RootTarget(comp[i - 1]), nid);
        QuietConcat(cs, keys, comp, [t], rest, nid);
      }
    }
  }

  lemma UndoRuleShape(cs: Charset, keys: seq<char>, comp: Composition, rule: Rule, flags: Flags, nid: nat, n: nat)
    requires WellFormed(cs, keys, comp, n)
    ensures Quiet(cs, keys, comp, UndoRule(cs, comp, rule, flags, nid), nid)
  {
    match rule.effectType
    case ToneTransformation =>
      ToneKeyTargetIsLetter(cs, keys, comp, rule.effect, flags, n);
      var target := ToneTargetFor(cs, comp, rule.effect, flags);
      if target.Some? {
        QuietUndo(cs, keys, comp, UNDO_TONE, target.value, nid);
      }
    case MarkTransformation => UndoMarksShape(cs, keys, comp, rule, |comp|, nid);
    case _ =>
  }

  lemma {:induction false} UndoShape(cs: Charset, keys: seq<char>, comp: Composition, rules: seq<Rule>, flags: Flags,
                                     nid: nat, n: nat)
    requires WellFormed(cs, keys, comp, n)
    ensures Quiet(cs, keys, comp, GenerateUndo(cs, comp, rules, flags, nid), nid)
  {
    hide CharsetData.Good, UndoRule;
    if rules != [] {
      var first := UndoRule(cs, comp, rules[0], flags, nid);
      UndoRuleShape(cs, keys, comp, rules[0], flags, nid, n);
      UndoShape(cs, keys, comp, rules[1..], flags, nid + |first|, n);
      QuietConcat(cs, keys, comp, first, GenerateUndo(cs, comp, rules[1..], flags, nid + |first|), nid);
    }
  }

  // ----- generateTransformations -----

  // Rules applicable to a lower-case key of a good method.
  ghost predicate RulesOk(cs: Charset, keys: seq<char>, rules: seq<Rule>, lowerKey: char) {
    forall r :: r in rules ==> GoodRule(cs, keys, r) && r.key == lowerKey
  }

  lemma NoNewLetter(comp: Composition, t: Trans, id: nat)
    requires HasLetter(comp + [t], id) && !IsAppending(t)
    ensures HasLetter(comp, id)
  {
    var x :| x in comp + [t] && x.id == id && IsAppending(x);
    assert x in comp;
  }

  // A rule applied to a letter records the key; its virtual copy records nothing.
  lemma AppliedRule(cs: Charset, keys: seq<char>, comp: Composition, rule: Rule, id: nat, target: nat,
                    isUpperCase: bool)
    requires GoodRule(cs, keys, rule) && !IsAppendingRule(rule)
    requires HasLetter(comp, target)
    ensures Outcome(cs, keys, comp, [Trans(id, rule, Some(target), isUpperCase)], rule.key, isUpperCase, id)
    ensures Quiet(cs, keys, comp, [Candidate(id, rule.(key := NUL), Some(target))], id)
  {
    OneEntry(cs, Trans(id, rule, Some(target), isUpperCase));
  }

  lemma RewriteShape(env: Env, keys: seq<char>, comp: Composition, rules: seq<Rule>, flags: Flags, lowerKey: char,
                     isUpperCase: bool, nid: nat, n: nat)
    requires WellFormed(env.cs, keys, comp, n) && RulesOk(env.cs, keys, rules, lowerKey)
    ensures var ts := UoRewrite(env, comp, rules, flags, isUpperCase, nid);
            ts != [] ==> Outcome(env.cs, keys, comp, ts, lowerKey, isUpperCase, nid)
  {
    var vowels := FilterAppending(ExtractCvcTrans(env.cs, comp).vo);
    var ts := UoRewrite(env, comp, rules, flags, isUpperCase, nid);
    if ts != [] {
      FirstVowelIsLetter(env.cs, keys, comp, n);
      var drop := Candidate(nid, UNDO_MARK, Some(vowels[0].id));
      var found := FindTarget(env, comp + [drop], rules, rules, flags, nid + 1);
      assert ts == [drop, Trans(nid + 1, found.value.1, Some(found.value.0), isUpperCase)];
      TargetIsLetter(env, comp + [drop], rules, rules, flags, nid + 1);
      DroppedAndApplied(env.cs, keys, comp, vowels[0].id, found.value.0, found.value.1, isUpperCase, nid);
    }
  }

  lemma DroppedAndApplied(cs: Charset, keys: seq<char>, comp: Composition, first: nat, target: nat, rule: Rule,
                          isUpperCase: bool, nid: nat)
    requires GoodRule(cs, keys, rule) && !IsAppendingRule(rule)
    requires HasLetter(comp, first) && HasLetter(comp + [Candidate(nid, UNDO_MARK, Some(first))], target)
    ensures Outcome(cs, keys, comp,
            [Candidate(nid, UNDO_MARK, Some(first)), Trans(nid + 1, rule, Some(target), isUpperCase)],
                    rule.key, isUpperCase, nid)
  {
    hide CharsetData.Good, EntryOk, Typed;
    var drop := Candidate(nid, UNDO_MARK, Some(first));
    NoNewLetter(comp, drop, target);
    QuietUndo(cs, keys, comp, UNDO_MARK, first, nid);
    AppliedRule(cs, keys, comp, rule, nid + 1, target, isUpperCase);
    var last := Trans(nid + 1, rule, Some(target), isUpperCase);
    QuietThenOutcome(cs, keys, comp, [drop], [last], rule.key, isUpperCase, nid);
    assert [drop] + [last] == [drop, last];
  }

  lemma FirstVowelIsLetter(cs: Charset, keys: seq<char>, comp: Composition, n: nat)
    requires WellFormed(cs, keys, comp, n)
    ensures var vowels := FilterAppending(ExtractCvcTrans(cs, comp).vo);
            vowels != [] ==> HasLetter(comp, vowels[0].id)
  {
    var vo := ExtractCvcTrans(cs, comp).vo;
    VowelPartMembers(cs, keys, comp, n);
    FilterAppendingMembers(vo);
    var vowels := FilterAppending(vo);
    if vowels != [] {
      assert vowels[0] in vowels;
    }
  }

  lemma UndoneShape(env: Env, keys: seq<char>, comp: Composition, rules: seq<Rule>, flags: Flags, lowerKey: char,
                    isUpperCase: bool, nid: nat, n: nat)
    requires WellFormed(env.cs, keys, comp, n) && IsTypedKey(env.cs, keys, lowerKey)
    ensures var undo := GenerateUndo(env.cs, comp, rules, flags, nid);
            Outcome(env.cs, keys, comp, undo
              + [NewAppendingTrans(nid + |undo|, lowerKey, isUpperCase)], lowerKey, isUpperCase, nid)
  {
    hide *;
    var undo := GenerateUndo(env.cs, comp, rules, flags, nid);
    UndoShape(env.cs, keys, comp, rules, flags, nid, n);
    LetterOutcome(env.cs, keys, comp, lowerKey, isUpperCase, nid + |undo|);
    QuietThenOutcome(env.cs, keys, comp, undo, [NewAppendingTrans(nid + |undo|, lowerKey, isUpperCase)], lowerKey,
      isUpperCase, nid);
  }

  lemma ApplyRuleShape(env: Env, keys: seq<char>, comp: Composition, rules: seq<Rule>, flags: Flags, lowerKey: char,
                       target: nat, rule: Rule, isUpperCase: bool, nid: nat)
    requires RulesOk(env.cs, keys, rules, lowerKey)
    requires rule in rules && !IsAppendingRule(rule) && HasLetter(comp, target)
    ensures Outcome(env.cs, keys, comp, ApplyRule(env, comp, rules, flags, target, rule, isUpperCase, nid), lowerKey,
            isUpperCase, nid)
  {
    AppliedRule(env.cs, keys, comp, rule, nid, target, isUpperCase);
    var first := Trans(nid, rule, Some(target), isUpperCase);
    var ts := ApplyRule(env, comp, rules, flags, target, rule, isUpperCase, nid);
    if ts != [first] {
      var found := FindTarget(env, comp + [first], rules, rules, flags, nid + 1);
      assert ts == [first] + [Candidate(nid + 1, found.value.1.(key := NUL), Some(found.value.0))];
      TargetIsLetter(env, comp + [first], rules, rules, flags, nid + 1);
      NoNewLetter(comp, first, found.value.0);
      AppliedRule(env.cs, keys, comp, found.value.1, nid + 1, found.value.0, false);
      OutcomeThenQuiet(env.cs, keys, comp, [first],
        [Candidate(nid + 1, found.value.1.(key := NUL), Some(found.value.0))],
                       lowerKey, isUpperCase, nid);
    }
  }

  // Every branch but the raw double records the key once.
  lemma KeyTransformationsShape(env: Env, keys: seq<char>, comp: Composition, rules: seq<Rule>, flags: Flags,
                                lowerKey: char,
                                isUpperCase: bool, nid: nat, n: nat)
    requires WellFormed(env.cs, keys, comp, n) && RulesOk(env.cs, keys, rules, lowerKey)
             && IsTypedKey(env.cs, keys, lowerKey)
    requires !IsRawDouble(comp, lowerKey)
    ensures var ts := GenerateTransformations(env, comp, rules, flags, lowerKey, isUpperCase, nid);
            ts != [] ==> Outcome(env.cs, keys, comp, ts, lowerKey, isUpperCase, nid)
  {
    hide FindTarget, ApplyRule, UoRewrite, GenerateUndo, Outcome, IsTypedKey, WellFormed, IsRawDouble, GoodRule;
    var ts := GenerateTransformations(env, comp, rules, flags, lowerKey, isUpperCase, nid);
    var found := FindTarget(env, comp, rules, rules, flags, nid);
    if found.Some? {
      TargetIsLetter(env, comp, rules, rules, flags, nid);
      assert ts == ApplyRule(env, comp, rules, flags, found.value.0, found.value.1, isUpperCase, nid);
      ApplyRuleShape(env, keys, comp, rules, flags, lowerKey, found.value.0, found.value.1, isUpperCase, nid);
    } else {
      var rewrite := UoRewrite(env, comp, rules, flags, isUpperCase, nid);
      var undo := GenerateUndo(env.cs, comp, rules, flags, nid);
      if rewrite != [] {
        assert ts == rewrite;
        RewriteShape(env, keys, comp, rules, flags, lowerKey, isUpperCase, nid, n);
      } else if undo != [] {
        assert ts == undo + [NewAppendingTrans(nid + |undo|, lowerKey, isUpperCase)];
        UndoneShape(env, keys, comp, rules, flags, lowerKey, isUpperCase, nid, n);
      }
    }
  }

  lemma RawDoubleShape(env: Env, keys: seq<char>, comp: Composition, rules: seq<Rule>, flags: Flags, lowerKey: char,
                       isUpperCase: bool, nid: nat)
    requires IsRawDouble(comp, lowerKey)
    ensures var ts := GenerateTransformations(env, comp, rules, flags, lowerKey, isUpperCase, nid);
            Generated(env.cs, keys, comp, ts, nid) && ts != [] && AllTargeted(ts)
            && forall t :: t in ts ==> t.rule.key == NUL && !IsAppending(t)
  {
    assert comp[|comp| - 1] in comp;
  }

  // ----- fallback and shortcut -----

  lemma {:induction false} AppendingRuleIsRule(rules: seq<Rule>, lowerKey: char)
    ensures var r := AppendingRuleFor(rules, lowerKey);
            r.Some? ==> r.value in rules && IsAppendingRule(r.value) && r.value.key == lowerKey
    ensures AppendingRuleFor(rules, lowerKey).None? ==> forall r :: r in rules && IsAppendingRule(r) ==>
            r.key != lowerKey
  {
    if rules != [] {
      AppendingRuleIsRule(rules[1..], lowerKey);
    }
  }

  lemma {:induction false} VirtualLettersShape(cs: Charset, keys: seq<char>, home: Composition, appended: seq<Rule>,
                                               isUpperCase: bool, nid: nat)
    requires forall a :: a in appended ==> GoodAppended(cs, a)
    ensures var ts := VirtualLetters(cs, appended, isUpperCase, nid);
            Generated(cs, keys, home, ts, nid) && forall t :: t in ts ==> t.rule.key == NUL && IsAppending(t)
  {
    hide BaseLetter, IsPlain, IsVowel;
    if appended != [] {
      VirtualLettersShape(cs, keys, home, appended[1..], isUpperCase, nid + 1);
      assert GoodAppended(cs, appended[0]);
      var first := Trans(nid, LoweredRule(cs, appended[0]).(key := NUL), None, isUpperCase
          || cs.isUpper(appended[0].effectOn));
      assert EntryOk(cs, keys, first) && !IsBreak(cs, keys, first);
      GeneratedConcat(cs, keys, home, [first], VirtualLetters(cs, appended[1..], isUpperCase, nid + 1), nid);
    }
  }

  lemma FallbackLetter(cs: Charset, keys: seq<char>, home: Composition, rules: seq<Rule>, lowerKey: char,
                       isUpperCase: bool, nid: nat)
    requires RulesOk(cs, keys, rules, lowerKey) && IsTypedKey(cs, keys, lowerKey)
    ensures var t := GenerateAppendingTrans(cs, rules, lowerKey, isUpperCase, nid);
            && Generated(cs, keys, home, [t], nid) && Typed(cs, [t]) == [CasedKey(cs, lowerKey, isUpperCase)]
            && IsAppending(t) && (forall a :: a in t.rule.appendedRules ==> GoodAppended(cs, a))
    ensures AppendingRuleFor(rules, lowerKey).None? ==>
              GenerateAppendingTrans(cs, rules, lowerKey, isUpperCase, nid)
                == NewAppendingTrans(nid, lowerKey, isUpperCase)
  {
    hide BaseLetter, Typed, IsVowel;
    AppendingRuleIsRule(rules, lowerKey);
    var t := GenerateAppendingTrans(cs, rules, lowerKey, isUpperCase, nid);
    OneEntry(cs, t);
    assert EntryOk(cs, keys, t) && !IsBreak(cs, keys, t);
  }

  lemma FallbackShape(cs: Charset, keys: seq<char>, home: Composition, rules: seq<Rule>, lowerKey: char,
                      isUpperCase: bool, nid: nat)
    requires RulesOk(cs, keys, rules, lowerKey) && IsTypedKey(cs, keys, lowerKey)
    ensures var ts := GenerateFallback(cs, rules, lowerKey, isUpperCase, nid);
            && Generated(cs, keys, home, ts, nid) && Typed(cs, ts) == [CasedKey(cs, lowerKey, isUpperCase)]
            && (forall t :: t in ts ==> IsAppending(t))
    ensures AppendingRuleFor(rules, lowerKey).None? ==>
              GenerateFallback(cs, rules, lowerKey, isUpperCase, nid) == [NewAppendingTrans(nid, lowerKey, isUpperCase)]
  {
    var trans := GenerateAppendingTrans(cs, rules, lowerKey, isUpperCase, nid);
    var rest := VirtualLetters(cs, trans.rule.appendedRules, isUpperCase, nid + 1);
    assert GenerateFallback(cs, rules, lowerKey, isUpperCase, nid) == [trans] + rest;
    FallbackLetter(cs, keys, home, rules, lowerKey, isUpperCase, nid);
    LetterThenVirtual(cs, keys, home, trans, isUpperCase, nid);
  }

  lemma LetterThenVirtual(cs: Charset, keys: seq<char>, home: Composition, trans: Trans, isUpperCase: bool, nid: nat)
    requires Generated(cs, keys, home, [trans], nid)
    requires forall a :: a in trans.rule.appendedRules ==> GoodAppended(cs, a)
    ensures var rest := VirtualLetters(cs, trans.rule.appendedRules, isUpperCase, nid + 1);
            Generated(cs, keys, home, [trans] + rest, nid) && Typed(cs, [trans] + rest) == Typed(cs, [trans])
            && forall t :: t in rest ==> IsAppending(t)
  {
    var rest := VirtualLetters(cs, trans.rule.appendedRules, isUpperCase, nid + 1);
    VirtualLettersShape(cs, keys, home, trans.rule.appendedRules, isUpperCase, nid + 1);
    VirtualIsSilent(cs, rest);
    TypedConcat(cs, [trans], rest);
    GeneratedConcat(cs, keys, home, [trans], rest, nid);
  }

  lemma ShortcutShape(c: Config, syllable: Composition, nid: nat)
    requires GoodMethod(c.env.cs, c.im)
    ensures Quiet(c.env.cs, c.im.keys, syllable, UowShortcut(c, syllable, nid), nid)
  {
    if UowShortcut(c, syllable, nid) != [] {
      var rules := RulesFor(c, c.im.superKeys[0]);
      TargetIsLetter(c.env, syllable, rules, rules, c.flags, nid);
      var (target, rule) := FindTarget(c.env, syllable, rules, rules, c.flags, nid).value;
      AppliedRule(c.env.cs, c.im.keys, syllable, rule, nid, target, false);
    }
  }
}
