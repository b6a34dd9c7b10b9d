/**
 RestoreLastWord(true): the last word is typed again from its keys.
 */
module BambooRetype {
  import opened Options
  import opened BambooChars
  import opened BambooFlattener
  import opened BambooUtils
  import opened BambooKeys
  import opened BambooShape
  import opened BambooGenerators
  import opened BambooSteps
  import opened BambooWords
  import opened BambooRuns
  import opened BambooRestore
  import opened BambooStack
  import opened BambooBackspace
  import opened BambooVisible

  // ----- what typing an entry again records -----

  // Every letter shows the key it came from.
  ghost predicate SelfShown(comp: Composition) {
    forall t :: t in comp && IsAppending(t) ==> t.rule.key == t.rule.result
  }

  // The record of one key; the zero key leaves none.
  function KeyRecord(cs: Charset, key: char, isUpperCase: bool): string {
    if key == NUL then "" else [CasedKey(cs, key, isUpperCase)]
  }

  ghost predicate RecordsKey(cs: Charset, ts: Composition, key: char, isUpperCase: bool) {
    SelfShown(ts) && Typed(cs, ts) == KeyRecord(cs, key, isUpperCase)
  }

  ghost predicate IsVirtual(ts: Composition) {
    forall t :: t in ts ==> t.rule.key == NUL && !IsAppending(t)
  }

  lemma EntryRecords(cs: Charset, t: Trans)
    ensures Typed(cs, [t]) == KeyRecord(cs, t.rule.key, t.isUpperCase)
  {
    hide CharsetData.Good;
    if t.rule.key == NUL {
      VirtualIsSilent(cs, [t]);
    } else {
      OneEntry(cs, t);
    }
  }

  lemma SelfShownConcat(a: Composition, b: Composition)
    ensures SelfShown(a + b) <==> SelfShown(a) && SelfShown(b)
  {
    if SelfShown(a + b) {
      assert forall t :: t in a ==> t in a + b;
      assert forall t :: t in b ==> t in a + b;
    }
  }

  // Virtual effects around an entry leave its record alone.
  lemma VirtualAround(cs: Charset, before: Composition, ts: Composition, behind: Composition, key: char,
                      isUpperCase: bool)
    requires IsVirtual(before) && IsVirtual(behind) && RecordsKey(cs, ts, key, isUpperCase)
    ensures RecordsKey(cs, before + ts + behind, key, isUpperCase)
  {
    hide Typed, CharsetData.Good;
    VirtualIsSilent(cs, before);
    VirtualIsSilent(cs, behind);
    TypedConcat(cs, before, ts);
    TypedConcat(cs, before + ts, behind);
    SelfShownConcat(before, ts);
    SelfShownConcat(before + ts, behind);
    assert "" + Typed(cs, ts) + "" == Typed(cs, ts);
  }

  lemma LetterRecords(cs: Charset, id: nat, key: char, isUpperCase: bool)
    ensures RecordsKey(cs, [NewAppendingTrans(id, key, isUpperCase)], key, isUpperCase)
  {
    hide Typed, CharsetData.Good;
    EntryRecords(cs, NewAppendingTrans(id, key, isUpperCase));
  }

  lemma {:induction false} UndoMarksAreVirtual(cs: Charset, comp: Composition, rule: Rule, i: nat, nid: nat)
    requires i <= |comp|
    ensures IsVirtual(UndoMarks(cs, comp, rule, i, nid))
  {
    hide UndoShows, CharsetData.Good;
    if i > 0 {
      UndoMarksAreVirtual(cs, comp, rule, i - 1, nid);
      UndoMarksAreVirtual(cs, comp, rule, i - 1, nid + 1);
    }
  }

  lemma {:induction false} UndoIsVirtual(cs: Charset, comp: Composition, rules: seq<Rule>, flags: Flags, nid: nat)
    ensures IsVirtual(GenerateUndo(cs, comp, rules, flags, nid))
  {
    hide UndoMarks, ToneTargetFor, CharsetData.Good;
    if rules != [] {
      UndoMarksAreVirtual(cs, comp, rules[0], |comp|, nid);
      UndoIsVirtual(cs, comp, rules[1..], flags, nid + |UndoRule(cs, comp, rules[0], flags, nid)|);
    }
  }

  // The rules of a key of a method without Appending rules; the zero key has none.
  ghost predicate RulesOf(rules: seq<Rule>, key: char) {
    forall r :: r in rules ==> r.key == key != NUL && !IsAppendingRule(r)
  }

  lemma RulesOfKey(c: Config, key: char)
    requires GoodMethod(c.env.cs, c.im) && NoAppending(c.im) && c.env.cs.lower(key) == key
    ensures RulesOf(RulesFor(c, key), key) && (key == NUL ==> RulesFor(c, key) == [])
  {
    hide CharsetData.Good;
    var rules := RulesFor(c, key);
    assert forall r :: r in rules ==> GoodRule(c.env.cs, c.im.keys, r);
    if rules != [] {
      assert rules[0] in rules;
    }
  }

  lemma RuleRecords(cs: Charset, rule: Rule, key: char, id: nat, target: nat, isUpperCase: bool)
    requires rule.key == key && !IsAppendingRule(rule)
    ensures RecordsKey(cs, [Trans(id, rule, Some(target), isUpperCase)], key, isUpperCase)
    ensures IsVirtual([Candidate(id, rule.(key := NUL), Some(target))])
  {
    hide Typed, CharsetData.Good;
    EntryRecords(cs, Trans(id, rule, Some(target), isUpperCase));
  }

  lemma ApplyRecords(env: Env, comp: Composition, rules: seq<Rule>, flags: Flags, target: nat, rule: Rule, key: char,
                     isUpperCase: bool, nid: nat)
    requires RulesOf(rules, key) && rule in rules
    ensures RecordsKey(env.cs, ApplyRule(env, comp, rules, flags, target, rule, isUpperCase, nid), key, isUpperCase)
  {
    hide FindTarget, IsValid, RecordsKey, IsVirtual, CharsetData.Good;
    var first := [Trans(nid, rule, Some(target), isUpperCase)];
    RuleRecords(env.cs, rule, key, nid, target, isUpperCase);
    var ts := ApplyRule(env, comp, rules, flags, target, rule, isUpperCase, nid);
    if ts != first {
      TargetIsLetter(env, comp + first, rules, rules, flags, nid + 1);
      var (target2, rule2) := FindTarget(env, comp + first, rules, rules, flags, nid + 1).value;
      RuleRecords(env.cs, rule2, key, nid + 1, target2, false);
      NothingIsVirtual();
      VirtualAround(env.cs, [], first, [Candidate(nid + 1, rule2.(key := NUL), Some(target2))], key, isUpperCase);
      assert [] + first == first;
    }
  }

  lemma NothingIsVirtual()
    ensures IsVirtual([])
  {
  }

  lemma RewriteRecords(env: Env, comp: Composition, rules: seq<Rule>, flags: Flags, key: char, isUpperCase: bool,
                       nid: nat)
    requires RulesOf(rules, key)
    ensures var ts := UoRewrite(env, comp, rules, flags, isUpperCase, nid);
            ts != [] ==> RecordsKey(env.cs, ts, key, isUpperCase)
  {
    hide FindTarget, ExtractCvcTrans, RecordsKey, HasUhO, CharsetData.Good;
    var ts := UoRewrite(env, comp, rules, flags, isUpperCase, nid);
    if ts != [] {
      var vowels := FilterAppending(ExtractCvcTrans(env.cs, comp).vo);
      var drop := Candidate(nid, UNDO_MARK, Some(vowels[0].id));
      TargetIsLetter(env, comp + [drop], rules, rules, flags, nid + 1);
      var (target, rule) := FindTarget(env, comp + [drop], rules, rules, flags, nid + 1).value;
      var last := Trans(nid + 1, rule, Some(target), isUpperCase);
      assert ts == [drop, last];
      RuleRecords(env.cs, rule, key, nid + 1, target, isUpperCase);
      NothingIsVirtual();
      VirtualAround(env.cs, [drop], [last], [], key, isUpperCase);
      assert [drop] + [last] + [] == [drop, last];
    }
  }

  // Whatever branch a key takes, it is recorded once.
  lemma GeneratedRecords(env: Env, comp: Composition, rules: seq<Rule>, flags: Flags, key: char, isUpperCase: bool,
                         nid: nat)
    requires RulesOf(rules, key) && SelfShown(comp)
    ensures var ts := GenerateTransformations(env, comp, rules, flags, key, isUpperCase, nid);
            ts != [] ==> RecordsKey(env.cs, ts, key, isUpperCase)
  {
    hide FindTarget, ApplyRule, UoRewrite, GenerateUndo, RecordsKey, IsVirtual, CharsetData.Good;
    NeverDoubles(comp, key);
    var found := FindTarget(env, comp, rules, rules, flags, nid);
    if found.Some? {
      TargetIsLetter(env, comp, rules, rules, flags, nid);
      ApplyRecords(env, comp, rules, flags, found.value.0, found.value.1, key, isUpperCase, nid);
    } else {
      RewriteRecords(env, comp, rules, flags, key, isUpperCase, nid);
      var undo := GenerateUndo(env.cs, comp, rules, flags, nid);
      var letter := [NewAppendingTrans(nid + |undo|, key, isUpperCase)];
      UndoIsVirtual(env.cs, comp, rules, flags, nid);
      LetterRecords(env.cs, nid + |undo|, key, isUpperCase);
      NothingIsVirtual();
      VirtualAround(env.cs, undo, letter, [], key, isUpperCase);
      assert undo + letter + [] == undo + letter;
    }
  }

  lemma NeverDoubles(comp: Composition, key: char)
    requires SelfShown(comp)
    ensures !IsRawDouble(comp, key)
  {
    if comp != [] {
      assert comp[|comp| - 1] in comp;
    }
  }

  lemma FallbackRecords(c: Config, syllable: Composition, key: char, isUpperCase: bool, nid: nat)
    requires GoodMethod(c.env.cs, c.im) && RulesOf(RulesFor(c, key), key)
    ensures var fallback := GenerateFallback(c.env.cs, RulesFor(c, key), key, isUpperCase, nid);
            && fallback == [NewAppendingTrans(nid, key, isUpperCase)]
            && RecordsKey(c.env.cs, fallback + UowShortcut(c, syllable + fallback, nid + |fallback|), key, isUpperCase)
  {
    hide UowShortcut, RecordsKey, Generated, CharsetData.Good;
    var fallback := GenerateFallback(c.env.cs, RulesFor(c, key), key, isUpperCase, nid);
    AppendingRuleIsRule(RulesFor(c, key), key);
    assert fallback == [NewAppendingTrans(nid, key, isUpperCase)];
    LetterRecords(c.env.cs, nid, key, isUpperCase);
    ShortcutShape(c, syllable + fallback, nid + |fallback|);
    NothingIsVirtual();
    VirtualAround(c.env.cs, [], fallback, UowShortcut(c, syllable + fallback, nid + |fallback|), key, isUpperCase);
    assert [] + fallback == fallback;
  }

  lemma RefreshKeepsRecord(c: Config, comp: Composition, nid: nat)
    requires SelfShown(comp)
    ensures var (refreshed, extra) := Refresh(c, comp, nid);
            && SameButTargets(refreshed, comp) && IsVirtual(extra)
            && SelfShown(refreshed + extra) && Typed(c.env.cs, refreshed + extra) == Typed(c.env.cs, comp)
  {
    hide FindToneTarget, ExtractCvcTrans, IsValid, Typed, CharsetData.Good;
    var (refreshed, extra) := Refresh(c, comp, nid);
    RetargetingKeepsTyped(c.env.cs, refreshed, comp);
    VirtualIsSilent(c.env.cs, extra);
    TypedConcat(c.env.cs, refreshed, extra);
    forall t | t in refreshed && IsAppending(t) ensures t.rule.key == t.rule.result {
      var j :| 0 <= j < |refreshed| && refreshed[j] == t;
      assert comp[j] in comp;
    }
    SelfShownConcat(refreshed, extra);
    assert Typed(c.env.cs, comp) + "" == Typed(c.env.cs, comp);
  }

  lemma SyllableRecords(c: Config, syllable: Composition, key: char, isUpperCase: bool, nid: nat)
    requires GoodMethod(c.env.cs, c.im) && NoAppending(c.im) && SelfShown(syllable) && c.env.cs.lower(key) == key
    ensures var next := NewSyllable(c, syllable, key, isUpperCase, nid);
            SelfShown(next) && Typed(c.env.cs, next)
              == Typed(c.env.cs, syllable) + KeyRecord(c.env.cs, key, isUpperCase)
  {
    hide GenerateTransformations, GenerateFallback, UowShortcut, Refresh, GoodMethod, NoAppending, SelfShown, Typed,
         RulesOf, CharsetData.Good;
    var ts := KeyTransformations(c, syllable, key, isUpperCase, nid);
    RulesOfKey(c, key);
    GeneratedRecords(c.env, syllable, RulesFor(c, key), c.flags, key, isUpperCase, nid);
    FallbackRecords(c, syllable, key, isUpperCase, nid);
    SelfShownConcat(syllable, ts);
    TypedConcat(c.env.cs, syllable, ts);
    RefreshKeepsRecord(c, syllable + ts, nid + |ts|);
  }

  lemma CompositionRecords(c: Config, comp: Composition, key: char, isUpperCase: bool, nid: nat)
    requires GoodMethod(c.env.cs, c.im) && NoAppending(c.im) && SelfShown(comp) && c.env.cs.lower(key) == key
    ensures var next := NewComposition(c, comp, key, isUpperCase, nid);
            SelfShown(next) && Typed(c.env.cs, next) == Typed(c.env.cs, comp) + KeyRecord(c.env.cs, key, isUpperCase)
  {
    hide ExtractLastSyllable, NewSyllable, GoodMethod, NoAppending, SelfShown, Typed, CharsetData.Good;
    var (previous, syllable) := ExtractLastSyllable(c.env, comp);
    assert previous + syllable == comp;
    SelfShownConcat(previous, syllable);
    SyllableRecords(c, syllable, key, isUpperCase, nid);
    var next := NewSyllable(c, syllable, key, isUpperCase, nid);
    SelfShownConcat(previous, next);
    TypedConcat(c.env.cs, previous, syllable);
    TypedConcat(c.env.cs, previous, next);
  }

  // The keys of a composition are lower-case; the zero key of virtual entries is.
  ghost predicate LowerKeys(cs: Charset, comp: Composition) {
    forall t :: t in comp ==> cs.lower(t.rule.key) == t.rule.key
  }

  // A word typed again records what it recorded before, virtual entries and all.
  lemma {:induction false} RetypedWord(c: Config, word: Composition, nid: nat)
    requires GoodMethod(c.env.cs, c.im) && NoAppending(c.im) && LowerKeys(c.env.cs, word)
    ensures var r := Retyped(c, word, nid).comp; SelfShown(r) && Typed(c.env.cs, r) == Typed(c.env.cs, word)
  {
    hide GoodMethod, NoAppending, NewComposition, Typed, CharsetData.Good;
    if word == [] {
      NothingRecorded(c.env.cs);
    } else {
      var n := |word| - 1;
      assert word == word[..n] + [word[n]] && word[n] in word;
      assert forall t :: t in word[..n] ==> t in word;
      RetypedWord(c, word[..n], nid);
      var st := Retyped(c, word[..n], nid);
      CompositionRecords(c, st.comp, word[n].rule.key, word[n].isUpperCase, st.nextId);
      TypedConcat(c.env.cs, word[..n], [word[n]]);
      EntryRecords(c.env.cs, word[n]);
    }
  }

  lemma NothingRecorded(cs: Charset)
    ensures SelfShown([]) && Typed(cs, []) == ""
  {
  }

  // RestoreLastWord(true) keeps what is recorded, in every state.
  lemma RetypeKeepsKeys(c: Config, st: State)
    requires GoodMethod(c.env.cs, c.im) && NoAppending(c.im) && LowerKeys(c.env.cs, st.comp)
    ensures Typed(c.env.cs, RestoreLastWord(c, st, true).comp) == Typed(c.env.cs, st.comp)
  {
    hide GoodMethod, NoAppending, ExtractLastWord, Typed, Retyped, CharsetData.Good;
    var (previous, word) := ExtractLastWord(c.env.cs, st.comp, c.im.keys);
    assert previous + word == st.comp;
    if word != [] {
      assert forall t :: t in word ==> t in st.comp;
      RetypedWord(c, word, st.nextId);
      TypedConcat(c.env.cs, previous, word);
      TypedConcat(c.env.cs, previous, Retyped(c, word, st.nextId).comp);
    }
  }

  // ----- the invariant, and what a virtual entry leaves behind -----

  // The entries of a word, each with a key.
  ghost predicate KeyedWord(c: Config, word: Composition) {
    forall t :: t in word ==> EntryOk(c.env.cs, c.im.keys, t) && !IsBreak(c.env.cs, c.im.keys, t) && t.rule.key != NUL
  }

  // Identities from `nid` on, and no break.
  ghost predicate Fresh(c: Config, comp: Composition, nid: nat) {
    (forall i :: 0 <= i < |comp| ==> comp[i].id >= nid) && forall t :: t in comp ==> !IsBreak(c.env.cs, c.im.keys, t)
  }

  lemma KeyIsTyped(c: Config, t: Trans)
    requires GoodMethod(c.env.cs, c.im) && EntryOk(c.env.cs, c.im.keys, t) && t.rule.key != NUL
    requires !IsBreak(c.env.cs, c.im.keys, t)
    ensures IsTypedKey(c.env.cs, c.im.keys, t.rule.key)
  {
    var cs, keys := c.env.cs, c.im.keys;
    if t.rule.key in keys {
      ProcessableIffWordChar(cs, t.rule.key, keys);
    }
  }

  lemma GrowsFresh(c: Config, comp: Composition, next: Composition, nid: nat, first: nat)
    requires Grows(c.env.cs, c.im.keys, comp, next, nid) && first <= nid
    requires forall i :: 0 <= i < |comp| ==> comp[i].id >= first
    ensures forall i :: 0 <= i < |next| ==> next[i].id >= first
  {
    forall i | 0 <= i < |next| ensures next[i].id >= first {
      if i < |comp| {
        assert next[..|comp|][i] == next[i];
      }
    }
  }

  lemma {:induction false} RetypedKeepsInv(c: Config, word: Composition, nid: nat)
    requires GoodMethod(c.env.cs, c.im) && NoAppending(c.im) && KeyedWord(c, word)
    ensures var r := Retyped(c, word, nid);
            PlainInv(c, r) && r.nextId >= nid && Fresh(c, r.comp, nid)
  {
    hide GoodMethod, NoAppending, Inv, EntryOk, IsBreak, Plain, NewComposition, Grows, IsTypedKey, CharsetData.Good;
    if word == [] {
      NothingTyped(c, nid);
    } else {
      var n := |word| - 1;
      assert word[n] in word;
      RetypedKeepsInv(c, word[..n], nid);
      RetypedKey(c, Retyped(c, word[..n], nid), word[n], nid);
    }
  }

  lemma RetypedKey(c: Config, st: State, t: Trans, nid: nat)
    requires GoodMethod(c.env.cs, c.im) && NoAppending(c.im) && KeyedWord(c, [t])
    requires PlainInv(c, st) && st.nextId >= nid && Fresh(c, st.comp, nid)
    ensures var next := Advance(st, NewComposition(c, st.comp, t.rule.key, t.isUpperCase, st.nextId));
            PlainInv(c, next) && next.nextId >= nid && Fresh(c, next.comp, nid)
  {
    hide GoodMethod, NoAppending, Inv, EntryOk, IsBreak, Plain, NewComposition, Typed, CasedKey, Grows, IsTypedKey,
         IsRawDouble,
         ExtractLastSyllable, CharsetData.Good;
    assert t in [t];
    KeyIsTyped(c, t);
    CompositionStep(c, st, t.rule.key, t.isUpperCase);
    PlainComposition(c, st, t.rule.key, t.isUpperCase);
    GrowsFresh(c, st.comp, NewComposition(c, st.comp, t.rule.key, t.isUpperCase, st.nextId), st.nextId, nid);
  }

  lemma NothingTyped(c: Config, nid: nat)
    ensures PlainInv(c, State([], nid))
  {
  }

  // On a plain composition a key keeps it plain, and is never a raw double.
  lemma PlainComposition(c: Config, st: State, lowerKey: char, isUpperCase: bool)
    requires GoodMethod(c.env.cs, c.im) && NoAppending(c.im) && PlainInv(c, st)
             && IsTypedKey(c.env.cs, c.im.keys, lowerKey)
    ensures Plain(c.env.cs, NewComposition(c, st.comp, lowerKey, isUpperCase, st.nextId))
    ensures !IsRawDouble(ExtractLastSyllable(c.env, st.comp).1, lowerKey)
  {
    hide ExtractLastSyllable, NewSyllable, Separated, GoodMethod, NoAppending, WellFormed, TargetsIn, Plain, Letters,
         IsTypedKey, IsRawDouble;
    var cs := c.env.cs;
    var (previous, syllable) := ExtractLastSyllable(c.env, st.comp);
    assert previous + syllable == st.comp;
    WellFormedParts(cs, c.im.keys, previous, syllable, st.nextId);
    PlainConcat(cs, previous, syllable);
    PlainNeverDoubles(cs, syllable, lowerKey);
    PlainSyllable(c, syllable, lowerKey, isUpperCase, st.nextId);
    PlainConcat(cs, previous, NewSyllable(c, syllable, lowerKey, isUpperCase, st.nextId));
  }

  // A new word behind what was before it.
  lemma WordBehind(c: Config, previous: Composition, st: State, nid: nat)
    requires Shape(c.env.cs, c.im.keys, previous, nid) && Separated(c.env.cs, c.im.keys, previous)
    requires Inv(c, st) && Fresh(c, st.comp, nid) && nid <= st.nextId
    ensures Inv(c, State(previous + st.comp, st.nextId))
  {
    hide EntryOk, IsBreak;
    var cs, keys := c.env.cs, c.im.keys;
    var comp := previous + st.comp;
    ClosedConcat(previous, st.comp);
    forall k | |previous| <= k < |comp| ensures !IsBreak(cs, keys, comp[k]) {
      assert comp[k] == st.comp[k - |previous|] && st.comp[k - |previous|] in st.comp;
    }
    forall k | 0 <= k < |comp| && IsBreak(cs, keys, comp[k])
      ensures TargetsIn(comp[..k], comp[..k]) && TargetsIn(comp[k + 1..], comp[k + 1..])
    {
      assert comp[..k] == previous[..k] && comp[k + 1..] == previous[k + 1..] + st.comp;
      ClosedConcat(previous[k + 1..], st.comp);
    }
  }

  lemma ClosedConcat(a: Composition, b: Composition)
    requires TargetsIn(a, a) && TargetsIn(b, b)
    ensures TargetsIn(a + b, a + b)
  {
    forall t | t in a + b && t.target.Some? ensures HasLetter(a + b, t.target.value) {
      if t in a {
        HasLetterGrows(a, b, t.target.value);
      } else {
        HasLetterGrows(a, b, t.target.value);
      }
    }
  }

  // Without virtual entries the word typed again is plain and well formed.
  lemma KeyedWordKeepsInv(c: Config, st: State)
    requires GoodMethod(c.env.cs, c.im) && NoAppending(c.im) && PlainInv(c, st)
    requires KeyedWord(c, ExtractLastWord(c.env.cs, st.comp, c.im.keys).1)
    ensures PlainInv(c, RestoreLastWord(c, st, true))
  {
    hide GoodMethod, NoAppending, Plain, ExtractLastWord, Typed, Retyped, KeyedWord, Fresh, Inv;
    var (previous, word) := ExtractLastWord(c.env.cs, st.comp, c.im.keys);
    CutIsLossless(c.env.cs, st.comp, c.im.keys);
    if word != [] {
      RetypedKeepsInv(c, word, st.nextId);
      BeforeLastWord(c, st);
      WordBehind(c, previous, Retyped(c, word, st.nextId), st.nextId);
      PlainConcat(c.env.cs, previous, word);
      PlainConcat(c.env.cs, previous, Retyped(c, word, st.nextId).comp);
    }
  }

  lemma KeysAreLower(c: Config, st: State)
    requires GoodMethod(c.env.cs, c.im) && PlainInv(c, st) && c.env.cs.lower(NUL) == NUL
    ensures LowerKeys(c.env.cs, st.comp)
  {
    hide CharsetData.Good, BaseLetter, IsVowel;
    forall t | t in st.comp ensures c.env.cs.lower(t.rule.key) == t.rule.key {
      assert EntryOk(c.env.cs, c.im.keys, t);
    }
  }

  // A letter with the zero key stays.
  lemma VirtualLetterStays(c: Config, comp: Composition, key: char, isUpperCase: bool, nid: nat)
    requires SelfShown(comp) && !NoVirtual(comp)
    ensures !NoVirtual(NewComposition(c, comp, key, isUpperCase, nid))
  {
    hide ExtractLastSyllable, KeyTransformations, Refresh, NoVirtual, SelfShown, CharsetData.Good;
    var (previous, syllable) := ExtractLastSyllable(c.env, comp);
    assert previous + syllable == comp;
    VisibleConcat(previous, syllable);
    VisibleConcat(previous, NewSyllable(c, syllable, key, isUpperCase, nid));
    var ts := KeyTransformations(c, syllable, key, isUpperCase, nid);
    if !NoVirtual(syllable) {
      VisibleConcat(syllable, ts);
      RefreshStaysVirtual(c, syllable + ts, nid + |ts|);
    }
  }

  lemma RefreshStaysVirtual(c: Config, comp: Composition, nid: nat)
    requires !NoVirtual(comp)
    ensures var (refreshed, extra) := Refresh(c, comp, nid); !NoVirtual(refreshed + extra)
  {
    hide FindToneTarget, ExtractCvcTrans, IsValid, CharsetData.Good;
    var (refreshed, extra) := Refresh(c, comp, nid);
    var t :| t in comp && IsAppending(t) && t.rule.key == NUL;
    var j :| 0 <= j < |comp| && comp[j] == t;
    assert refreshed[j] == t && t in refreshed;
    VisibleConcat(refreshed, extra);
  }

  // The zero key, which has no rules, becomes such a letter.
  lemma ZeroBecomesLetter(c: Config, comp: Composition, isUpperCase: bool, nid: nat)
    requires GoodMethod(c.env.cs, c.im) && NoAppending(c.im) && SelfShown(comp) && c.env.cs.lower(NUL) == NUL
    ensures !NoVirtual(NewComposition(c, comp, NUL, isUpperCase, nid))
  {
    hide ExtractLastSyllable, KeyTransformations, Refresh, NoVirtual, SelfShown, GoodMethod, NoAppending,
         CharsetData.Good;
    var (previous, syllable) := ExtractLastSyllable(c.env, comp);
    assert previous + syllable == comp;
    SelfShownConcat(previous, syllable);
    VisibleConcat(previous, NewSyllable(c, syllable, NUL, isUpperCase, nid));
    var ts := KeyTransformations(c, syllable, NUL, isUpperCase, nid);
    ZeroFallsBack(c, syllable, isUpperCase, nid);
    VisibleConcat(syllable, ts);
    RefreshStaysVirtual(c, syllable + ts, nid + |ts|);
  }

  lemma ZeroFallsBack(c: Config, syllable: Composition, isUpperCase: bool, nid: nat)
    requires GoodMethod(c.env.cs, c.im) && NoAppending(c.im) && SelfShown(syllable) && c.env.cs.lower(NUL) == NUL
    ensures !NoVirtual(KeyTransformations(c, syllable, NUL, isUpperCase, nid))
  {
    hide FindTarget, ExtractCvcTrans, HasUhO, UowShortcut, GoodMethod, NoAppending, SelfShown, NoVirtual, RecordsKey,
         CharsetData.Good;
    RulesOfKey(c, NUL);
    NeverDoubles(syllable, NUL);
    TargetIsLetter(c.env, syllable, [], [], c.flags, nid);
    var vowels := FilterAppending(ExtractCvcTrans(c.env.cs, syllable).vo);
    if vowels != [] {
      TargetIsLetter(c.env, syllable + [Candidate(nid, UNDO_MARK, Some(vowels[0].id))], [], [], c.flags, nid + 1);
    }
    assert GenerateTransformations(c.env, syllable, [], c.flags, NUL, isUpperCase, nid) == [];
    FallbackRecords(c, syllable, NUL, isUpperCase, nid);
    var letter := NewAppendingTrans(nid, NUL, isUpperCase);
    ZeroIsVirtual(letter);
    VisibleConcat([letter], UowShortcut(c, syllable + [letter], nid + 1));
  }

  lemma ZeroIsVirtual(t: Trans)
    requires IsAppending(t) && t.rule.key == NUL
    ensures !NoVirtual([t])
  {
    assert t in [t];
  }

  lemma {:induction false} VirtualEntryIsTyped(c: Config, word: Composition, nid: nat)
    requires GoodMethod(c.env.cs, c.im) && NoAppending(c.im) && LowerKeys(c.env.cs, word) && c.env.cs.lower(NUL) == NUL
    requires exists t :: t in word && t.rule.key == NUL
    ensures !NoVirtual(Retyped(c, word, nid).comp)
  {
    hide GoodMethod, NoAppending, NewComposition, NoVirtual, SelfShown, CharsetData.Good;
    var n := |word| - 1;
    assert word == word[..n] + [word[n]] && word[n] in word;
    assert forall t :: t in word[..n] ==> t in word;
    RetypedWord(c, word[..n], nid);
    var st := Retyped(c, word[..n], nid);
    if word[n].rule.key == NUL {
      ZeroBecomesLetter(c, st.comp, word[n].isUpperCase, st.nextId);
    } else {
      VirtualEntryIsTyped(c, word[..n], nid);
      VirtualLetterStays(c, st.comp, word[n].rule.key, word[n].isUpperCase, st.nextId);
    }
  }

  // The invariant survives exactly if the last word has no virtual entry: each leaves a letter without a key.
  lemma RetypeKeepsInvIff(c: Config, st: State)
    requires GoodMethod(c.env.cs, c.im) && NoAppending(c.im) && PlainInv(c, st) && c.env.cs.lower(NUL) == NUL
    ensures PlainInv(c, RestoreLastWord(c, st, true))
       <==> forall t :: t in ExtractLastWord(c.env.cs, st.comp, c.im.keys).1 ==> t.rule.key != NUL
  {
    hide GoodMethod, NoAppending, Plain, ExtractLastWord, Retyped, EntryOk, IsBreak, Separated, NoVirtual,
         CharsetData.Good;
    var cs := c.env.cs;
    var (previous, word) := ExtractLastWord(cs, st.comp, c.im.keys);
    assert previous + word == st.comp;
    assert forall t :: t in word ==> t in st.comp;
    if forall t :: t in word ==> t.rule.key != NUL {
      LastWord(cs, st.comp, c.im.keys);
      KeyedWordKeepsInv(c, st);
    } else {
      var t :| t in word && t.rule.key == NUL;
      KeysAreLower(c, st);
      VirtualEntryIsTyped(c, word, st.nextId);
      VisibleConcat(previous, Retyped(c, word, st.nextId).comp);
      if Plain(cs, RestoreLastWord(c, st, true).comp) {
        PlainHasNoVirtual(cs, RestoreLastWord(c, st, true).comp);
      }
    }
  }

  // ----- the word typed again is the word typed -----

  // Every entry records a key of its case that the engine processes.
  predicate IsRetypable(c: Config, t: Trans) {
    var cs, key := c.env.cs, CasedKey(c.env.cs, t.rule.key, t.isUpperCase);
    t.rule.key != NUL && cs.lower(key) == t.rule.key && cs.isUpper(key) == t.isUpperCase && IsProcessed(c, key, false)
  }

  // Typing a word again from its entries is typing the keys it recorded, one by one, from nothing.
  lemma {:induction false} RetypedIsTyped(c: Config, word: Composition, nid: nat)
    requires forall t :: t in word ==> IsRetypable(c, t)
    ensures Retyped(c, word, nid) == TypeAll(c, State([], nid), Typed(c.env.cs, word), false)
  {
    hide CharsetData.Good, CanProcessKey, NewComposition, Typed;
    if word == [] {
      NothingRecorded(c.env.cs);
    } else {
      var n := |word| - 1;
      var t, keys := word[n], Typed(c.env.cs, word[..n]);
      assert t in word && forall x :: x in word[..n] ==> x in word;
      RetypedIsTyped(c, word[..n], nid);
      OneEntry(c.env.cs, t);
      TypedConcat(c.env.cs, word[..n], [t]);
      assert word == word[..n] + [t];
      var key := CasedKey(c.env.cs, t.rule.key, t.isUpperCase);
      assert (keys + [key])[..|keys + [key]| - 1] == keys;
    }
  }

  // Restoring to Vietnamese types the recorded keys of the last word again behind what stands before it.
  lemma RestoreTypesAgain(c: Config, st: State)
    requires var word := ExtractLastWord(c.env.cs, st.comp, c.im.keys).1;
             forall t :: t in word ==> IsRetypable(c, t)
    ensures var previous := ExtractLastWord(c.env.cs, st.comp, c.im.keys).0;
            RestoreLastWord(c, st, true).comp
            == previous + TypeAll(c, State([], st.nextId), ProcessedString(c, st, ENGLISH, LastWordOnly), false).comp
  {
    hide CharsetData.Good, ExtractLastWord, IsRetypable, TypeAll, Retyped;
    var (previous, word) := ExtractLastWord(c.env.cs, st.comp, c.im.keys);
    assert previous + word == st.comp;
    RetypedIsTyped(c, word, st.nextId);
    if word == [] {
      NothingTypedAgain(c, st.nextId);
      assert previous + [] == previous;
    }
  }

  lemma NothingTypedAgain(c: Config, nid: nat)
    ensures Retyped(c, [], nid) == State([], nid)
  {
  }
}
