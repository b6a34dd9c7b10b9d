/**
 Where a tone can lose its target: only behind a bare "qu".  So whoever types no q never loses one, and
 every backspace pops exactly one letter.
 */
module BambooQu {
  import opened Options
  import opened BambooChars
  import opened BambooSpelling
  import opened BambooSpellingTables
  import opened BambooFlattener
  import opened BambooUtils
  import opened BambooKeys
  import opened BambooShape
  import opened BambooGenerators
  import opened BambooSteps
  import opened BambooRuns
  import opened BambooWords
  import opened BambooSplit
  import opened BambooBackspace
  import opened BambooVisible
  import opened BambooOps

  // ----- vowel words are short -----

  ghost predicate ShortWords(row: string) {
    forall i, j :: IsWord(row, i, j) ==> j - i <= 3
  }

  ghost predicate ShortVowels(sp: Spelling) {
    forall k :: 0 <= k < |sp.vowelSeqs| ==> ShortWords(sp.vowelSeqs[k])
  }

  lemma ValidVowelsAreFew(cs: Charset, sp: Spelling, fc: string, vo: string, lc: string)
    requires ShortVowels(sp) && IsValidCVC(cs, sp, fc, vo, lc, false)
    ensures |vo| <= 3
  {
    hide Adjacent;
    if vo != "" {
      var rows := VoRows(cs, sp, vo, lc, false);
      assert rows[0] in rows;
      var row := sp.vowelSeqs[rows[0]];
      assert RowMatches(cs, row, vo, lc != "", false);
      var i, j :| 0 <= i <= j <= |row| && IsWord(row, i, j) && WordMatches(cs, row[i..j], vo, lc != "", false);
    }
  }

  // What the backward scan does on a list whose last run is known.
  lemma {:induction false} AtomicIs(cs: Charset, head: Composition, run: Composition, last: Composition,
                                    lastIsVowel: bool)
    requires forall t :: t in run ==> !StopsRun(cs, t, lastIsVowel)
    requires head != [] ==> StopsRun(cs, head[|head| - 1], lastIsVowel)
    ensures ExtractAtomicTrans(cs, head + run, last, lastIsVowel) == (head, run + last)
    decreases |run|
  {
    hide StopsRun;
    var comp := head + run;
    if run == [] {
      assert comp == head && run + last == last;
    } else {
      var n := |run| - 1;
      assert comp[|comp| - 1] == run[n] && run[n] in run;
      assert comp[..|comp| - 1] == head + run[..n];
      AtomicIs(cs, head, run[..n], [run[n]] + last, lastIsVowel);
      assert run[..n] + ([run[n]] + last) == run + last;
    }
  }

  ghost predicate AllVowels(cs: Charset, letters: Composition, are: bool) {
    forall t :: t in letters ==> t.target.None? && IsVowel(cs, t.rule.result) == are
  }

  // The three runs of a list of letters.
  lemma RunsAre(cs: Charset, fc: Composition, vo: Composition, lc: Composition)
    requires AllVowels(cs, fc, false) && AllVowels(cs, vo, true) && AllVowels(cs, lc, false) && vo != []
    ensures ExtractCvcAppendingTrans(cs, fc + vo + lc)
            == if IsQualifiedConsonant(fc, vo, lc) then Cvc(fc + [vo[0]], vo[1..], lc, false)
              else Cvc(fc, vo, lc, false)
  {
    hide IsVowel, IsQualifiedConsonant;
    assert (fc + vo)[|fc + vo| - 1] in vo;
    AtomicIs(cs, fc + vo, lc, [], false);
    if fc != [] {
      assert fc[|fc| - 1] in fc;
    }
    AtomicIs(cs, fc, vo, [], true);
    assert lc + [] == lc && vo + [] == vo;
  }

  // ----- the vowel part -----

  lemma {:induction false} AllShown(letters: Composition)
    requires forall t :: t in letters ==> IsAppending(t) && t.rule.key != NUL
    ensures Letters(letters, false) == letters
  {
    hide IsAppending, CharsetData.Good;
    if letters != [] {
      var n := |letters| - 1;
      assert letters[n] in letters;
      assert forall t :: t in letters[..n] ==> t in letters;
      AllShown(letters[..n]);
      assert letters == letters[..n] + [letters[n]];
    }
  }

  lemma {:induction false} FilterEffects(a: Composition, b: Composition)
    requires forall t :: t in b ==> !IsAppending(t)
    ensures FilterAppending(a + b) == FilterAppending(a)
  {
    hide IsAppending, CharsetData.Good;
    if b == [] {
      assert a + b == a;
    } else {
      var n := |b| - 1;
      assert (a + b)[..|a + b| - 1] == a + b[..n];
      assert b[n] in b;
      assert forall t :: t in b[..n] ==> t in b;
      FilterEffects(a, b[..n]);
    }
  }

  lemma {:induction false} FilterLetters(letters: Composition)
    requires forall t :: t in letters ==> IsAppending(t)
    ensures FilterAppending(letters) == letters
  {
    hide IsAppending, CharsetData.Good;
    if letters != [] {
      var n := |letters| - 1;
      assert letters[n] in letters;
      assert forall t :: t in letters[..n] ==> t in letters;
      FilterLetters(letters[..n]);
      assert letters == letters[..n] + [letters[n]];
    }
  }

  // The tone finds a vowel among one to three of them.
  lemma FewVowelsCarry(cs: Charset, vo: Composition, hasLastConsonant: bool, std: bool)
    ensures PickToneVowel(cs, vo, hasLastConsonant, std).None? ==>
            |FilterAppending(vo)| == 0 || |FilterAppending(vo)| > 3
  {
  }

  // Every letter shown, every effect targeted.
  ghost predicate Tidy(cs: Charset, keys: seq<char>, comp: Composition, nid: nat) {
    WellFormed(cs, keys, comp, nid) && NoVirtual(comp) && AllTargeted(comp)
  }

  lemma TidyLetters(cs: Charset, keys: seq<char>, comp: Composition, nid: nat)
    requires Tidy(cs, keys, comp, nid)
    ensures forall t :: t in TargetLess(comp) ==> t in comp && t.target.None? && IsAppending(t) && t.rule.key != NUL
    ensures LettersAreTargetLess(comp) && Distinct(TargetLess(comp), nid)
    ensures |TargetLess(comp)| <= |comp|
  {
    hide IsPlain, BaseLetter, CharsetData.Good;
    TargetLessMembers(comp);
    TargetLessDistinct(comp, nid);
    TargetLessIsShorter(comp);
    forall t | t in comp && IsAppending(t) ensures t.target.None? {
      assert EntryOk(cs, keys, t);
    }
  }

  lemma {:induction false} TargetLessIsShorter(comp: Composition)
    ensures |TargetLess(comp)| <= |comp|
  {
    if comp != [] {
      TargetLessIsShorter(comp[..|comp| - 1]);
    }
  }

  // A valid syllable has at most three vowels.
  lemma ValidHasFewVowels(env: Env, keys: seq<char>, comp: Composition, nid: nat)
    requires Tidy(env.cs, keys, comp, nid) && ShortVowels(env.sp) && IsValid(env, comp, false)
    ensures |ExtractCvcAppendingTrans(env.cs, TargetLess(comp)).vo| <= 3
  {
    hide IsValidCVC, ExtractCvcAppendingTrans, HasValidTone, LastToneEffect, Tidy, ShortVowels, CharsetData.Good;
    var cs := env.cs;
    var list := TargetLess(comp);
    TidyLetters(cs, keys, comp, nid);
    var c := ExtractCvcAppendingTrans(cs, list);
    assert c.fc + c.vo + c.lc == list;
    if |comp| > 1 {
      DistinctParts(c.fc + c.vo, c.lc, nid);
      DistinctParts(c.fc, c.vo, nid);
      forall t | t in c.vo ensures t in list {
        assert t in c.fc + c.vo + c.lc;
      }
      AllShown(c.vo);
      PartRenders(cs, comp, c.vo, TONELESS_LOWER, nid);
      var whole := ExtractCvcTrans(cs, comp);
      assert whole.vo == c.vo + Attached(comp, c.vo);
      ValidVowelsAreFew(cs, env.sp, Canvas(cs, whole.fc, TONELESS_LOWER), Canvas(cs, whole.vo, TONELESS_LOWER),
                        Canvas(cs, whole.lc, TONELESS_LOWER));
    }
  }

  // ----- exactly when -----

  // The letters are q and u, and then no vowel.
  predicate IsBareQu(cs: Charset, letters: Composition) {
    && |letters| >= 2 && letters[0].rule.result == 'q' && letters[1].rule.result == 'u'
    && !IsVowel(cs, 'q') && IsVowel(cs, 'u') && forall i :: 2 <= i < |letters| ==> !IsVowel(cs, letters[i].rule.result)
  }

  // Vowels in front of the last consonants, and yet an empty vowel part: that is "qu".
  lemma EmptyVowelPartIsQu(cs: Charset, letters: Composition)
    requires forall t :: t in letters ==> t.target.None?
    ensures var c := ExtractCvcAppendingTrans(cs, letters);
            !c.voIsNil && c.vo == [] <==> IsBareQu(cs, letters)
  {
    hide ExtractAtomicTrans, IsVowel;
    var (head, lc) := ExtractAtomicTrans(cs, letters, [], false);
    var (fc, vowel) := ExtractAtomicTrans(cs, head, [], true);
    AtomicRun(cs, letters, [], false);
    AtomicRun(cs, head, [], true);
    assert letters[|head|..] + [] == letters[|head|..] && head[|fc|..] + [] == head[|fc|..];
    var c := ExtractCvcAppendingTrans(cs, letters);
    if !c.voIsNil && c.vo == [] {
      assert |vowel| == 1 && |fc| == 1;
      assert head == fc + vowel && letters == head + lc;
      assert letters[0] == fc[0] && letters[1] == vowel[0] && letters[0] in letters && letters[1] in letters;
      assert StopsRun(cs, fc[0], true) && StopsRun(cs, head[1], false);
      forall i | 2 <= i < |letters| ensures !IsVowel(cs, letters[i].rule.result) {
        assert !StopsRun(cs, letters[i], false) && letters[i] in letters;
      }
    }
    if IsBareQu(cs, letters) {
      QuIsSplit(cs, letters);
    }
  }

  lemma QuIsSplit(cs: Charset, letters: Composition)
    requires IsBareQu(cs, letters) && forall t :: t in letters ==> t.target.None?
    ensures var c := ExtractCvcAppendingTrans(cs, letters); !c.voIsNil && c.vo == []
  {
    hide IsVowel, ExtractCvcAppendingTrans;
    var q, u, rest := letters[0], letters[1], letters[2..];
    assert letters == [q] + [u] + rest;
    assert q in letters && u in letters;
    forall t | t in rest ensures t in letters && !IsVowel(cs, t.rule.result) {
      var i :| 0 <= i < |rest| && rest[i] == t;
      assert letters[i + 2] == t;
    }
    RunsAre(cs, [q], [u], rest);
  }

  // A refresh drops a tone exactly if a tone is there and the letters are a bare "qu".
  lemma DropsExactlyBehindQu(c: Config, comp: Composition, nid: nat)
    requires Tidy(c.env.cs, c.im.keys, comp, nid) && ShortVowels(c.env.sp)
    ensures RefreshDrops(c, comp) <==>
              c.flags.free && IsValid(c.env, comp, false) && LastToneIndex(comp) > 0
                && IsBareQu(c.env.cs, TargetLess(comp))
  {
    hide IsValid, ExtractCvcAppendingTrans, IsBareQu, Tidy, ShortVowels, PickToneVowel, CharsetData.Good;
    var cs := c.env.cs;
    var list := TargetLess(comp);
    TidyLetters(cs, c.im.keys, comp, nid);
    EmptyVowelPartIsQu(cs, list);
    var s := ExtractCvcAppendingTrans(cs, list);
    forall t | t in s.vo ensures t in list {
      assert t in s.fc + s.vo + s.lc;
    }
    AttachedMembers(comp, s.vo);
    FilterEffects(s.vo, Attached(comp, s.vo));
    FilterLetters(s.vo);
    var whole := ExtractCvcTrans(cs, comp);
    FewVowelsCarry(cs, whole.vo, whole.lc != [], c.flags.std);
    if IsValid(c.env, comp, false) {
      ValidHasFewVowels(c.env, c.im.keys, comp, nid);
    }
    if s.vo == [] {
      assert whole.vo == [] + Attached(comp, []) == [];
      NoVowelCarries(cs, whole.lc != [], c.flags.std);
    }
  }

  lemma NoVowelCarries(cs: Charset, hasLastConsonant: bool, std: bool)
    ensures PickToneVowel(cs, [], hasLastConsonant, std) == None
  {
  }

  // ----- runs without the letter q -----

  // No entry comes from a q, and no letter is one.
  ghost predicate QFree(comp: Composition) {
    forall t :: t in comp ==> t.rule.key != 'q' && (IsAppending(t) ==> t.rule.result != 'q')
  }

  // No rule makes a q of its key.
  ghost predicate MakesNoQ(cs: Charset, im: InputMethod) {
    forall r :: r in im.rules && IsAppendingRule(r) ==> cs.lower(r.effectOn) != 'q'
  }

  ghost predicate WithoutQ(cs: Charset, op: Op) {
    op.Type? ==> cs.lower(op.key) != NUL && cs.lower(op.key) != 'q'
  }

  lemma QFreeConcat(a: Composition, b: Composition)
    ensures QFree(a + b) <==> QFree(a) && QFree(b)
  {
    if QFree(a + b) {
      assert forall t :: t in a ==> t in a + b;
      assert forall t :: t in b ==> t in a + b;
    }
  }

  // Letters without a q are no "qu".
  lemma NoQNoDrop(c: Config, comp: Composition, nid: nat)
    requires Tidy(c.env.cs, c.im.keys, comp, nid) && ShortVowels(c.env.sp) && QFree(comp)
    ensures !RefreshDrops(c, comp)
  {
    hide RefreshDrops, ShortVowels, Tidy, CharsetData.Good;
    DropsExactlyBehindQu(c, comp, nid);
    TidyLetters(c.env.cs, c.im.keys, comp, nid);
    var list := TargetLess(comp);
    if list != [] {
      assert list[0] in list;
    }
  }

  // ----- what a key other than q generates -----

  lemma {:induction false} UndoMarksAreQFree(cs: Charset, comp: Composition, rule: Rule, i: nat, nid: nat)
    requires i <= |comp|
    ensures QFree(UndoMarks(cs, comp, rule, i, nid))
  {
    hide UndoShows, CharsetData.Good;
    if i > 0 {
      UndoMarksAreQFree(cs, comp, rule, i - 1, nid);
      UndoMarksAreQFree(cs, comp, rule, i - 1, nid + 1);
    }
  }

  lemma {:induction false} UndoIsQFree(cs: Charset, comp: Composition, rules: seq<Rule>, flags: Flags, nid: nat)
    ensures QFree(GenerateUndo(cs, comp, rules, flags, nid))
  {
    hide UndoMarks, ToneTargetFor, CharsetData.Good;
    if rules != [] {
      UndoMarksAreQFree(cs, comp, rules[0], |comp|, nid);
      UndoIsQFree(cs, comp, rules[1..], flags, nid + |UndoRule(cs, comp, rules[0], flags, nid)|);
    }
  }

  lemma ApplyIsQFree(env: Env, comp: Composition, rules: seq<Rule>, flags: Flags, target: nat, rule: Rule,
                     isUpperCase: bool, nid: nat)
    requires rule.key != 'q' && !IsAppendingRule(rule)
    ensures QFree(ApplyRule(env, comp, rules, flags, target, rule, isUpperCase, nid))
  {
    hide FindTarget, IsValid, CharsetData.Good;
    TargetIsLetter(env, comp + [Trans(nid, rule, Some(target), isUpperCase)], rules, rules, flags, nid + 1);
  }

  lemma RewriteIsQFree(env: Env, comp: Composition, rules: seq<Rule>, flags: Flags, isUpperCase: bool, nid: nat)
    requires forall r :: r in rules ==> r.key != 'q'
    ensures QFree(UoRewrite(env, comp, rules, flags, isUpperCase, nid))
  {
    hide FindTarget, ExtractCvcTrans, HasUhO, CharsetData.Good;
    var vowels := FilterAppending(ExtractCvcTrans(env.cs, comp).vo);
    if vowels != [] {
      TargetIsLetter(env, comp + [Candidate(nid, UNDO_MARK, Some(vowels[0].id))], rules, rules, flags, nid + 1);
    }
  }

  lemma GeneratedIsQFree(env: Env, comp: Composition, rules: seq<Rule>, flags: Flags, key: char, isUpperCase: bool,
                         nid: nat)
    requires key != 'q' && forall r :: r in rules ==> r.key != 'q'
    ensures QFree(GenerateTransformations(env, comp, rules, flags, key, isUpperCase, nid))
  {
    hide FindTarget, ApplyRule, UoRewrite, GenerateUndo, CharsetData.Good;
    var found := FindTarget(env, comp, rules, rules, flags, nid);
    if found.Some? {
      TargetIsLetter(env, comp, rules, rules, flags, nid);
      ApplyIsQFree(env, comp, rules, flags, found.value.0, found.value.1, isUpperCase, nid);
    } else {
      RewriteIsQFree(env, comp, rules, flags, isUpperCase, nid);
      UndoIsQFree(env.cs, comp, rules, flags, nid);
      var undo := GenerateUndo(env.cs, comp, rules, flags, nid);
      QFreeConcat(undo, [NewAppendingTrans(nid + |undo|, key, isUpperCase)]);
    }
  }

  lemma FallbackIsQFree(c: Config, key: char, isUpperCase: bool, nid: nat)
    requires NoAppended(c.im) && MakesNoQ(c.env.cs, c.im) && key != 'q'
    ensures QFree(GenerateFallback(c.env.cs, RulesFor(c, key), key, isUpperCase, nid))
  {
    hide CharsetData.Good;
    var rules := RulesFor(c, key);
    AppendingRuleIsRule(rules, key);
    assert VirtualLetters(c.env.cs, [], isUpperCase, nid + 1) == [];
  }

  lemma ShortcutIsQFree(c: Config, syllable: Composition, nid: nat)
    ensures QFree(UowShortcut(c, syllable, nid))
  {
    hide FindTarget, RulesFor, HasUOhTail, CharsetData.Good;
    if |c.im.superKeys| > 0 {
      var rules := RulesFor(c, c.im.superKeys[0]);
      TargetIsLetter(c.env, syllable, rules, rules, c.flags, nid);
    }
  }

  lemma KeyIsQFree(c: Config, syllable: Composition, key: char, isUpperCase: bool, nid: nat)
    requires NoAppended(c.im) && MakesNoQ(c.env.cs, c.im) && c.env.cs.lower(key) == key != 'q'
    ensures QFree(KeyTransformations(c, syllable, key, isUpperCase, nid))
  {
    hide GenerateTransformations, GenerateFallback, UowShortcut, NoAppended, MakesNoQ, QFree, CharsetData.Good;
    var rules := RulesFor(c, key);
    GeneratedIsQFree(c.env, syllable, rules, c.flags, key, isUpperCase, nid);
    var fallback := GenerateFallback(c.env.cs, rules, key, isUpperCase, nid);
    FallbackIsQFree(c, key, isUpperCase, nid);
    ShortcutIsQFree(c, syllable + fallback, nid + |fallback|);
    QFreeConcat(fallback, UowShortcut(c, syllable + fallback, nid + |fallback|));
  }

  lemma RefreshIsQFree(c: Config, comp: Composition, nid: nat)
    requires QFree(comp)
    ensures var (refreshed, extra) := Refresh(c, comp, nid); QFree(refreshed + extra)
  {
    hide FindToneTarget, ExtractCvcTrans, IsValid, CharsetData.Good;
    var (refreshed, extra) := Refresh(c, comp, nid);
    forall t | t in refreshed ensures t.rule.key != 'q' && (IsAppending(t) ==> t.rule.result != 'q') {
      var j :| 0 <= j < |refreshed| && refreshed[j] == t;
      assert comp[j] in comp;
    }
    QFreeConcat(refreshed, extra);
  }

  // ----- the steps of a run -----

  // What holds in every state of such a run.
  ghost predicate QFreeInv(c: Config, st: State) {
    VisibleInv(c, st) && AllTargeted(st.comp) && QFree(st.comp)
  }

  // What is assumed of the spelling and of the method.
  ghost predicate QFreeConfig(c: Config) {
    && GoodMethod(c.env.cs, c.im) && NoAppended(c.im) && MakesNoQ(c.env.cs, c.im) && ShortVowels(c.env.sp)
  }

  lemma NothingDropped(c: Config)
    ensures !RefreshDrops(c, [])
  {
  }

  lemma FullSyllableIsTidy(c: Config, syllable: Composition, key: char, isUpperCase: bool, nid: nat)
    requires QFreeConfig(c) && IsTypedKey(c.env.cs, c.im.keys, key) && key != 'q'
    requires WellFormed(c.env.cs, c.im.keys, syllable, nid) && NoVirtual(syllable) && AllTargeted(syllable)
             && QFree(syllable)
    ensures var ts := KeyTransformations(c, syllable, key, isUpperCase, nid);
            Tidy(c.env.cs, c.im.keys, syllable + ts, nid + |ts|) && QFree(syllable + ts)
  {
    hide GoodMethod, NoAppended, MakesNoQ, ShortVowels, KeyTransformations, EntryOk, Distinct, AllTargeted, NoVirtual,
         QFree, Typed, IsRawDouble,
         Generated, Grows, CharsetData.Good;
    var cs, keys := c.env.cs, c.im.keys;
    var ts := KeyTransformations(c, syllable, key, isUpperCase, nid);
    TransformationsShape(c, syllable, key, isUpperCase, nid);
    TransformationsVisible(c, syllable, key, isUpperCase, nid);
    KeyIsQFree(c, syllable, key, isUpperCase, nid);
    AppendGenerated(cs, keys, syllable, ts, nid);
    GrownIsWellFormed(cs, keys, syllable, syllable + ts, nid);
    VisibleConcat(syllable, ts);
    AllTargetedConcat(syllable, ts);
    QFreeConcat(syllable, ts);
  }

  lemma SyllableOfState(c: Config, st: State)
    requires QFreeInv(c, st)
    ensures var (previous, syllable) := ExtractLastSyllable(c.env, st.comp);
            && QFree(previous) && WellFormed(c.env.cs, c.im.keys, syllable, st.nextId)
            && NoVirtual(syllable) && AllTargeted(syllable) && QFree(syllable)
  {
    hide ExtractLastSyllable, EntryOk, Distinct, AllTargeted, NoVirtual, QFree, TargetsIn, Separated, CharsetData.Good;
    var (previous, syllable) := ExtractLastSyllable(c.env, st.comp);
    assert previous + syllable == st.comp;
    WellFormedParts(c.env.cs, c.im.keys, previous, syllable, st.nextId);
    VisibleConcat(previous, syllable);
    AllTargetedConcat(previous, syllable);
    QFreeConcat(previous, syllable);
  }

  lemma KeyDropsNothing(c: Config, st: State, key: char, english: bool)
    requires QFreeConfig(c) && QFreeInv(c, st) && WithoutQ(c.env.cs, Type(key, english))
    ensures !StepDrops(c, st, Type(key, english)) && QFree(ProcessKey(c, st, key, english).comp)
  {
    hide ExtractLastSyllable, QFreeConfig, QFreeInv, KeyTransformations, RefreshDrops, Refresh, IsTypedKey, QFree,
         Tidy, WellFormed, NoVirtual,
         AllTargeted, CanProcessKey, CharsetData.Good;
    var cs := c.env.cs;
    var lowerKey, isUpperCase := cs.lower(key), cs.isUpper(key);
    if IsProcessed(c, key, english) {
      ProcessedIsVietnamese(c, key, english);
      TypedKeyIsProcessed(c, key);
      SyllableOfState(c, st);
      var (previous, syllable) := ExtractLastSyllable(c.env, st.comp);
      var ts := KeyTransformations(c, syllable, lowerKey, isUpperCase, st.nextId);
      FullSyllableIsTidy(c, syllable, lowerKey, isUpperCase, st.nextId);
      ShortOf(c);
      NoQNoDrop(c, syllable + ts, st.nextId + |ts|);
      RefreshIsQFree(c, syllable + ts, st.nextId + |ts|);
      QFreeConcat(previous, NewSyllable(c, syllable, lowerKey, isUpperCase, st.nextId));
    } else {
      NothingDropped(c);
      FreeOf(c, st);
      LetterIsQFree(st.nextId, lowerKey, isUpperCase);
      QFreeConcat(st.comp, [NewAppendingTrans(st.nextId, lowerKey, isUpperCase)]);
    }
  }

  lemma ShortOf(c: Config)
    requires QFreeConfig(c)
    ensures ShortVowels(c.env.sp)
  {
  }

  lemma FreeOf(c: Config, st: State)
    requires QFreeInv(c, st)
    ensures QFree(st.comp)
  {
  }

  lemma LetterIsQFree(id: nat, key: char, isUpperCase: bool)
    requires key != 'q'
    ensures QFree([NewAppendingTrans(id, key, isUpperCase)])
  {
  }

  lemma RestIsTidy(c: Config, word: Composition, letter: Trans, nid: nat)
    requires Tidy(c.env.cs, c.im.keys, word, nid) && QFree(word)
    ensures Tidy(c.env.cs, c.im.keys, Without(word, letter), nid) && QFree(Without(word, letter))
  {
    hide EntryOk, Distinct, CharsetData.Good;
    WithoutMembers(word, letter);
    WithoutDistinct(word, letter, nid);
  }

  lemma WordOfState(c: Config, st: State)
    requires QFreeInv(c, st)
    ensures var (previous, word) := ExtractLastWord(c.env.cs, st.comp, c.im.keys);
            QFree(previous) && Tidy(c.env.cs, c.im.keys, word, st.nextId) && QFree(word)
  {
    hide ExtractLastWord, EntryOk, Distinct, AllTargeted, NoVirtual, QFree, TargetsIn, Separated, CharsetData.Good;
    var (previous, word) := ExtractLastWord(c.env.cs, st.comp, c.im.keys);
    assert previous + word == st.comp;
    WellFormedParts(c.env.cs, c.im.keys, previous, word, st.nextId);
    VisibleConcat(previous, word);
    AllTargetedConcat(previous, word);
    QFreeConcat(previous, word);
  }

  lemma BackspaceDropsNothing(c: Config, st: State, refresh: bool)
    requires QFreeConfig(c) && QFreeInv(c, st)
    ensures !StepDrops(c, st, Backspace(refresh)) && QFree(RemoveLastChar(c, st, refresh).comp)
  {
    hide ExtractLastWord, QFreeConfig, QFreeInv, RefreshDrops, Refresh, QFree, Tidy, CanProcessKey, CharsetData.Good;
    var last := FindLastAppending(st.comp);
    NothingDropped(c);
    FreeOf(c, st);
    if last.Some? {
      if CanProcessKey(c.env.cs, last.value.rule.key, c.im.keys) {
        WordOfState(c, st);
        var (previous, word) := ExtractLastWord(c.env.cs, st.comp, c.im.keys);
        var rest := Without(word, last.value);
        RestIsTidy(c, word, last.value, st.nextId);
        ShortOf(c);
        NoQNoDrop(c, rest, st.nextId);
        RefreshIsQFree(c, rest, st.nextId);
        var (refreshed, extra) := if refresh then Refresh(c, rest, st.nextId) else (rest, []);
        assert rest + [] == rest;
        QFreeConcat(previous, refreshed + extra);
        assert previous + (refreshed + extra) == previous + refreshed + extra;
      } else {
        var n := |st.comp| - 1;
        assert st.comp == st.comp[..n] + [st.comp[n]];
        QFreeConcat(st.comp[..n], [st.comp[n]]);
      }
    }
  }

  lemma {:induction false} BrokenIsQFree(word: Composition, nid: nat)
    requires QFree(word)
    ensures QFree(BreakComposition(word, nid))
  {
    if word != [] {
      var n := |word| - 1;
      assert word[n] in word && forall t :: t in word[..n] ==> t in word;
      BrokenIsQFree(word[..n], nid);
    }
  }

  lemma RestoreDropsNothing(c: Config, st: State)
    requires QFreeInv(c, st)
    ensures !StepDrops(c, st, Restore) && QFree(RestoreLastWord(c, st, false).comp)
  {
    hide ExtractLastWord, QFreeInv, RefreshDrops, QFree, Tidy, CharsetData.Good;
    NothingDropped(c);
    WordOfState(c, st);
    FreeOf(c, st);
    var (previous, word) := ExtractLastWord(c.env.cs, st.comp, c.im.keys);
    BrokenIsQFree(word, st.nextId);
    QFreeConcat(previous, BreakComposition(word, st.nextId));
  }

  // ----- every run -----

  // Whoever types no q never loses a tone, with free tone marking as well, and through any backspaces and restores.
  lemma {:induction false} WithoutQDropsNothing(c: Config, ops: seq<Op>)
    requires QFreeConfig(c) && forall op :: op in ops ==> WithoutQ(c.env.cs, op)
    ensures DropsNothing(c, ops) && QFreeInv(c, RunOps(c, ops))
  {
    hide Inv, QFreeConfig, WithoutQ, Apply, StepDrops;
    if ops == [] {
      EmptyInv(c);
      NoLettersAreVisible([]);
    } else {
      var n := |ops| - 1;
      assert ops[n] in ops;
      WithoutQDropsNothing(c, ops[..n]);
      StepWithoutQ(c, RunOps(c, ops[..n]), ops[n]);
    }
  }

  lemma StepWithoutQ(c: Config, st: State, op: Op)
    requires QFreeConfig(c) && QFreeInv(c, st) && WithoutQ(c.env.cs, op)
    ensures QFreeInv(c, Apply(c, st, op)) && !StepDrops(c, st, op)
  {
    hide Inv, GoodMethod, NoAppended, MakesNoQ, ProcessKey, RemoveLastChar, RestoreLastWord, StepDrops, IsProcessed,
         ShortVowels,
         AllTargeted, QFree, NoVirtual, CharsetData.Good;
    match op
    case Type(key, english) =>
      KeyDropsNothing(c, st, key, english);
      KeyKeepsVisible(c, st, key, english);
      if IsProcessed(c, key, english) {
        ProcessedIsVietnamese(c, key, english);
        KeyKeepsTargets(c, st, key);
      } else {
        UnprocessedKeepsTargets(c, st, key, english);
      }
    case Backspace(refresh) =>
      BackspaceDropsNothing(c, st, refresh);
      BackspaceKeepsVisible(c, st, refresh);
      BackspaceKeepsTargets(c, st, refresh);
    case Restore =>
      RestoreDropsNothing(c, st);
      RestoreKeepsVisible(c, st);
      RestoreKeepsTargets(c, st);
  }

  // So a backspace pops exactly one letter of a nonempty text.
  lemma BackspaceWithoutQPops(c: Config, ops: seq<Op>, refresh: bool)
    requires QFreeConfig(c) && forall op :: op in ops ==> WithoutQ(c.env.cs, op)
    ensures var before := Letters(RunOps(c, ops).comp, false);
            before != [] ==> Letters(RunOps(c, ops + [Backspace(refresh)]).comp, false) == before[..|before| - 1]
  {
    hide Inv, GoodMethod, NoAppended, MakesNoQ, RemoveLastChar, ShortVowels, AllTargeted, QFree, Letters, Pops,
         FindLastAppending, NoVirtual,
         WithoutQ;
    var st := RunOps(c, ops);
    WithoutQDropsNothing(c, ops);
    TargetedPops(c, st);
    LastLetter(st.comp);
    BackspacePops(c, st, refresh);
    assert (ops + [Backspace(refresh)])[..|ops|] == ops;
  }

  // ----- the shipped spelling -----

  ghost predicate NoBlank(s: string, i: int, j: int)
    requires 0 <= i <= j <= |s|
  {
    forall m :: i <= m < j ==> s[m] != ' '
  }

  // Of any four characters one is a blank.
  ghost predicate Gapped(s: string) {
    forall i, j :: 0 <= i <= j <= |s| && NoBlank(s, i, j) ==> j - i <= 3
  }

  // `s` has blanks at these places.
  ghost predicate BlanksAt(s: string, blanks: seq<nat>) {
    && (forall k :: 0 <= k < |blanks| ==> blanks[k] < |s| && s[blanks[k]] == ' ')
    && (forall k :: 0 <= k < |blanks| - 1 ==> blanks[k] < blanks[k + 1] <= blanks[k] + 4)
    && |s| <= (if blanks == [] then 3 else blanks[|blanks| - 1] + 4)
  }

  lemma {:induction false} GapsBetween(s: string, blanks: seq<nat>, i: nat, j: nat)
    requires BlanksAt(s, blanks) && i <= j <= |s| && NoBlank(s, i, j)
    requires blanks != [] ==> blanks[0] <= i + 3
    ensures j - i <= 3
    decreases |blanks|
  {
    if |blanks| > 1 && i > blanks[0] {
      GapsBetween(s, blanks[1..], i, j);
    } else if blanks != [] {
      assert s[blanks[0]] == ' ';
    }
  }

  lemma GapsMean(s: string, blanks: seq<nat>)
    requires BlanksAt(s, blanks) && (blanks != [] ==> blanks[0] <= 3)
    ensures Gapped(s)
  {
    forall i, j | 0 <= i <= j <= |s| && NoBlank(s, i, j) ensures j - i <= 3 {
      GapsBetween(s, blanks, i, j);
    }
  }

  lemma JoinGapped(a: string, b: string)
    requires a != "" && a[|a| - 1] == ' ' && Gapped(a) && Gapped(b)
    ensures Gapped(a + b)
  {
    var ab := a + b;
    forall i, j | 0 <= i <= j <= |ab| && NoBlank(ab, i, j) ensures j - i <= 3 {
      assert ab[|a| - 1] == ' ';
      if j <= |a| {
        forall m | i <= m < j ensures a[m] != ' ' { assert ab[m] == a[m]; }
        assert NoBlank(a, i, j);
      } else if i >= |a| {
        forall m | i - |a| <= m < j - |a| ensures b[m] != ' ' { assert ab[m + |a|] == b[m]; }
        assert NoBlank(b, i - |a|, j - |a|);
      }
    }
  }

  lemma GappedIsShort(row: string)
    requires Gapped(row)
    ensures ShortWords(row)
  {
    forall i, j | IsWord(row, i, j) ensures j - i <= 3 {
      assert NoBlank(row, i, j);
    }
  }

  lemma ShortRow0()
    ensures Gapped("ê i ua uê uy y")
  {
    GapsMean("ê i ua uê uy y", [1, 3, 6, 9, 12]);
  }

  lemma ShortRow1()
    ensures Gapped("a iê oa uyê yê")
  {
    GapsMean("a iê oa uyê yê", [1, 4, 7, 11]);
  }

  lemma Row2Part0()
    ensures Gapped("â ă e o oo ô ơ ")
  {
    GapsMean("â ă e o oo ô ơ ", [1, 3, 5, 7, 10, 12, 14]);
  }

  lemma Row2Part1()
    ensures Gapped("oe u ư uâ uô ươ")
  {
    GapsMean("oe u ư uâ uô ươ", [2, 4, 6, 9, 12]);
  }

  lemma ShortRow2()
    ensures Gapped("â ă e o oo ô ơ " + "oe u ư uâ uô ươ")
  {
    hide Gapped;
    Row2Part0();
    Row2Part1();
    JoinGapped("â ă e o oo ô ơ ", "oe u ư uâ uô ươ");
  }

  lemma Row5Part0()
    ensures Gapped("ai ao au âu ay ")
  {
    GapsMean("ai ao au âu ay ", [2, 5, 8, 11, 14]);
  }

  lemma Row5Part1()
    ensures Gapped("ây eo êu ia ")
  {
    GapsMean("ây eo êu ia ", [2, 5, 8, 11]);
  }

  lemma Row5Part2()
    ensures Gapped("iêu iu oai oao oay oeo oi ")
  {
    GapsMean("iêu iu oai oao oay oeo oi ", [3, 6, 10, 14, 18, 22, 25]);
  }

  lemma Row5Part3()
    ensures Gapped("ôi ơi ưa uây ui ưi uôi ươi ")
  {
    GapsMean("ôi ơi ưa uây ui ưi uôi ươi ", [2, 5, 8, 12, 15, 18, 22, 26]);
  }

  lemma Row5Part4()
    ensures Gapped("ươu ưu uya uyu yêu")
  {
    GapsMean("ươu ưu uya uyu yêu", [3, 6, 10, 14]);
  }

  lemma ShortRow5()
    ensures Gapped("ai ao au âu ay " + "ây eo êu ia " + "iêu iu oai oao oay oeo oi " + "ôi ơi ưa uây ui ưi uôi ươi "
            + "ươu ưu uya uyu yêu")
  {
    hide Gapped;
    Row5Part0();
    Row5Part1();
    Row5Part2();
    Row5Part3();
    Row5Part4();
    JoinGapped("ai ao au âu ay ", "ây eo êu ia ");
    JoinGapped("ai ao au âu ay " + "ây eo êu ia ", "iêu iu oai oao oay oeo oi ");
    JoinGapped("ai ao au âu ay " + "ây eo êu ia " + "iêu iu oai oao oay oeo oi ", "ôi ơi ưa uây ui ưi uôi ươi ");
    JoinGapped("ai ao au âu ay " + "ây eo êu ia " + "iêu iu oai oao oay oeo oi "
      + "ôi ơi ưa uây ui ưi uôi ươi ", "ươu ưu uya uyu yêu");
  }

  lemma ShippedRow(k: nat)
    requires k < 8
    ensures Gapped(VOWEL_SEQS[k])
  {
    hide Gapped;
    match k
    case 0 => ShortRow0();
    case 1 => ShortRow1();
    case 2 => ShortRow2();
    case 5 => ShortRow5();
    case _ => GapsMean(VOWEL_SEQS[k], []);
  }

  // The vowel words of the source have at most three letters.
  lemma ShippedVowelsAreShort()
    ensures ShortVowels(SOURCE_SPELLING)
  {
    hide Gapped, ShortWords;
    forall k | 0 <= k < |SOURCE_SPELLING.vowelSeqs| ensures ShortWords(SOURCE_SPELLING.vowelSeqs[k]) {
      ShippedRow(k);
      GappedIsShort(VOWEL_SEQS[k]);
    }
  }
}
