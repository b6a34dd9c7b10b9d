/**
 The rest of what a key does to the text: the second mark it takes along, the rewrite of ươ, the effects it undoes,
 and the key typed twice.
 */
module BambooUndo {
  import opened Options
  import opened BambooChars
  import opened BambooSpelling
  import opened BambooFlattener
  import opened BambooUtils
  import opened BambooKeys
  import opened BambooShape
  import opened BambooGenerators
  import opened BambooRuns
  import opened BambooPlacement
  import opened BambooFits
  import opened BambooAnswers
  import opened BambooLetters
  import opened BambooKeyText
  import opened BambooMarks

  // ----- the second mark -----

  lemma OneFit(c: Config, st: State, key: char, more: Composition, a: nat, r: Rule, b: nat, s: Rule)
    requires AllOk(c, LastSyllable(c, st) + more)
    requires FitsKey(c, st, key, more, a, r) && FitsKey(c, st, key, more, b, s)
    ensures a == b && r == s
  {
    hide CharsetData.Good, FindTarget, Fits, EntryOk, RulesFor, ExtractLastSyllable, NothingFits;
    TargetIsFit(c.env, c.im.keys, LastSyllable(c, st) + more, KeyRules(c, key), c.flags, st.nextId + |more|);
  }

  // A mark that leaves the syllable unfinished, and a second one that fits then: both are shown, if they are on
  // different letters.
  lemma SecondMarkShows(c: Config, st: State, key: char, target: nat, rule: Rule, second: nat, more: Rule)
    requires IsTyped(c, st, key) && !IsDoubled(c, st, key) && FitsKey(c, st, key, [], target, rule)
    requires rule.effectType == more.effectType == MarkTransformation && NoRaw(st.comp)
    requires var e := Entry(c, st, key, target, rule);
             !IsValid(c.env, LastSyllable(c, st) + [e], true) && FitsKey(c, st, key, [e], second, more)
    ensures var next := ProcessKey(c, st, key, false).comp;
            && Letters(next, false) == Letters(st.comp, false)
            && ShowsMark(c.env.cs, next, second, more.effect)
            && (second != target ==> ShowsMark(c.env.cs, next, target, rule.effect))
  {
    hide CharsetData.Good, ExtractLastSyllable, CanProcessKey, GoodMethod, Inv, EntryOk, IsValid, Fits,
         NothingFits, RulesFor, IsRawDouble, ProcessKey, Letters, MarksOn, Adds, ShowsMark, Changes;
    var s, e := LastSyllable(c, st), Entry(c, st, key, target, rule);
    var v := Candidate(st.nextId + 1, more.(key := NUL), Some(second));
    StateIsOk(c, st);
    assert s + [] == s;
    FitIsRule(c, s, key, st.nextId, target, rule);
    EntryIsOk(c, st.nextId, rule, target, c.env.cs.isUpper(key));
    AllOkConcat(c, s, [e]);
    FitIsRule(c, s + [e], key, st.nextId + 1, second, more);
    RuleIsNotRaw(c, rule);
    RuleIsNotRaw(c, more);
    SecondRuleAdds(c, st, key, target, rule, second, more);
    MarkKeyShows(c, st, key, target, rule);
    FittingMark(c, s + [e], KeyRules(c, key), st.nextId + 1, second, more);
    var l := SecondLetter(c, st, e, Candidate(st.nextId + 1, more, Some(second)));
    TwoMarks(e, v, second);
    MarkIsLast(c, st, key, v, [e, v], l);
    if second != target {
      forall b: nat, r | FitsKey(c, st, key, [e], b, r) ensures b != target {
        OneFit(c, st, key, [e], second, more, b, r);
      }
    }
  }

  lemma TwoMarks(e: Trans, v: Trans, id: nat)
    requires e.rule.effectType == v.rule.effectType == MarkTransformation && v.target == Some(id)
    ensures Letters([e, v], false) == []
    ensures MarksOn([e, v], id) != [] && MarksOn([e, v], id)[|MarksOn([e, v], id)| - 1] == v
    ensures e.rule.effect != MARK_RAW && v.rule.effect != MARK_RAW ==> NoRaw([e, v])
  {
    assert [e, v] == [e] + [v];
    LettersConcat([e], [v], false);
    MarksConcat([e], [v], id);
    NoLetter(e);
    NoLetter(v);
    NoMarkHere(e, id);
    NoMarkHere(v, id);
  }

  // The letter of a mark that changes the syllable behind one more effect.
  lemma SecondLetter(c: Config, st: State, e: Trans, t: Trans) returns (l: Trans)
    requires NoRaw(st.comp) && t.rule.effectType == MarkTransformation && t.rule.effect != MARK_RAW
    requires e.rule.effectType == MarkTransformation && e.rule.effect != MARK_RAW
    requires Changes(c.env.cs, LastSyllable(c, st) + [e], t)
    ensures l in st.comp && IsRendered(l, false) && t.target == Some(l.id)
    ensures HasSlot(c.env.cs, Toneless(c.env.cs, l.rule.effectOn), t.rule.effect)
  {
    hide CharsetData.Good, ExtractLastSyllable, Changes, Face;
    var (previous, s) := ExtractLastSyllable(c.env, st.comp);
    assert previous + s == st.comp;
    assert forall x :: x in s ==> x in st.comp;
    assert forall x :: x in s + [e] ==> x in s || x == e;
    l := ChangedLetter(c.env.cs, s + [e], t);
    ChangingMarkHasSlot(c.env.cs, s + [e], l, t);
  }

  // ----- from ươ to uô -----

  // The letter reads without a mark, whatever its tone.
  ghost predicate ReadsBare(cs: Charset, comp: Composition, l: Trans) {
    Toneless(cs, Face(cs, comp, l)) == AddMarkToTonelessChar(cs, Toneless(cs, l.rule.effectOn), MARK_NONE)
  }

  // The last mark on a letter is none.
  lemma LastMarkIsNone(cs: Charset, comp: Composition, l: Trans, marks: Composition)
    requires NoRaw(comp) && MarksOn(comp, l.id) == marks && marks != []
    requires marks[|marks| - 1].rule.effectType == MarkTransformation
    requires marks[|marks| - 1].rule.effect == MARK_NONE
    ensures ReadsBare(cs, comp, l)
  {
    hide CharsetData.Good, AddToneToChar, Fold, MarksOn;
    var c := Toneless(cs, l.rule.effectOn);
    EffectsAreMembers(comp, l.id);
    FoldNormalForm(cs, l.rule.effectOn, l.rule.key, EffectsOn(comp, l.id));
    LastMarkOf(cs, comp, l.id, c);
    if c in cs.marks {
      UnmarkedSlot(cs, c);
      assert LastMark(cs, marks, c) == Some(MARK_NONE);
    } else {
      NoSlots(cs, marks, c);
    }
  }

  lemma UnmarkedSlot(cs: Charset, c: char)
    requires c in cs.marks
    ensures HasSlot(cs, c, MARK_NONE)
  {
  }

  lemma {:induction false} NoSlots(cs: Charset, marks: Composition, c: char)
    requires c !in cs.marks
    ensures LastMark(cs, marks, c) == None
  {
    hide CharsetData.Good;
    if marks != [] {
      NoSlots(cs, marks[..|marks| - 1], c);
    }
  }

  // The first vowel loses its mark, another letter gets the mark of the rule, and no letter is added.
  lemma RewriteShows(c: Config, st: State, key: char, first: nat, target: nat, rule: Rule, l: Trans)
    requires IsTyped(c, st, key) && !IsDoubled(c, st, key) && NothingFitsKey(c, st, key, [])
    requires Rewrites(c, st, key, first, target, rule) && rule.effectType == MarkTransformation
    requires NoRaw(st.comp) && l in st.comp && l.id == first
    ensures var next := ProcessKey(c, st, key, false).comp;
            && Letters(next, false) == Letters(st.comp, false)
            && ReadsBare(c.env.cs, next, l) && ShowsMark(c.env.cs, next, target, rule.effect)
  {
    hide CharsetData.Good, ExtractLastSyllable, CanProcessKey, GoodMethod, Inv, EntryOk, IsValid, Fits,
         NothingFits, RulesFor, IsRawDouble, ProcessKey, Letters, MarksOn, Adds, ShowsMark, Changes, ReadsBare,
         VowelsOf, HasUhO, Canvas;
    var s, drop := LastSyllable(c, st), Drop(st.nextId, first);
    var e := Trans(st.nextId + 1, rule, Some(target), c.env.cs.isUpper(key));
    RewriteAdds(c, st, key, first, target, rule);
    RewriteRule(c, st, key, first, target, rule);
    RuleIsNotRaw(c, rule);
    KeyIsLetterIff(c, st, key);
    FittingMark(c, s + [drop], KeyRules(c, key), st.nextId + 1, target, rule);
    var x := SecondLetter(c, st, drop, Candidate(st.nextId + 1, rule, Some(target)));
    TwoMarks(drop, e, target);
    MarkIsLast(c, st, key, e, [drop, e], x);
    TextAdded(c, st, key, [drop, e], first);
    EntriesAdded(c, st, key, [drop, e]);
    OnlyFirst(drop, e, first);
    LastMarkIsNone(c.env.cs, ProcessKey(c, st, key, false).comp, l,
                   MarksOn(ProcessKey(c, st, key, false).comp, first));
  }

  lemma OnlyFirst(drop: Trans, e: Trans, id: nat)
    requires drop.rule.effectType == MarkTransformation && drop.target == Some(id) && e.target != Some(id)
    ensures MarksOn([drop, e], id) == [drop]
  {
    assert [drop, e] == [drop] + [e];
    MarksConcat([drop], [e], id);
    NoMarkHere(drop, id);
    NoMarkHere(e, id);
  }

  // ----- undoing in the text -----

  lemma {:induction false} MarksAreMembers(comp: Composition, id: nat)
    ensures forall t :: t in MarksOn(comp, id) <==>
              t in comp && t.rule.effectType == MarkTransformation && t.target == Some(id)
  {
    if comp != [] {
      MarksAreMembers(comp[..|comp| - 1], id);
      assert comp == comp[..|comp| - 1] + [comp[|comp| - 1]];
    }
  }

  // The marks an undo puts on a letter are all none, and there are some exactly if the key clears its mark.
  lemma UndoneMarksAre(cs: Charset, comp: Composition, rules: seq<Rule>, flags: Flags, nid: nat, n: nat,
                       undo: Composition, letter: Trans, id: nat)
    requires IsUndo(cs, comp, rules, flags, nid, n, undo) && IsAppending(letter)
    ensures var marks := MarksOn(undo + [letter], id);
            && (marks != [] <==> ClearsMark(cs, comp, rules, n, id))
            && (marks != [] ==> marks[|marks| - 1].rule == UNDO_MARK)
    ensures NoRaw(undo + [letter])
  {
    hide CharsetData.Good, ClearsTone, ClearsMark, MarksOn;
    var ts := undo + [letter];
    var marks := MarksOn(ts, id);
    MarksAreMembers(ts, id);
    forall t | t in ts ensures t == letter || t.rule == UNDO_TONE || t.rule == UNDO_MARK {
      if t in undo {
        var k :| 0 <= k < |undo| && undo[k] == t;
      }
    }
    if marks != [] {
      assert marks[|marks| - 1] in marks;
      assert marks[|marks| - 1] in undo && Names(undo, UNDO_MARK, id);
    }
    if ClearsMark(cs, comp, rules, n, id) {
      assert Names(undo, UNDO_MARK, id);
      var u :| u in undo && u.rule == UNDO_MARK && u.target == Some(id);
      assert u in ts && u in marks;
    }
  }

  // A key that undoes: the letters whose marks it clears read bare, all others keep their marks, and the key
  // follows as a letter of its own.
  lemma UndoShowsMarks(c: Config, st: State, key: char, l: Trans)
    requires IsTyped(c, st, key) && BecomesLetter(c, st, key) && ClearsSomething(c, st, key)
    requires NoRaw(st.comp) && l in st.comp
    ensures var next := ProcessKey(c, st, key, false).comp;
            if ClearsMark(c.env.cs, LastSyllable(c, st), KeyRules(c, key), st.nextId, l.id)
            then ReadsBare(c.env.cs, next, l)
            else Toneless(c.env.cs, Face(c.env.cs, next, l)) == Toneless(c.env.cs, Face(c.env.cs, st.comp, l))
  {
    hide CharsetData.Good, ExtractLastSyllable, CanProcessKey, GoodMethod, Inv, Fits, NothingFits, RulesFor,
         NothingRewrites, ProcessKey, MarksOn, Adds, ReadsBare, ClearsMark, ClearsSomething, IsDoubled, Face;
    var cs, next := c.env.cs, ProcessKey(c, st, key, false).comp;
    var undo := UndoAdds(c, st, key);
    var letter := NewAppendingTrans(st.nextId + |undo|, cs.lower(key), cs.isUpper(key));
    UndoneMarksAre(cs, LastSyllable(c, st), KeyRules(c, key), c.flags, st.nextId, st.nextId, undo, letter, l.id);
    TextAdded(c, st, key, undo + [letter], l.id);
    EntriesAdded(c, st, key, undo + [letter]);
    var added := MarksOn(undo + [letter], l.id);
    if added != [] {
      LastMarkIsNone(cs, next, l, MarksOn(next, l.id));
    } else {
      assert MarksOn(st.comp, l.id) + [] == MarksOn(st.comp, l.id);
      SameMarksSameFace(cs, st.comp, next, l);
    }
  }

  lemma SameMarksSameFace(cs: Charset, a: Composition, b: Composition, l: Trans)
    requires NoRaw(a) && NoRaw(b) && MarksOn(a, l.id) == MarksOn(b, l.id)
    ensures Toneless(cs, Face(cs, a, l)) == Toneless(cs, Face(cs, b, l))
  {
    hide CharsetData.Good, AddToneToChar, Fold, MarksOn, LastMark;
    EffectsAreMembers(a, l.id);
    EffectsAreMembers(b, l.id);
    FoldNormalForm(cs, l.rule.effectOn, l.rule.key, EffectsOn(a, l.id));
    FoldNormalForm(cs, l.rule.effectOn, l.rule.key, EffectsOn(b, l.id));
    LastMarkOf(cs, a, l.id, Toneless(cs, l.rule.effectOn));
    LastMarkOf(cs, b, l.id, Toneless(cs, l.rule.effectOn));
  }

  // And before the refresh, which may move tones, the vowels the key's tones aim at have none, all others keep theirs.
  lemma UndoShowsTones(c: Config, st: State, key: char, l: Trans) returns (undo: Composition)
    requires IsTyped(c, st, key) && BecomesLetter(c, st, key) && ClearsSomething(c, st, key)
    requires NoRaw(st.comp) && IsShownVowel(c.env.cs, LastSyllable(c, st), l)
    ensures var s := LastSyllable(c, st);
            && Adds(c, st, key,
                    undo + [NewAppendingTrans(st.nextId + |undo|, c.env.cs.lower(key), c.env.cs.isUpper(key))])
            && FindToneFromChar(c.env.cs, Face(c.env.cs, s + undo, l))
               == if ClearsTone(c.env.cs, s, KeyRules(c, key), c.flags, l.id) then TONE_NONE
                  else FindToneFromChar(c.env.cs, Face(c.env.cs, s, l))
  {
    hide CharsetData.Good, ExtractLastSyllable, CanProcessKey, GoodMethod, Inv, Fits, NothingFits, RulesFor,
         NothingRewrites, ProcessKey, Adds, ClearsMark, ClearsTone, ClearsSomething, IsDoubled, IsVowel;
    var (previous, s) := ExtractLastSyllable(c.env, st.comp);
    assert previous + s == st.comp && forall t :: t in s ==> t in st.comp;
    undo := UndoAdds(c, st, key);
    TonesAfterUndo(c.env.cs, s, KeyRules(c, key), c.flags, st.nextId, st.nextId, undo, l);
  }

  lemma TonesAfterUndo(cs: Charset, comp: Composition, rules: seq<Rule>, flags: Flags, nid: nat, n: nat,
                       undo: Composition, l: Trans)
    requires NoRaw(comp) && IsUndo(cs, comp, rules, flags, nid, n, undo) && IsVowel(cs, l.rule.effectOn)
    ensures FindToneFromChar(cs, Face(cs, comp + undo, l))
         == if ClearsTone(cs, comp, rules, flags, l.id) then TONE_NONE else FindToneFromChar(cs, Face(cs, comp, l))
  {
    hide CharsetData.Good, ClearsMark, ClearsTone, IsVowel, AddToneToChar, FindToneFromChar, EffectsOn, MarkRegister;
    var a, b := EffectsOn(comp, l.id), EffectsOn(undo, l.id);
    var t0 := FindToneFromChar(cs, l.rule.effectOn);
    EffectsConcat(comp, undo, l.id);
    EffectsAreMembers(comp, l.id);
    EffectsAreMembers(undo, l.id);
    UndoEntries(cs, comp, rules, flags, nid, n, undo);
    assert forall t :: t in a + b ==> t in a || t in b;
    ToneShown(cs, l, a);
    ToneShown(cs, l, a + b);
    ClearingTones(a, b, t0);
    if Names(undo, UNDO_TONE, l.id) {
      var u :| u in undo && u.rule == UNDO_TONE && u.target == Some(l.id);
      assert u in b;
    }
  }

  lemma UndoEntries(cs: Charset, comp: Composition, rules: seq<Rule>, flags: Flags, nid: nat, n: nat,
                    undo: Composition)
    requires IsUndo(cs, comp, rules, flags, nid, n, undo)
    ensures forall t :: t in undo ==> t.rule == UNDO_TONE || t.rule == UNDO_MARK
  {
    hide CharsetData.Good, ClearsMark, ClearsTone;
    forall t | t in undo ensures t.rule == UNDO_TONE || t.rule == UNDO_MARK {
      var k :| 0 <= k < |undo| && undo[k] == t;
    }
  }

  // A vowel shows the last tone on it.
  lemma ToneShown(cs: Charset, l: Trans, effects: Composition)
    requires NoRaw(effects) && IsVowel(cs, l.rule.effectOn)
    ensures FindToneFromChar(cs, Fold(cs, l.rule.effectOn, l.rule.key, effects))
         == LastTone(effects, FindToneFromChar(cs, l.rule.effectOn))
  {
    hide CharsetData.Good, IsVowel, AddToneToChar, FindToneFromChar, MarkRegister;
    FoldNormalForm(cs, l.rule.effectOn, l.rule.key, effects);
    RegisterIsVowel(cs, l.rule.effectOn, effects);
    var tone := LastTone(effects, FindToneFromChar(cs, l.rule.effectOn));
    TonedVowel(cs, MarkRegister(cs, l.rule.effectOn, effects), tone);
  }

  lemma {:induction false} ClearingTones(a: Composition, b: Composition, tone: Effect)
    requires forall t :: t in b ==> t.rule == UNDO_TONE || t.rule == UNDO_MARK
    ensures LastTone(a + b, tone)
         == if exists t :: t in b && t.rule == UNDO_TONE then TONE_NONE else LastTone(a, tone)
  {
    if b == [] {
      assert a + b == a;
    } else {
      var n := |b| - 1;
      assert (a + b)[..|a + b| - 1] == a + b[..n];
      assert b[n] in b && forall t :: t in b[..n] ==> t in b;
      assert b == b[..n] + [b[n]];
      ClearingTones(a, b[..n], tone);
    }
  }

  // ----- a key typed twice -----

  // The letter made by the key shows the key itself again, and no letter is added.
  lemma DoubledKeyShows(c: Config, st: State, key: char)
    requires IsTyped(c, st, key) && IsDoubled(c, st, key) && !IsVowel(c.env.cs, c.env.cs.lower(key))
    ensures var next, s := ProcessKey(c, st, key, false).comp, LastSyllable(c, st);
            && Letters(next, false) == Letters(st.comp, false)
            && Face(c.env.cs, next, s[|s| - 1]) == c.env.cs.lower(key)
  {
    hide CharsetData.Good, ExtractLastSyllable, CanProcessKey, GoodMethod, Inv, Refresh, Fold, EffectsOn, Letters,
         NothingFitsKey, NothingRewrites, ProcessKey;
    var (previous, s) := ExtractLastSyllable(c.env, st.comp);
    var l := s[|s| - 1];
    var raw := Candidate(st.nextId, RAW_RULE, Some(l.id));
    var (refreshed, extra) := Refresh(c, s + [raw], st.nextId + 1);
    KeyIsLetterIff(c, st, key);
    DoubledKeyAdds(c, st, key);
    RefreshKeepsEntries(c, s + [raw], st.nextId + 1);
    assert (s + [raw])[|s|] == raw && refreshed[|s|] == raw;
    assert previous + (refreshed + extra) == (previous + refreshed[..|s|]) + [raw] + extra;
    RawThenTones(c.env.cs, previous + refreshed[..|s|], raw, extra, l);
  }

  lemma RawThenTones(cs: Charset, front: Composition, raw: Trans, extra: Composition, l: Trans)
    requires raw.rule == RAW_RULE && raw.target == Some(l.id) && !IsVowel(cs, l.rule.key)
    requires forall t :: t in extra ==> t.rule.effectType == ToneTransformation
    ensures Face(cs, front + [raw] + extra, l) == l.rule.key
  {
    hide CharsetData.Good, EffectsOn, IsVowel, Fold;
    EffectsConcat(front + [raw], extra, l.id);
    EffectsConcat(front, [raw], l.id);
    OneEffect(raw, l.id);
    EffectsAreMembers(extra, l.id);
    LastEffect(cs, l, EffectsOn(front, l.id), raw);
    TonesOnConsonant(cs, l, EffectsOn(front, l.id) + [raw], EffectsOn(extra, l.id));
  }

  lemma {:induction false} TonesOnConsonant(cs: Charset, l: Trans, a: Composition, b: Composition)
    requires Fold(cs, l.rule.effectOn, l.rule.key, a) == l.rule.key && !IsVowel(cs, l.rule.key)
    requires forall t :: t in b ==> t.rule.effectType == ToneTransformation
    ensures Fold(cs, l.rule.effectOn, l.rule.key, a + b) == l.rule.key
  {
    hide CharsetData.Good;
    if b == [] {
      assert a + b == a;
    } else {
      var n := |b| - 1;
      assert (a + b)[..|a + b| - 1] == a + b[..n];
      assert b[n] in b && forall t :: t in b[..n] ==> t in b;
      TonesOnConsonant(cs, l, a, b[..n]);
    }
  }
}
