/**
 A mark key in the text, and exactly when a key becomes a letter.
 */
module BambooMarks {
  import opened Options
  import opened BambooChars
  import opened BambooSpelling
  import opened BambooFlattener
  import opened BambooUtils
  import opened BambooKeys
  import opened BambooShape
  import opened BambooGenerators
  import opened BambooRuns
  import opened BambooPlacement
  import opened BambooCase
  import opened BambooFits
  import opened BambooAnswers
  import opened BambooLetters
  import opened BambooKeyText

  // ----- a mark in the text -----

  // The last mark on a letter is the one it shows, if its family has that mark.
  lemma LastMarkShows(cs: Charset, comp: Composition, l: Trans, marks: Composition, mark: Effect)
    requires NoRaw(comp) && l in comp && IsRendered(l, false)
    requires marks != [] && MarksOn(comp, l.id) == marks && marks[|marks| - 1].rule.effect == mark
    requires marks[|marks| - 1].rule.effectType == MarkTransformation
    requires HasSlot(cs, Toneless(cs, l.rule.effectOn), mark)
    ensures ShowsMark(cs, comp, l.id, mark)
  {
    hide CharsetData.Good, IsRendered, AddToneToChar, Fold, Letters, MarksOn;
    var c := Toneless(cs, l.rule.effectOn);
    EffectsAreMembers(comp, l.id);
    FoldNormalForm(cs, l.rule.effectOn, l.rule.key, EffectsOn(comp, l.id));
    LastMarkOf(cs, comp, l.id, c);
    assert LastMark(cs, marks, c) == Some(mark);
    LettersAreMembers(comp, false);
    var p :| 0 <= p < |Letters(comp, false)| && Letters(comp, false)[p] == l;
    TextAt(cs, comp, p);
  }

  // A mark that changes a letter has a place in its family.
  lemma ChangingMarkHasSlot(cs: Charset, comp: Composition, l: Trans, t: Trans)
    requires NoRaw(comp) && t.rule.effectType == MarkTransformation && t.rule.effect != MARK_RAW
    requires t.target == Some(l.id) && Face(cs, comp + [t], l) != Face(cs, comp, l)
    ensures HasSlot(cs, Toneless(cs, l.rule.effectOn), t.rule.effect)
  {
    hide CharsetData.Good, Fold, EffectsOn, MarkRegister, AddMarkToChar;
    var effects, f := EffectsOn(comp, l.id), Face(cs, comp, l);
    EffectsAreMembers(comp, l.id);
    EffectsConcat(comp, [t], l.id);
    OneEffect(t, l.id);
    LastEffect(cs, l, effects, t);
    FoldNormalForm(cs, l.rule.effectOn, l.rule.key, effects);
    FamilyOfRegister(cs, l.rule.effectOn, effects, t.rule.effect);
    if !HasSlot(cs, Toneless(cs, f), t.rule.effect) {
      MarkWithoutSlot(cs, f, t.rule.effect);
    }
  }

  lemma FamilyOfRegister(cs: Charset, chr: char, effects: Composition, m: Effect)
    ensures HasSlot(cs, MarkRegister(cs, chr, effects), m) <==> HasSlot(cs, Toneless(cs, chr), m)
  {
    hide AddToneToChar;
    var c := Toneless(cs, chr);
    TonelessIsToneless(cs, chr);
    match LastMark(cs, effects, c)
    case None =>
    case Some(p) =>
      if p < 5 {
        MarkStaysInFamily(cs, c, p);
      }
  }

  lemma MarkWithoutSlot(cs: Charset, f: char, m: Effect)
    requires m < 5 && !HasSlot(cs, Toneless(cs, f), m)
    ensures AddMarkToChar(cs, f, m) == f
  {
    hide CharsetData.Good, AddToneToChar;
    ToneOverwrites(cs, f, 0, FindToneFromChar(cs, f));
    KeepsOwnTone(cs, f);
  }

  // ----- a mark key -----

  lemma FittingMark(c: Config, comp: Composition, rules: seq<Rule>, nid: nat, target: nat, rule: Rule)
    requires Fits(c.env, comp, rules, c.flags, nid, target, rule) && rule.effectType == MarkTransformation
    ensures Changes(c.env.cs, comp, Candidate(nid, rule, Some(target)))
    ensures IsValid(c.env, comp + [Candidate(nid, rule, Some(target))], false)
    ensures rule.effect > 0 && exists t :: t in comp && t.rule.result == rule.effectOn && RootTarget(t) == target
  {
    hide CharsetData.Good, Changes, TonePlace, IsValid;
    var i: nat, k: nat :|
      IsLastMark(c.env, comp, rules, nid, i, k) && rules[k] == rule && RootTarget(comp[i]) == target;
    assert comp[i] in comp;
  }

  // What the refresh does to the entries themselves.
  lemma RefreshKeepsEntries(c: Config, comp: Composition, nid: nat)
    ensures var (refreshed, extra) := Refresh(c, comp, nid);
            && |refreshed| == |comp|
            && (forall i :: 0 <= i < |comp| && comp[i].rule.effectType != ToneTransformation ==>
                  refreshed[i] == comp[i])
            && forall t :: t in extra ==> t.rule.key == NUL && t.rule.effectType == ToneTransformation
  {
    hide CharsetData.Good, IsValid, FindToneTarget, ExtractCvcTrans;
  }

  // The whole composition after a key that adds `ts`.
  lemma TextAdded(c: Config, st: State, key: char, ts: Composition, id: nat)
    requires Adds(c, st, key, ts)
    ensures var next := ProcessKey(c, st, key, false).comp;
            && Letters(next, false) == Letters(st.comp, false) + Letters(ts, false)
            && MarksOn(next, id) == MarksOn(st.comp, id) + MarksOn(ts, id)
  {
    hide CharsetData.Good, ExtractLastSyllable, ProcessKey, Refresh, Letters, MarksOn;
    var (previous, s) := ExtractLastSyllable(c.env, st.comp);
    var (refreshed, extra) := Refresh(c, s + ts, st.nextId + |ts|);
    var full := refreshed + extra;
    assert previous + s == st.comp;
    RefreshKeepsMarks(c, s + ts, st.nextId + |ts|, id);
    Reassociate(Letters(previous, false), Letters(s, false), Letters(ts, false));
    Reassociate(MarksOn(previous, id), MarksOn(s, id), MarksOn(ts, id));
    LettersConcat(previous, full, false);
    LettersConcat(previous, s, false);
    LettersConcat(s, ts, false);
    MarksConcat(previous, full, id);
    MarksConcat(previous, s, id);
    MarksConcat(s, ts, id);
  }

  lemma Reassociate(a: Composition, b: Composition, c: Composition)
    ensures a + (b + c) == (a + b) + c
  {
  }

  lemma EntriesAdded(c: Config, st: State, key: char, ts: Composition)
    requires Adds(c, st, key, ts)
    ensures var next := ProcessKey(c, st, key, false).comp;
            && (NoRaw(st.comp) && NoRaw(ts) ==> NoRaw(next))
            && |next| >= |st.comp| + |ts|
            && (forall i :: 0 <= i < |ts| && ts[i].rule.effectType != ToneTransformation ==>
                  next[|st.comp| + i] == ts[i])
  {
    hide CharsetData.Good, ExtractLastSyllable, ProcessKey, Refresh, NoRaw;
    var (previous, s) := ExtractLastSyllable(c.env, st.comp);
    var (refreshed, extra) := Refresh(c, s + ts, st.nextId + |ts|);
    var full := refreshed + extra;
    assert previous + s == st.comp;
    RefreshKeepsMarks(c, s + ts, st.nextId + |ts|, 0);
    RefreshKeepsEntries(c, s + ts, st.nextId + |ts|);
    if NoRaw(st.comp) && NoRaw(ts) {
      NoRawParts(previous, s, ts, full);
    }
    forall i | 0 <= i < |ts| && ts[i].rule.effectType != ToneTransformation
      ensures (previous + full)[|st.comp| + i] == ts[i]
    {
      assert (s + ts)[|s| + i] == ts[i];
    }
  }

  lemma NoRawParts(previous: Composition, s: Composition, ts: Composition, full: Composition)
    requires NoRaw(previous + s) && NoRaw(ts) && (NoRaw(s + ts) ==> NoRaw(full))
    ensures NoRaw(previous + full)
  {
    assert forall t :: t in previous || t in s ==> t in previous + s;
    assert forall t :: t in s + ts ==> t in s || t in ts;
    assert NoRaw(s + ts);
    assert forall t :: t in previous + full ==> t in previous || t in full;
  }

  lemma SomethingFits(c: Config, st: State, key: char, more: Composition) returns (target: nat, rule: Rule)
    requires !NothingFitsKey(c, st, key, more)
    ensures FitsKey(c, st, key, more, target, rule)
  {
    hide CharsetData.Good, Fits, LastSyllable, RulesFor;
    target, rule :|
      Fits(c.env, LastSyllable(c, st) + more, KeyRules(c, key), c.flags, st.nextId + |more|, target, rule);
  }

  // No second mark of the key goes to the same letter.
  ghost predicate NoSecondOn(c: Config, st: State, key: char, e: Trans, target: nat) {
    forall second: nat, more :: FitsKey(c, st, key, [e], second, more) && more.effectType == MarkTransformation ==>
      second != target
  }

  // A mark rule that fits sets its mark on its letter and leaves a valid syllable: the key is recorded by an entry
  // of this rule on this letter, no letter is added, and the letter reads with this mark.
  lemma MarkKeyShows(c: Config, st: State, key: char, target: nat, rule: Rule)
    requires IsTyped(c, st, key) && !IsDoubled(c, st, key) && FitsKey(c, st, key, [], target, rule)
    requires rule.effectType == MarkTransformation
    ensures var next, e := ProcessKey(c, st, key, false).comp, Entry(c, st, key, target, rule);
            && IsValid(c.env, LastSyllable(c, st) + [e], false)
            && |next| > |st.comp| && next[|st.comp|] == e
            && Letters(next, false) == Letters(st.comp, false)
            && (NoRaw(st.comp) && NoSecondOn(c, st, key, e, target) ==>
                  ShowsMark(c.env.cs, next, target, rule.effect))
  {
    hide CharsetData.Good, ExtractLastSyllable, CanProcessKey, GoodMethod, Inv, EntryOk, IsValid, Fits,
         NothingFits, RulesFor, IsRawDouble, Refresh, ProcessKey, Letters, MarksOn, Adds, ShowsMark;
    var s, e := LastSyllable(c, st), Entry(c, st, key, target, rule);
    StateIsOk(c, st);
    assert s + [] == s;
    FittingMark(c, s, KeyRules(c, key), st.nextId, target, rule);
    FitIsRule(c, s, key, st.nextId, target, rule);
    SameEffectSameValidity(c.env, s, Candidate(st.nextId, rule, Some(target)), e, false);
    var ts := AddsMark(c, st, key, target, rule);
    TextAdded(c, st, key, ts, target);
    EntriesAdded(c, st, key, ts);
    assert Letters(st.comp, false) + [] == Letters(st.comp, false);
    if NoRaw(st.comp) && NoSecondOn(c, st, key, e, target) {
      var l := MarkedLetter(c, st, Candidate(st.nextId, rule, Some(target)));
      MarkIsLast(c, st, key, e, ts, l);
    }
  }

  // The entries a fitting mark rule leads to.
  lemma AddsMark(c: Config, st: State, key: char, target: nat, rule: Rule) returns (ts: Composition)
    requires IsTyped(c, st, key) && !IsDoubled(c, st, key) && FitsKey(c, st, key, [], target, rule)
    requires rule.effectType == MarkTransformation
    ensures Adds(c, st, key, ts) && Letters(ts, false) == [] && NoRaw(ts)
    ensures ts != [] && ts[0] == Entry(c, st, key, target, rule)
    ensures NoSecondOn(c, st, key, ts[0], target) ==> MarksOn(ts, target) == [ts[0]]
  {
    hide CharsetData.Good, ExtractLastSyllable, CanProcessKey, GoodMethod, Inv, EntryOk, IsValid, Fits,
         RulesFor, IsRawDouble, Refresh, ProcessKey, Letters, MarksOn, Adds;
    var s, e := LastSyllable(c, st), Entry(c, st, key, target, rule);
    StateIsOk(c, st);
    assert s + [] == s;
    FitIsRule(c, s, key, st.nextId, target, rule);
    RuleIsNotRaw(c, rule);
    NoLetter(e);
    NoMarkHere(e, target);
    if IsValid(c.env, s + [e], true) || NothingFitsKey(c, st, key, [e]) {
      ts := [e];
      FittingRuleAdds(c, st, key, target, rule);
    } else {
      var second, more := SomethingFits(c, st, key, [e]);
      SecondRuleAdds(c, st, key, target, rule, second, more);
      EntryIsOk(c, st.nextId, rule, target, c.env.cs.isUpper(key));
      AllOkConcat(c, s, [e]);
      FitIsRule(c, s + [e], key, st.nextId + 1, second, more);
      RuleIsNotRaw(c, more);
      var v := Candidate(st.nextId + 1, more.(key := NUL), Some(second));
      ts := [e, v];
      assert ts == [e] + [v];
      NoLetter(v);
      NoMarkHere(v, target);
      LettersConcat([e], [v], false);
      MarksConcat([e], [v], target);
    }
  }

  lemma RuleIsNotRaw(c: Config, rule: Rule)
    requires GoodRule(c.env.cs, c.im.keys, rule)
    ensures rule.effectType == MarkTransformation ==> rule.effect != MARK_RAW
  {
  }

  // The letter a mark goes to: it is shown, and its family has the mark.
  lemma MarkedLetter(c: Config, st: State, t: Trans) returns (l: Trans)
    requires NoRaw(st.comp) && t.rule.effectType == MarkTransformation && t.rule.effect != MARK_RAW
    requires Changes(c.env.cs, LastSyllable(c, st), t)
    ensures l in st.comp && IsRendered(l, false) && t.target == Some(l.id)
    ensures HasSlot(c.env.cs, Toneless(c.env.cs, l.rule.effectOn), t.rule.effect)
  {
    hide CharsetData.Good, ExtractLastSyllable, Changes, IsRendered, Face;
    var (previous, s) := ExtractLastSyllable(c.env, st.comp);
    assert previous + s == st.comp;
    assert forall x :: x in s ==> x in st.comp;
    l := ChangedLetter(c.env.cs, s, t);
    ChangingMarkHasSlot(c.env.cs, s, l, t);
  }

  lemma MarkIsLast(c: Config, st: State, key: char, e: Trans, ts: Composition, l: Trans)
    requires Adds(c, st, key, ts) && Letters(ts, false) == [] && NoRaw(st.comp) && NoRaw(ts)
    requires e.rule.effectType == MarkTransformation && e.target == Some(l.id)
    requires MarksOn(ts, l.id) != [] && MarksOn(ts, l.id)[|MarksOn(ts, l.id)| - 1] == e
    requires l in st.comp && IsRendered(l, false)
    requires HasSlot(c.env.cs, Toneless(c.env.cs, l.rule.effectOn), e.rule.effect)
    ensures ShowsMark(c.env.cs, ProcessKey(c, st, key, false).comp, l.id, e.rule.effect)
  {
    hide CharsetData.Good, ProcessKey, Letters, MarksOn, Adds, IsRendered, ShowsMark, HasSlot;
    var next := ProcessKey(c, st, key, false).comp;
    TextAdded(c, st, key, ts, l.id);
    EntriesAdded(c, st, key, ts);
    assert Letters(st.comp, false) + [] == Letters(st.comp, false);
    LettersAreMembers(st.comp, false);
    LettersAreMembers(next, false);
    assert l in Letters(next, false);
    LastMarkShows(c.env.cs, next, l, MarksOn(next, l.id), e.rule.effect);
  }

  // ----- a key that is a letter -----

  // The key becomes a letter.
  ghost predicate BecomesLetter(c: Config, st: State, key: char) {
    !IsDoubled(c, st, key) && NothingFitsKey(c, st, key, []) && NothingRewrites(c, st, key)
  }

  // What the letter of the key shows before any effect: the key, unless a rule of the method makes another letter
  // of it and there is nothing to undo.
  ghost predicate IsLetterOf(c: Config, st: State, key: char, letter: Trans) {
    var lowerKey, rules := c.env.cs.lower(key), KeyRules(c, key);
    && IsAppending(letter) && letter.rule.key == lowerKey
    && exists k: nat :: IsFirstAppending(rules, k) &&
         if ClearsSomething(c, st, key) || k == |rules| then
           letter.rule.effectOn == lowerKey && letter.isUpperCase == c.env.cs.isUpper(key)
         else
           && letter.rule.effectOn == c.env.cs.lower(rules[k].effectOn)
           && letter.isUpperCase == (c.env.cs.isUpper(key) || c.env.cs.isUpper(rules[k].effectOn))
  }

  // A processed key adds a letter to the text exactly if it does not repeat an appending key, no rule fits and
  // nothing is rewritten; then it adds one.
  lemma KeyIsLetterIff(c: Config, st: State, key: char)
    requires IsTyped(c, st, key)
    ensures var before, after := Letters(st.comp, false), Letters(ProcessKey(c, st, key, false).comp, false);
            && (after == before <==> !BecomesLetter(c, st, key))
            && (BecomesLetter(c, st, key) ==>
                 exists letter :: IsLetterOf(c, st, key, letter) && after == before + [letter])
  {
    hide CharsetData.Good, ExtractLastSyllable, CanProcessKey, GoodMethod, Inv, EntryOk, IsValid, Fits, IsDoubled,
         RulesFor, IsRawDouble, Refresh, ProcessKey, Letters, MarksOn, Adds, ClearsSomething, IsLetterOf, Rewrites;
    var s, before := LastSyllable(c, st), Letters(st.comp, false);
    assert before + [] == before;
    if !BecomesLetter(c, st, key) {
      var ts := AddsNoLetter(c, st, key);
      TextAdded(c, st, key, ts, 0);
    } else {
      var ts, letter := AddsLetter(c, st, key);
      TextAdded(c, st, key, ts, 0);
    }
  }

  lemma AddsNoLetter(c: Config, st: State, key: char) returns (ts: Composition)
    requires IsTyped(c, st, key) && !BecomesLetter(c, st, key)
    ensures Adds(c, st, key, ts) && Letters(ts, false) == []
  {
    hide CharsetData.Good, ExtractLastSyllable, CanProcessKey, GoodMethod, Inv, EntryOk, IsValid, Fits,
         RulesFor, IsRawDouble, Refresh, ProcessKey, Letters, MarksOn, Adds, Rewrites;
    var s := LastSyllable(c, st);
    assert s + [] == s;
    StateIsOk(c, st);
    if IsDoubled(c, st, key) {
      var raw := DoubledEntry(c, st, key);
      ts := [raw];
      NoLetter(raw);
    } else if !NothingFitsKey(c, st, key, []) {
      var target, rule := SomethingFits(c, st, key, []);
      FitIsRule(c, s, key, st.nextId, target, rule);
      RuleType(c, rule);
      if rule.effectType == MarkTransformation {
        ts := AddsMark(c, st, key, target, rule);
      } else {
        ts := [Entry(c, st, key, target, rule)];
        FittingRuleAdds(c, st, key, target, rule);
        NoLetter(ts[0]);
      }
    } else {
      var first: nat, target: nat, rule :| Rewrites(c, st, key, first, target, rule);
      RewriteAdds(c, st, key, first, target, rule);
      var drop, e := Drop(st.nextId, first), Trans(st.nextId + 1, rule, Some(target), c.env.cs.isUpper(key));
      ts := [drop, e];
      RewriteRule(c, st, key, first, target, rule);
      assert ts == [drop] + [e];
      LettersConcat([drop], [e], false);
      NoLetter(drop);
      NoLetter(e);
    }
  }

  lemma DoubledEntry(c: Config, st: State, key: char) returns (raw: Trans)
    requires IsTyped(c, st, key) && IsDoubled(c, st, key)
    ensures Adds(c, st, key, [raw]) && !IsAppending(raw)
  {
    hide CharsetData.Good, Adds, Inv, GoodMethod, CanProcessKey, ExtractLastSyllable;
    var s := LastSyllable(c, st);
    DoubledKeyAdds(c, st, key);
    raw := Candidate(st.nextId, RAW_RULE, Some(s[|s| - 1].id));
  }

  lemma RuleType(c: Config, rule: Rule)
    requires GoodRule(c.env.cs, c.im.keys, rule) && !IsAppendingRule(rule)
    ensures rule.effectType == MarkTransformation || rule.effectType == ToneTransformation
  {
  }

  // The rule of a rewrite sets a tone or a mark.
  lemma RewriteRule(c: Config, st: State, key: char, first: nat, target: nat, rule: Rule)
    requires IsTyped(c, st, key) && Rewrites(c, st, key, first, target, rule)
    ensures GoodRule(c.env.cs, c.im.keys, rule) && !IsAppendingRule(rule) && rule in KeyRules(c, key)
  {
    hide CharsetData.Good, ExtractLastSyllable, CanProcessKey, GoodMethod, Inv, EntryOk, Fits, RulesFor, VowelsOf,
         Canvas, HasUhO, GoodRule;
    var s := LastSyllable(c, st);
    StateIsOk(c, st);
    DropIsOk(c, st.nextId, first);
    AllOkConcat(c, s, [Drop(st.nextId, first)]);
    FitIsRule(c, s + [Drop(st.nextId, first)], key, st.nextId + 1, target, rule);
  }

  lemma AddsLetter(c: Config, st: State, key: char) returns (ts: Composition, letter: Trans)
    requires IsTyped(c, st, key) && BecomesLetter(c, st, key)
    ensures Adds(c, st, key, ts) && Letters(ts, false) == [letter] && IsLetterOf(c, st, key, letter)
  {
    hide CharsetData.Good, ExtractLastSyllable, CanProcessKey, GoodMethod, Inv, EntryOk, IsValid, Fits,
         RulesFor, IsRawDouble, Refresh, ProcessKey, Letters, Adds, Rewrites, NothingFits, NothingRewrites, IsDoubled,
         ClearsSomething, IsUndoOf, IsLetterOf, AreLetters, IsShortcut;
    var lowerKey, up := c.env.cs.lower(key), c.env.cs.isUpper(key);
    if ClearsSomething(c, st, key) {
      var undo := UndoAdds(c, st, key);
      letter := NewAppendingTrans(st.nextId + |undo|, lowerKey, up);
      ts := undo + [letter];
      UndoneHasNoLetter(c, st, key, undo);
      LettersConcat(undo, [letter], false);
      ShownLetter(letter);
      assert [] + [letter] == [letter];
      LetterBehindUndo(c, st, key, letter);
    } else {
      var letters, shortcut := LetterAdds(c, st, key);
      ts := letters + shortcut;
      LettersConcat(letters, shortcut, false);
      letter := FirstOfLetters(c, st, key, letters);
      ShortcutHasNoLetter(c, key, st, letters, shortcut);
      assert [letter] + [] == [letter];
    }
  }

  lemma ShownLetter(letter: Trans)
    requires IsAppending(letter) && letter.rule.key != NUL
    ensures Letters([letter], false) == [letter]
  {
    assert [letter][..0] == [];
  }

  lemma UndoneHasNoLetter(c: Config, st: State, key: char, undo: Composition)
    requires IsUndoOf(c, st, key, undo)
    ensures Letters(undo, false) == []
  {
    hide CharsetData.Good, ClearsTone, ClearsMark, LastSyllable, RulesFor, Letters;
    forall t | t in undo ensures !IsRendered(t, false) {
      var k :| 0 <= k < |undo| && undo[k] == t;
    }
    NothingRendered(undo);
  }

  lemma LetterBehindUndo(c: Config, st: State, key: char, letter: Trans)
    requires ClearsSomething(c, st, key)
             && letter == NewAppendingTrans(letter.id, c.env.cs.lower(key), c.env.cs.isUpper(key))
    ensures IsLetterOf(c, st, key, letter)
  {
    hide CharsetData.Good, ClearsSomething, RulesFor;
    var k := FirstAppendingExists(KeyRules(c, key));
  }

  lemma {:induction false} FirstAppendingExists(rules: seq<Rule>) returns (k: nat)
    ensures IsFirstAppending(rules, k)
  {
    if rules == [] || IsAppendingRule(rules[0]) {
      k := 0;
    } else {
      var j := FirstAppendingExists(rules[1..]);
      k := j + 1;
      assert forall i :: 0 < i < |rules| ==> rules[i] == rules[1..][i - 1];
    }
  }

  lemma FirstOfLetters(c: Config, st: State, key: char, letters: Composition) returns (letter: Trans)
    requires IsTyped(c, st, key) && !ClearsSomething(c, st, key)
    requires AreLetters(c.env.cs, KeyRules(c, key), c.env.cs.lower(key), c.env.cs.isUpper(key), st.nextId, letters)
    ensures Letters(letters, false) == [letter] && IsLetterOf(c, st, key, letter)
  {
    hide CharsetData.Good, ClearsSomething, RulesFor, Inv, GoodMethod, CanProcessKey, Letters, IsFirstAppending;
    letter := letters[0];
    var rest := letters[1..];
    assert letters == [letter] + rest;
    LettersConcat([letter], rest, false);
    ShownFirst(c, key, st, letters);
    ShownLetter(letter);
    VirtualTail(c, key, st, letters);
    NothingRendered(rest);
    assert [letter] + [] == [letter];
  }

  lemma ShownFirst(c: Config, key: char, st: State, letters: Composition)
    requires c.env.cs.lower(key) != NUL
    requires AreLetters(c.env.cs, KeyRules(c, key), c.env.cs.lower(key), c.env.cs.isUpper(key), st.nextId, letters)
    ensures letters != [] && IsAppending(letters[0]) && letters[0].rule.key == c.env.cs.lower(key)
  {
    hide CharsetData.Good, RulesFor;
  }

  lemma VirtualTail(c: Config, key: char, st: State, letters: Composition)
    requires AreLetters(c.env.cs, KeyRules(c, key), c.env.cs.lower(key), c.env.cs.isUpper(key), st.nextId, letters)
    ensures letters != [] && forall t :: t in letters[1..] ==> !IsRendered(t, false)
  {
    hide CharsetData.Good, RulesFor;
    forall t | t in letters[1..] ensures !IsRendered(t, false) {
      var i :| 0 <= i < |letters| - 1 && letters[1..][i] == t;
      assert letters[i + 1] == t && letters[i + 1].rule.key == NUL;
    }
  }

  lemma ShortcutHasNoLetter(c: Config, key: char, st: State, letters: Composition, shortcut: Composition)
    requires IsShortcut(c, LastSyllable(c, st) + letters, st.nextId + |letters|, shortcut)
    ensures Letters(shortcut, false) == []
  {
    hide CharsetData.Good, RulesFor, Fits, NothingFits, LastSyllable, Letters, HasUOhTail;
    forall t | t in shortcut ensures !IsRendered(t, false) {
    }
    NothingRendered(shortcut);
  }
}
