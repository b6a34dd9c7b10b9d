/**
 What a processed key adds to the last syllable, case by case, before the tone refresh.
 */
module BambooAnswers {
  import opened Options
  import opened BambooChars
  import opened BambooSpelling
  import opened BambooFlattener
  import opened BambooUtils
  import opened BambooKeys
  import opened BambooShape
  import opened BambooGenerators
  import opened BambooSteps
  import opened BambooWords
  import opened BambooRuns
  import opened BambooPlacement
  import opened BambooFits

  // A key the engine processes, typed behind a reachable state.
  ghost predicate IsTyped(c: Config, st: State, key: char) {
    GoodMethod(c.env.cs, c.im) && Inv(c, st) && IsProcessed(c, key, false) && c.env.cs.lower(key) != NUL
  }

  function LastSyllable(c: Config, st: State): Composition {
    ExtractLastSyllable(c.env, st.comp).1
  }

  function KeyRules(c: Config, key: char): seq<Rule> {
    RulesFor(c, c.env.cs.lower(key))
  }

  // The key adds these entries to the last syllable; what the refresh makes of it is the new last syllable.
  ghost predicate Adds(c: Config, st: State, key: char, ts: Composition) {
    var (previous, syllable) := ExtractLastSyllable(c.env, st.comp);
    var (refreshed, extra) := Refresh(c, syllable + ts, st.nextId + |ts|);
    ProcessKey(c, st, key, false).comp == previous + (refreshed + extra)
  }

  ghost predicate FitsKey(c: Config, st: State, key: char, more: Composition, target: nat, rule: Rule) {
    Fits(c.env, LastSyllable(c, st) + more, KeyRules(c, key), c.flags, st.nextId + |more|, target, rule)
  }

  ghost predicate NothingFitsKey(c: Config, st: State, key: char, more: Composition) {
    NothingFits(c.env, LastSyllable(c, st) + more, KeyRules(c, key), c.flags, st.nextId + |more|)
  }

  predicate IsDoubled(c: Config, st: State, key: char) {
    IsRawDouble(LastSyllable(c, st), c.env.cs.lower(key))
  }

  // The entry of a rule that is set by the key.
  function Entry(c: Config, st: State, key: char, target: nat, rule: Rule): Trans {
    Trans(st.nextId, rule, Some(target), c.env.cs.isUpper(key))
  }

  // ----- common ground -----

  lemma KeyIsLower(c: Config, key: char)
    ensures RulesFor(c, c.env.cs.lower(key)) == ApplicableRules(c.env.cs, c.im.rules, c.env.cs.lower(key))
    ensures c.env.cs.lower(c.env.cs.lower(key)) == c.env.cs.lower(key)
  {
  }

  // The rules consulted are those of the method with this key, in their order.
  lemma RulesAreOfKey(c: Config, key: char) returns (at: seq<nat>)
    ensures AreRulesOf(c.im.rules, c.env.cs.lower(key), KeyRules(c, key), at)
  {
    KeyIsLower(c, key);
    at := RulesOfKey(c.env.cs, c.im.rules, c.env.cs.lower(key));
  }

  ghost predicate AllOk(c: Config, comp: Composition) {
    forall t :: t in comp ==> EntryOk(c.env.cs, c.im.keys, t)
  }

  lemma AllOkConcat(c: Config, a: Composition, b: Composition)
    ensures AllOk(c, a + b) <==> AllOk(c, a) && AllOk(c, b)
  {
    hide EntryOk, CharsetData.Good;
    if AllOk(c, a + b) {
      assert forall t :: t in a ==> t in a + b;
      assert forall t :: t in b ==> t in a + b;
    }
  }

  lemma StateIsOk(c: Config, st: State)
    requires Inv(c, st)
    ensures AllOk(c, st.comp) && AllOk(c, LastSyllable(c, st))
    ensures WellFormed(c.env.cs, c.im.keys, LastSyllable(c, st), st.nextId)
  {
    hide EntryOk, CharsetData.Good, ExtractLastSyllable, Distinct, Separated, TargetsIn;
    var (previous, syllable) := ExtractLastSyllable(c.env, st.comp);
    assert previous + syllable == st.comp;
    WellFormedParts(c.env.cs, c.im.keys, previous, syllable, st.nextId);
  }

  lemma RulesAreGood(c: Config, key: char)
    requires GoodMethod(c.env.cs, c.im)
    ensures RulesOk(c.env.cs, c.im.keys, KeyRules(c, key), c.env.cs.lower(key))
  {
    hide GoodRule, CharsetData.GoodVowels, CharsetData.GoodMarks, CharsetData.GoodFamilies, CharsetData.GoodBases;
    KeyIsLower(c, key);
  }

  // A rule that fits is one of the key, and sets a tone or a mark on a letter.
  lemma FitIsRule(c: Config, comp: Composition, key: char, nid: nat, target: nat, rule: Rule)
    requires GoodMethod(c.env.cs, c.im) && AllOk(c, comp)
    requires Fits(c.env, comp, KeyRules(c, key), c.flags, nid, target, rule)
    ensures rule in KeyRules(c, key) && GoodRule(c.env.cs, c.im.keys, rule) && !IsAppendingRule(rule)
    ensures rule.key == c.env.cs.lower(key)
    ensures HasLetter(comp, target)
  {
    hide CharsetData.Good, FindTarget, Fits, EntryOk, GoodRule;
    var rules := KeyRules(c, key);
    RulesAreGood(c, key);
    TargetIsFit(c.env, c.im.keys, comp, rules, c.flags, nid);
    TargetIsLetter(c.env, comp, rules, rules, c.flags, nid);
  }

  lemma EntryIsOk(c: Config, id: nat, rule: Rule, target: nat, isUpperCase: bool)
    requires GoodRule(c.env.cs, c.im.keys, rule) && !IsAppendingRule(rule)
    ensures AllOk(c, [Trans(id, rule, Some(target), isUpperCase)])
    ensures AllOk(c, [Candidate(id, rule.(key := NUL), Some(target))])
  {
  }

  lemma KeyStepIs(c: Config, st: State, key: char, ts: Composition)
    requires IsProcessed(c, key, false)
    requires KeyTransformations(c, LastSyllable(c, st), c.env.cs.lower(key), c.env.cs.isUpper(key), st.nextId) == ts
    ensures Adds(c, st, key, ts)
  {
    hide CharsetData.Good, ExtractLastSyllable, KeyTransformations, CanProcessKey, Refresh;
  }

  // ----- a key typed twice -----

  const RAW_RULE := Rule(NUL, MARK_RAW, MarkTransformation, NUL, NUL, [])

  // The letter the key has just made of itself is asked to show the key.
  lemma DoubledKeyAdds(c: Config, st: State, key: char)
    requires IsTyped(c, st, key) && IsDoubled(c, st, key)
    ensures var s := LastSyllable(c, st);
            Adds(c, st, key, [Candidate(st.nextId, RAW_RULE, Some(s[|s| - 1].id))])
  {
    hide CharsetData.Good, ExtractLastSyllable, Adds, CanProcessKey, Inv, GoodMethod;
    var s := LastSyllable(c, st);
    KeyStepIs(c, st, key, [Candidate(st.nextId, RAW_RULE, Some(s[|s| - 1].id))]);
  }

  // ----- a rule that fits -----

  // A tone rule, or a mark that completes the syllable or that nothing can be added to, is all the key adds.
  lemma FittingRuleAdds(c: Config, st: State, key: char, target: nat, rule: Rule)
    requires IsTyped(c, st, key) && !IsDoubled(c, st, key) && FitsKey(c, st, key, [], target, rule)
    requires var e := Entry(c, st, key, target, rule);
             rule.effectType == MarkTransformation ==>
               IsValid(c.env, LastSyllable(c, st) + [e], true) || NothingFitsKey(c, st, key, [e])
    ensures Adds(c, st, key, [Entry(c, st, key, target, rule)])
  {
    hide CharsetData.Good, ExtractLastSyllable, Adds, CanProcessKey, Inv, GoodMethod, FindTarget, EntryOk, IsValid,
         Fits, NothingFits, RulesFor, IsRawDouble;
    var s, rules, e := LastSyllable(c, st), KeyRules(c, key), Entry(c, st, key, target, rule);
    StateIsOk(c, st);
    assert s + [] == s;
    TargetIsFit(c.env, c.im.keys, s, rules, c.flags, st.nextId);
    FitIsRule(c, s, key, st.nextId, target, rule);
    EntryIsOk(c, st.nextId, rule, target, c.env.cs.isUpper(key));
    AllOkConcat(c, s, [e]);
    TargetIsFit(c.env, c.im.keys, s + [e], rules, c.flags, st.nextId + 1);
    KeyStepIs(c, st, key, [e]);
  }

  // A mark that leaves the syllable unfinished takes a second rule of the key along, which records no key.
  lemma SecondRuleAdds(c: Config, st: State, key: char, target: nat, rule: Rule, second: nat, more: Rule)
    requires IsTyped(c, st, key) && !IsDoubled(c, st, key) && FitsKey(c, st, key, [], target, rule)
    requires rule.effectType == MarkTransformation
    requires var e := Entry(c, st, key, target, rule);
             !IsValid(c.env, LastSyllable(c, st) + [e], true) && FitsKey(c, st, key, [e], second, more)
    ensures Adds(c, st, key,
            [Entry(c, st, key, target, rule), Candidate(st.nextId + 1, more.(key := NUL), Some(second))])
  {
    hide CharsetData.Good, ExtractLastSyllable, Adds, CanProcessKey, Inv, GoodMethod, FindTarget, EntryOk, IsValid,
         Fits, RulesFor, IsRawDouble;
    var s, rules, e := LastSyllable(c, st), KeyRules(c, key), Entry(c, st, key, target, rule);
    StateIsOk(c, st);
    assert s + [] == s;
    TargetIsFit(c.env, c.im.keys, s, rules, c.flags, st.nextId);
    FitIsRule(c, s, key, st.nextId, target, rule);
    EntryIsOk(c, st.nextId, rule, target, c.env.cs.isUpper(key));
    AllOkConcat(c, s, [e]);
    TargetIsFit(c.env, c.im.keys, s + [e], rules, c.flags, st.nextId + 1);
    var virtual := Candidate(st.nextId + 1, more.(key := NUL), Some(second));
    assert [e] + [virtual] == [e, virtual];
    KeyStepIs(c, st, key, [e, virtual]);
  }

  // ----- from ươ to uô -----

  function Drop(id: nat, target: nat): Trans {
    Candidate(id, UNDO_MARK, Some(target))
  }

  // The text has ưo or ươ, and once the first vowel has lost its mark a rule fits another letter.
  ghost predicate Rewrites(c: Config, st: State, key: char, first: nat, target: nat, rule: Rule) {
    var s := LastSyllable(c, st);
    var vowels := VowelsOf(c.env.cs, s);
    && HasUhO(Canvas(c.env.cs, s, TONELESS_LOWER)) && vowels != [] && vowels[0].id == first
    && FitsKey(c, st, key, [Drop(st.nextId, first)], target, rule) && target != first
  }

  ghost predicate NothingRewrites(c: Config, st: State, key: char) {
    forall first: nat, target: nat, rule :: !Rewrites(c, st, key, first, target, rule)
  }

  lemma RewriteIs(c: Config, st: State, key: char)
    requires IsTyped(c, st, key)
    ensures var ts := UoRewrite(c.env, LastSyllable(c, st), KeyRules(c, key), c.flags, c.env.cs.isUpper(key),
            st.nextId);
            && (ts == [] <==> NothingRewrites(c, st, key))
            && forall first: nat, target: nat, rule :: Rewrites(c, st, key, first, target, rule) ==>
                 ts == [Drop(st.nextId, first), Trans(st.nextId + 1, rule, Some(target), c.env.cs.isUpper(key))]
  {
    hide CharsetData.Good, ExtractLastSyllable, CanProcessKey, Inv, GoodMethod, FindTarget, EntryOk, Fits, RulesFor,
         VowelsOf, Canvas, HasUhO, ExtractCvcTrans, FilterAppending;
    var s, rules := LastSyllable(c, st), KeyRules(c, key);
    StateIsOk(c, st);
    VowelPartLetters(c.env.cs, c.im.keys, s);
    var vowels := VowelsOf(c.env.cs, s);
    if vowels != [] {
      var drop := Drop(st.nextId, vowels[0].id);
      DropIsOk(c, st.nextId, vowels[0].id);
      AllOkConcat(c, s, [drop]);
      TargetIsFit(c.env, c.im.keys, s + [drop], rules, c.flags, st.nextId + 1);
      var found := FindTarget(c.env, s + [drop], rules, rules, c.flags, st.nextId + 1);
      if found.Some? {
        assert FitsKey(c, st, key, [drop], found.value.0, found.value.1);
        if HasUhO(Canvas(c.env.cs, s, TONELESS_LOWER)) && found.value.0 != vowels[0].id {
          assert Rewrites(c, st, key, vowels[0].id, found.value.0, found.value.1);
        }
      }
    }
  }

  lemma DropIsOk(c: Config, id: nat, target: nat)
    ensures AllOk(c, [Drop(id, target)])
  {
  }

  lemma RewriteAdds(c: Config, st: State, key: char, first: nat, target: nat, rule: Rule)
    requires IsTyped(c, st, key) && !IsDoubled(c, st, key) && NothingFitsKey(c, st, key, [])
    requires Rewrites(c, st, key, first, target, rule)
    ensures Adds(c, st, key,
            [Drop(st.nextId, first), Trans(st.nextId + 1, rule, Some(target), c.env.cs.isUpper(key))])
  {
    hide CharsetData.Good, ExtractLastSyllable, Adds, CanProcessKey, Inv, GoodMethod, FindTarget, EntryOk, NothingFits,
         RulesFor, IsRawDouble, UoRewrite, Rewrites;
    var s, rules := LastSyllable(c, st), KeyRules(c, key);
    StateIsOk(c, st);
    assert s + [] == s;
    TargetIsFit(c.env, c.im.keys, s, rules, c.flags, st.nextId);
    RewriteIs(c, st, key);
    KeyStepIs(c, st, key, [Drop(st.nextId, first), Trans(st.nextId + 1, rule, Some(target), c.env.cs.isUpper(key))]);
  }
}
