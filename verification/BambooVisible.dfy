/**
 Methods without virtual letters: every letter of a composition has a key, also if the method makes
 letters of its own (as Telex 2 makes ư of w).
 */
module BambooVisible {
  import opened Options
  import opened BambooChars
  import opened BambooFlattener
  import opened BambooUtils
  import opened BambooKeys
  import opened BambooShape
  import opened BambooGenerators
  import opened BambooSteps
  import opened BambooWords
  import opened BambooRuns
  import opened BambooRestore
  import opened BambooBackspace

  // No rule appends more than one letter.
  ghost predicate NoAppended(im: InputMethod) {
    forall r :: r in im.rules ==> r.appendedRules == []
  }

  ghost predicate VisibleInv(c: Config, st: State) {
    Inv(c, st) && NoVirtual(st.comp)
  }

  lemma VisibleConcat(a: Composition, b: Composition)
    ensures NoVirtual(a + b) <==> NoVirtual(a) && NoVirtual(b)
  {
    if NoVirtual(a + b) {
      assert forall t :: t in a ==> t in a + b;
      assert forall t :: t in b ==> t in a + b;
    }
  }

  lemma NoLettersAreVisible(ts: Composition)
    requires forall t :: t in ts ==> !IsAppending(t)
    ensures NoVirtual(ts)
  {
  }

  lemma OutcomeIsVisible(cs: Charset, keys: seq<char>, home: Composition, ts: Composition, lowerKey: char,
                         isUpperCase: bool, nid: nat)
    requires Outcome(cs, keys, home, ts, lowerKey, isUpperCase, nid)
    ensures NoVirtual(ts)
  {
  }

  // ----- a key -----

  lemma FallbackVisible(c: Config, lowerKey: char, isUpperCase: bool, nid: nat)
    requires NoAppended(c.im) && lowerKey != NUL
    ensures NoVirtual(GenerateFallback(c.env.cs, RulesFor(c, lowerKey), lowerKey, isUpperCase, nid))
  {
    var rules := RulesFor(c, lowerKey);
    AppendingRuleIsRule(rules, lowerKey);
    var trans := GenerateAppendingTrans(c.env.cs, rules, lowerKey, isUpperCase, nid);
    assert trans.rule.appendedRules == [];
    assert VirtualLetters(c.env.cs, [], isUpperCase, nid + 1) == [];
  }

  lemma TransformationsVisible(c: Config, syllable: Composition, lowerKey: char, isUpperCase: bool, nid: nat)
    requires GoodMethod(c.env.cs, c.im) && NoAppended(c.im) && IsTypedKey(c.env.cs, c.im.keys, lowerKey)
    requires WellFormed(c.env.cs, c.im.keys, syllable, nid)
    ensures NoVirtual(KeyTransformations(c, syllable, lowerKey, isUpperCase, nid))
  {
    hide GenerateTransformations, GenerateFallback, UowShortcut, RulesFor, WellFormed, GoodRule, Outcome, NoVirtual,
         NoAppended, Generated, Typed;
    var cs, keys := c.env.cs, c.im.keys;
    var rules := RulesFor(c, lowerKey);
    var direct := GenerateTransformations(c.env, syllable, rules, c.flags, lowerKey, isUpperCase, nid);
    if IsRawDouble(syllable, lowerKey) {
      RawDoubleShape(c.env, keys, syllable, rules, c.flags, lowerKey, isUpperCase, nid);
      NoLettersAreVisible(direct);
    } else {
      KeyTransformationsShape(c.env, keys, syllable, rules, c.flags, lowerKey, isUpperCase, nid, nid);
      if direct != [] {
        OutcomeIsVisible(cs, keys, syllable, direct, lowerKey, isUpperCase, nid);
      } else {
        var fallback := GenerateFallback(cs, rules, lowerKey, isUpperCase, nid);
        FallbackVisible(c, lowerKey, isUpperCase, nid);
        ShortcutShape(c, syllable + fallback, nid + |fallback|);
        NoLettersAreVisible(UowShortcut(c, syllable + fallback, nid + |fallback|));
        VisibleConcat(fallback, UowShortcut(c, syllable + fallback, nid + |fallback|));
      }
    }
  }

  lemma RetargetingKeepsVisible(a: Composition, b: Composition)
    requires SameButTargets(a, b) && NoVirtual(b)
    ensures NoVirtual(a)
  {
    forall t | t in a && IsAppending(t) ensures t.rule.key != NUL {
      var i :| 0 <= i < |a| && a[i] == t;
      assert b[i] in b;
    }
  }

  lemma RefreshVisible(c: Config, comp: Composition, nid: nat)
    requires WellFormed(c.env.cs, c.im.keys, comp, nid) && NoVirtual(comp)
    ensures var (refreshed, extra) := Refresh(c, comp, nid); NoVirtual(refreshed + extra)
  {
    hide Refresh, WellFormed, NoVirtual, SameButTargets, Grows;
    RefreshShape(c, comp, nid);
    var (refreshed, extra) := Refresh(c, comp, nid);
    RetargetingKeepsVisible(refreshed, comp);
    NoLettersAreVisible(extra);
    VisibleConcat(refreshed, extra);
  }

  lemma KeyKeepsVisible(c: Config, st: State, key: char, english: bool)
    requires GoodMethod(c.env.cs, c.im) && NoAppended(c.im) && VisibleInv(c, st) && c.env.cs.lower(key) != NUL
    ensures VisibleInv(c, ProcessKey(c, st, key, english))
  {
    hide ExtractLastSyllable, Separated, GoodMethod, NoAppended, IsTypedKey, KeyTransformations, Refresh, NoVirtual,
         EntryOk, Grows, Typed, LosesKey;
    var cs, keys := c.env.cs, c.im.keys;
    var lowerKey, isUpperCase := cs.lower(key), cs.isUpper(key);
    if IsProcessed(c, key, english) {
      ProcessedKey(c, st, key);
      var (previous, syllable) := ExtractLastSyllable(c.env, st.comp);
      assert previous + syllable == st.comp;
      VisibleConcat(previous, syllable);
      WellFormedParts(cs, keys, previous, syllable, st.nextId);
      TypedKeyIsProcessed(c, key);
      SyllableVisible(c, syllable, lowerKey, isUpperCase, st.nextId);
      VisibleConcat(previous, NewSyllable(c, syllable, lowerKey, isUpperCase, st.nextId));
    } else {
      UnprocessedKey(c, st, key, english);
      LetterVisible(st.nextId, lowerKey, isUpperCase);
      VisibleConcat(st.comp, [NewAppendingTrans(st.nextId, lowerKey, isUpperCase)]);
    }
  }

  lemma LetterVisible(id: nat, key: char, isUpperCase: bool)
    requires key != NUL
    ensures NoVirtual([NewAppendingTrans(id, key, isUpperCase)])
  {
  }

  lemma SyllableVisible(c: Config, syllable: Composition, lowerKey: char, isUpperCase: bool, nid: nat)
    requires GoodMethod(c.env.cs, c.im) && NoAppended(c.im) && IsTypedKey(c.env.cs, c.im.keys, lowerKey)
    requires WellFormed(c.env.cs, c.im.keys, syllable, nid) && NoVirtual(syllable)
    ensures NoVirtual(NewSyllable(c, syllable, lowerKey, isUpperCase, nid))
  {
    hide KeyTransformations, Refresh, WellFormed, NoVirtual, GoodMethod, NoAppended, IsTypedKey, Generated, Typed;
    var ts := KeyTransformations(c, syllable, lowerKey, isUpperCase, nid);
    TransformationsVisible(c, syllable, lowerKey, isUpperCase, nid);
    TransformationsShape(c, syllable, lowerKey, isUpperCase, nid);
    AppendGenerated(c.env.cs, c.im.keys, syllable, ts, nid);
    GrownIsWellFormed(c.env.cs, c.im.keys, syllable, syllable + ts, nid);
    VisibleConcat(syllable, ts);
    RefreshVisible(c, syllable + ts, nid + |ts|);
  }

  // ----- a backspace and a restore -----

  lemma WithoutVisible(comp: Composition, letter: Trans)
    requires NoVirtual(comp)
    ensures NoVirtual(Without(comp, letter))
  {
    WithoutMembers(comp, letter);
  }

  lemma BackspaceKeepsVisible(c: Config, st: State, refresh: bool)
    requires GoodMethod(c.env.cs, c.im) && VisibleInv(c, st)
    ensures VisibleInv(c, RemoveLastChar(c, st, refresh))
  {
    hide GoodMethod, NoVirtual, ExtractLastWord, Refresh, Without, CanProcessKey, FindLastAppending, Separated,
         EntryOk, Letters, Canvas, Pops, TargetsIn, Distinct;
    var cs, keys := c.env.cs, c.im.keys;
    BackspacePops(c, st, refresh);
    var last := FindLastAppending(st.comp);
    if last.Some? {
      if !CanProcessKey(cs, last.value.rule.key, keys) {
        var n := |st.comp| - 1;
        LastAppendingMember(st.comp);
        assert st.comp == st.comp[..n] + [st.comp[n]];
        VisibleConcat(st.comp[..n], [st.comp[n]]);
      } else {
        var (previous, word) := ExtractLastWord(cs, st.comp, keys);
        CutIsLossless(cs, st.comp, keys);
        VisibleConcat(previous, word);
        var rest := Without(word, last.value);
        WithoutVisible(word, last.value);
        WordIsWellFormed(c, st);
        if refresh {
          RestIsWellFormed(cs, keys, word, last.value, st.nextId);
          RefreshVisible(c, rest, st.nextId);
          var (refreshed, extra) := Refresh(c, rest, st.nextId);
          assert previous + refreshed + extra == previous + (refreshed + extra);
          VisibleConcat(previous, refreshed + extra);
        } else {
          assert previous + rest + [] == previous + rest;
          VisibleConcat(previous, rest);
        }
      }
    }
  }

  lemma WordIsWellFormed(c: Config, st: State)
    requires Inv(c, st)
    ensures WellFormed(c.env.cs, c.im.keys, ExtractLastWord(c.env.cs, st.comp, c.im.keys).1, st.nextId)
  {
    hide EntryOk, Separated, ExtractLastWord;
    var (previous, word) := ExtractLastWord(c.env.cs, st.comp, c.im.keys);
    CutIsLossless(c.env.cs, st.comp, c.im.keys);
    WellFormedParts(c.env.cs, c.im.keys, previous, word, st.nextId);
  }

  lemma RestIsWellFormed(cs: Charset, keys: seq<char>, word: Composition, letter: Trans, nid: nat)
    requires WellFormed(cs, keys, word, nid)
    ensures WellFormed(cs, keys, Without(word, letter), nid)
  {
    hide EntryOk;
    WithoutMembers(word, letter);
    WithoutDistinct(word, letter, nid);
  }

  lemma RestoreKeepsVisible(c: Config, st: State)
    requires GoodMethod(c.env.cs, c.im) && VisibleInv(c, st)
    ensures VisibleInv(c, RestoreLastWord(c, st, false))
  {
    hide GoodMethod, NoVirtual, ExtractLastWord, BreakComposition, Separated, EntryOk, Shape, Canvas;
    RestoreExposesKeys(c, st);
    var (previous, word) := ExtractLastWord(c.env.cs, st.comp, c.im.keys);
    CutIsLossless(c.env.cs, st.comp, c.im.keys);
    VisibleConcat(previous, word);
    BrokenVisible(word, st.nextId);
    VisibleConcat(previous, BreakComposition(word, st.nextId));
  }

  lemma {:induction false} BrokenVisible(word: Composition, nid: nat)
    ensures NoVirtual(BreakComposition(word, nid))
  {
    hide NoVirtual;
    if word == [] {
      NoLettersAreVisible([]);
    } else {
      var n := |word| - 1;
      BrokenVisible(word[..n], nid);
      var broken := BreakComposition(word[..n], nid);
      assert broken + [] == broken;
      if word[n].rule.key != NUL {
        LetterVisible(nid + |broken|, word[n].rule.key, word[n].isUpperCase);
        VisibleConcat(broken, [NewAppendingTrans(nid + |broken|, word[n].rule.key, word[n].isUpperCase)]);
      }
    }
  }
}
