/**
 For methods without Appending rules the letters of a composition are a stack:
 a key pushes one letter or none, a backspace pops one.
 */
module BambooStack {
  import opened Options
  import opened BambooChars
  import opened BambooSpelling
  import opened BambooFlattener
  import opened BambooUtils
  import opened BambooKeys
  import opened BambooShape
  import opened BambooGenerators
  import opened BambooSteps
  import opened BambooWords
  import opened BambooRuns
  import opened BambooRestore

  // The toneless, markless, lower-case text of the whole composition.
  function LetterText(c: Config, st: State): string {
    Canvas(c.env.cs, st.comp, BASE_LETTERS)
  }

  ghost predicate PlainInv(c: Config, st: State) {
    Inv(c, st) && Plain(c.env.cs, st.comp)
  }

  // ----- a key -----

  lemma PlainNeverDoubles(cs: Charset, comp: Composition, lowerKey: char)
    requires Plain(cs, comp)
    ensures !IsRawDouble(comp, lowerKey)
  {
    if comp != [] {
      assert comp[|comp| - 1] in comp;
    }
  }

  lemma PlainConcat(cs: Charset, a: Composition, b: Composition)
    ensures Plain(cs, a + b) <==> Plain(cs, a) && Plain(cs, b)
  {
    if Plain(cs, a + b) {
      assert forall t :: t in a ==> t in a + b;
      assert forall t :: t in b ==> t in a + b;
    }
  }

  lemma {:induction false} QuietIsPlain(cs: Charset, ts: Composition)
    requires forall t :: t in ts ==> !IsAppending(t)
    requires NoRaw(ts)
    ensures Plain(cs, ts) && Letters(ts, false) == []
  {
    if ts != [] {
      assert ts[|ts| - 1] in ts;
      QuietIsPlain(cs, ts[..|ts| - 1]);
    }
  }

  // Without Appending rules a key generates at most one letter, its own.
  lemma PlainTransformations(c: Config, syllable: Composition, lowerKey: char, isUpperCase: bool, nid: nat)
    requires GoodMethod(c.env.cs, c.im) && NoAppending(c.im) && IsTypedKey(c.env.cs, c.im.keys, lowerKey)
    requires WellFormed(c.env.cs, c.im.keys, syllable, nid) && Plain(c.env.cs, syllable)
    ensures var ts := KeyTransformations(c, syllable, lowerKey, isUpperCase, nid);
            PushesAtMost(ts, lowerKey) && Plain(c.env.cs, ts)
  {
    hide GenerateTransformations, GenerateFallback, UowShortcut, Generated, Typed, EntryOk, GoodRule, Plain, IsPlain,
         Letters, BaseLetter;
    var cs, keys := c.env.cs, c.im.keys;
    var rules := RulesFor(c, lowerKey);
    var ts := KeyTransformations(c, syllable, lowerKey, isUpperCase, nid);
    PlainNeverDoubles(cs, syllable, lowerKey);
    KeyTransformationsShape(c.env, keys, syllable, rules, c.flags, lowerKey, isUpperCase, nid, nid);
    var direct := GenerateTransformations(c.env, syllable, rules, c.flags, lowerKey, isUpperCase, nid);
    if direct != [] {
      assert ts == direct;
      OutcomeIsPlain(cs, keys, syllable, ts, lowerKey, isUpperCase, nid);
    } else {
      PlainFallback(c, syllable, lowerKey, isUpperCase, nid);
    }
  }

  lemma OutcomeIsPlain(cs: Charset, keys: seq<char>, home: Composition, ts: Composition, lowerKey: char,
                       isUpperCase: bool, nid: nat)
    requires Outcome(cs, keys, home, ts, lowerKey, isUpperCase, nid)
    ensures PushesAtMost(ts, lowerKey) && Plain(cs, ts)
  {
  }

  lemma PlainFallback(c: Config, syllable: Composition, lowerKey: char, isUpperCase: bool, nid: nat)
    requires GoodMethod(c.env.cs, c.im) && NoAppending(c.im) && IsTypedKey(c.env.cs, c.im.keys, lowerKey)
    ensures var fallback := GenerateFallback(c.env.cs, RulesFor(c, lowerKey), lowerKey, isUpperCase, nid);
            var ts := fallback + UowShortcut(c, syllable + fallback, nid + |fallback|);
            PushesAtMost(ts, lowerKey) && Plain(c.env.cs, ts)
  {
    hide GenerateFallback, UowShortcut, Generated, Typed, EntryOk, GoodRule, Letters, BaseLetter;
    var cs, keys := c.env.cs, c.im.keys;
    var rules := RulesFor(c, lowerKey);
    AppendingRuleIsRule(rules, lowerKey);
    FallbackShape(cs, keys, syllable, rules, lowerKey, isUpperCase, nid);
    var letter := NewAppendingTrans(nid, lowerKey, isUpperCase);
    OneEntry(cs, letter);
    var fallback := GenerateFallback(cs, rules, lowerKey, isUpperCase, nid);
    assert fallback == [letter];
    var shortcut := UowShortcut(c, syllable + fallback, nid + |fallback|);
    ShortcutShape(c, syllable + fallback, nid + |fallback|);
    QuietIsPlain(cs, shortcut);
    PlainConcat(cs, fallback, shortcut);
    LettersConcat(fallback, shortcut, false);
  }

  // The letters before and after a key.
  ghost predicate Pushes(before: Composition, after: Composition, lowerKey: char) {
    || after == before
    || (after != [] && after[..|after| - 1] == before
        && after[|after| - 1].rule.key == after[|after| - 1].rule.effectOn == lowerKey)
  }

  lemma PlainSyllable(c: Config, syllable: Composition, lowerKey: char, isUpperCase: bool, nid: nat)
    requires GoodMethod(c.env.cs, c.im) && NoAppending(c.im) && IsTypedKey(c.env.cs, c.im.keys, lowerKey)
    requires WellFormed(c.env.cs, c.im.keys, syllable, nid) && Plain(c.env.cs, syllable)
    ensures var next := NewSyllable(c, syllable, lowerKey, isUpperCase, nid);
            Plain(c.env.cs, next) && Pushes(Letters(syllable, false), Letters(next, false), lowerKey)
  {
    hide KeyTransformations, Refresh, Generated, EntryOk, GoodRule, IsTypedKey, Letters, Grows, GoodMethod,
         NoAppending, CharsetData.Good;
    var cs := c.env.cs;
    var ts := KeyTransformations(c, syllable, lowerKey, isUpperCase, nid);
    TransformationsShape(c, syllable, lowerKey, isUpperCase, nid);
    PlainTransformations(c, syllable, lowerKey, isUpperCase, nid);
    var full := syllable + ts;
    AppendGenerated(cs, c.im.keys, syllable, ts, nid);
    GrownIsWellFormed(cs, c.im.keys, syllable, full, nid);
    RefreshShape(c, full, nid + |ts|);
    var (refreshed, extra) := Refresh(c, full, nid + |ts|);
    PlainConcat(cs, syllable, ts);
    RetargetingKeepsPlain(cs, refreshed, full);
    RetargetingKeepsLetters(refreshed, full);
    QuietIsPlain(cs, extra);
    PlainConcat(cs, refreshed, extra);
    LettersConcat(syllable, ts, false);
    LettersConcat(refreshed, extra, false);
    assert Letters(NewSyllable(c, syllable, lowerKey, isUpperCase, nid), false)
        == Letters(syllable, false) + Letters(ts, false);
  }

  lemma RetargetingKeepsPlain(cs: Charset, a: Composition, b: Composition)
    requires SameButTargets(a, b) && Plain(cs, b)
    ensures Plain(cs, a)
  {
    forall t | t in a ensures (IsAppending(t) ==> IsPlain(cs, t)) && NoRaw([t]) {
      var i :| 0 <= i < |a| && a[i] == t;
      assert b[i] in b;
    }
    forall t | t in a && t.rule.effectType == MarkTransformation ensures t.rule.effect != MARK_RAW {
      assert t in [t];
    }
  }

  // Every key, in any mode, pushes the base letter of the key or leaves the letters alone.
  lemma KeyPushesLetter(c: Config, st: State, key: char, english: bool)
    requires GoodMethod(c.env.cs, c.im) && NoAppending(c.im) && PlainInv(c, st) && c.env.cs.lower(key) != NUL
    ensures var next := ProcessKey(c, st, key, english);
            PlainInv(c, next) && Pushes(Letters(st.comp, false), Letters(next.comp, false), c.env.cs.lower(key))
  {
    hide ProcessKey, Inv, GoodMethod, NoAppending, Letters, Plain, Pushes, CharsetData.Good;
    if IsProcessed(c, key, english) {
      ProcessedKey(c, st, key);
      ProcessedKeyPushes(c, st, key);
    } else {
      UnprocessedKey(c, st, key, english);
      UnprocessedKeyPushes(c, st, key, english);
    }
  }

  lemma KeyPushes(c: Config, st: State, key: char, english: bool)
    requires GoodMethod(c.env.cs, c.im) && NoAppending(c.im) && PlainInv(c, st) && c.env.cs.lower(key) != NUL
    ensures var next := ProcessKey(c, st, key, english);
            && PlainInv(c, next)
            && Pushes(Letters(st.comp, false), Letters(next.comp, false), c.env.cs.lower(key))
            && (LetterText(c, next) == LetterText(c, st)
                || LetterText(c, next) == LetterText(c, st) + [BaseLetter(c.env.cs, c.env.cs.lower(key))])
  {
    hide ProcessKey, Inv, GoodMethod, NoAppending, Letters, Plain, BaseLetter, Canvas, CharsetData.Good;
    var next := ProcessKey(c, st, key, english);
    KeyPushesLetter(c, st, key, english);
    TextOfPlain(c, st);
    TextOfPlain(c, next);
  }

  lemma TextOfPlain(c: Config, st: State)
    requires Plain(c.env.cs, st.comp)
    ensures LetterText(c, st) == BaseText(c.env.cs, Letters(st.comp, false))
  {
    CanvasOfBaseLetters(c.env.cs, st.comp);
  }

  lemma UnprocessedKeyPushes(c: Config, st: State, key: char, english: bool)
    requires Plain(c.env.cs, st.comp) && !IsProcessed(c, key, english) && c.env.cs.lower(key) != NUL
    ensures var next := ProcessKey(c, st, key, english);
            Plain(c.env.cs, next.comp)
              && Pushes(Letters(st.comp, false), Letters(next.comp, false), c.env.cs.lower(key))
  {
    hide NewComposition, CanProcessKey, Letters, BaseLetter;
    var letter := NewAppendingTrans(st.nextId, c.env.cs.lower(key), c.env.cs.isUpper(key));
    OneEntry(c.env.cs, letter);
    PlainConcat(c.env.cs, st.comp, [letter]);
    LettersConcat(st.comp, [letter], false);
  }

  lemma ProcessedKeyPushes(c: Config, st: State, key: char)
    requires GoodMethod(c.env.cs, c.im) && NoAppending(c.im) && PlainInv(c, st)
    requires IsProcessed(c, key, false) && c.env.cs.lower(key) != NUL
    ensures var next := ProcessKey(c, st, key, false);
            Plain(c.env.cs, next.comp)
              && Pushes(Letters(st.comp, false), Letters(next.comp, false), c.env.cs.lower(key))
  {
    hide ExtractLastSyllable, NewSyllable, Separated, GoodMethod, NoAppending, WellFormed, TargetsIn, Plain, Letters,
         IsTypedKey;
    var cs := c.env.cs;
    var lowerKey, isUpperCase := cs.lower(key), cs.isUpper(key);
    var (previous, syllable) := ExtractLastSyllable(c.env, st.comp);
    assert previous + syllable == st.comp;
    WellFormedParts(cs, c.im.keys, previous, syllable, st.nextId);
    TypedKeyIsProcessed(c, key);
    PlainConcat(cs, previous, syllable);
    PlainSyllable(c, syllable, lowerKey, isUpperCase, st.nextId);
    var next := NewSyllable(c, syllable, lowerKey, isUpperCase, st.nextId);
    PlainConcat(cs, previous, next);
    LettersConcat(previous, syllable, false);
    LettersConcat(previous, next, false);
    PushesBehind(Letters(previous, false), Letters(syllable, false), Letters(next, false), lowerKey);
  }

  lemma PushesBehind(previous: Composition, before: Composition, after: Composition, lowerKey: char)
    requires Pushes(before, after, lowerKey)
    ensures Pushes(previous + before, previous + after, lowerKey)
  {
    if after != before {
      var all := previous + after;
      assert all[..|all| - 1] == previous + after[..|after| - 1];
    }
  }

  // Keystrokes are conserved: no key of a run is ever lost.
  lemma {:induction false} KeystrokesConserved(c: Config, presses: seq<Press>)
    requires GoodMethod(c.env.cs, c.im) && NoAppending(c.im)
    requires forall p :: p in presses ==> IsOrdinaryKey(c.env.cs, p.key)
    ensures PlainInv(c, RunKeys(c, presses))
    ensures Typed(c.env.cs, RunKeys(c, presses).comp) == KeysOf(presses)
  {
    KeystrokesRecorded(c, presses);
    NothingIsLost(c, presses);
  }

  lemma {:induction false} NothingIsLost(c: Config, presses: seq<Press>)
    requires GoodMethod(c.env.cs, c.im) && NoAppending(c.im)
    requires forall p :: p in presses ==> IsOrdinaryKey(c.env.cs, p.key)
    ensures PlainInv(c, RunKeys(c, presses)) && Lost(c, presses) == 0
  {
    hide Inv, GoodMethod, NoAppending, ProcessKey, ExtractLastSyllable, Plain;
    if presses == [] {
      EmptyInv(c);
      QuietIsPlain(c.env.cs, []);
    } else {
      var n := |presses| - 1;
      var st := RunKeys(c, presses[..n]);
      NothingIsLost(c, presses[..n]);
      assert presses[n] in presses;
      KeyPushes(c, st, presses[n].key, presses[n].english);
      var (previous, syllable) := ExtractLastSyllable(c.env, st.comp);
      assert previous + syllable == st.comp;
      PlainConcat(c.env.cs, previous, syllable);
      PlainNeverDoubles(c.env.cs, syllable, c.env.cs.lower(presses[n].key));
    }
  }

  // Typing a string keeps all of it.
  lemma {:induction false} TypingKeepsAll(c: Config, st: State, str: string, english: bool)
    requires GoodMethod(c.env.cs, c.im) && NoAppending(c.im) && PlainInv(c, st)
    requires forall k :: k in str ==> c.env.cs.lower(k) != NUL
    ensures PlainInv(c, TypeAll(c, st, str, english)) && Kept(c, st, str, english) == str
  {
    hide Inv, GoodMethod, NoAppending, ProcessKey, LosesKey, Plain, Letters, LetterText, Pushes, BaseLetter,
         CharsetData.Good, PlainInv, Pushes;
    if str != "" {
      var n := |str| - 1;
      assert str[n] in str && forall k :: k in str[..n] ==> k in str;
      TypingKeepsAll(c, st, str[..n], english);
      KeyPushesLetter(c, TypeAll(c, st, str[..n], english), str[n], english);
      PlainKeepsKey(c, TypeAll(c, st, str[..n], english), str[n], english);
      assert str == str[..n] + [str[n]];
    }
  }

  lemma PlainKeepsKey(c: Config, st: State, key: char, english: bool)
    requires PlainInv(c, st)
    ensures !LosesKey(c, st, key, english)
  {
    hide Inv, ExtractLastSyllable, Plain;
    var (previous, syllable) := ExtractLastSyllable(c.env, st.comp);
    assert previous + syllable == st.comp;
    PlainConcat(c.env.cs, previous, syllable);
    PlainNeverDoubles(c.env.cs, syllable, c.env.cs.lower(key));
  }
}
