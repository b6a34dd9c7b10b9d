/**
 Runs of keys: the pointer shape is an invariant, and every key is recorded once.
 */
module BambooRuns {
  import opened Options
  import opened BambooChars
  import opened BambooSpelling
  import opened BambooFlattener
  import opened BambooUtils
  import opened BambooKeys
  import opened BambooShape
  import opened BambooGenerators
  import opened BambooSteps
  import opened BambooWords

  const EMPTY := State([], 0)

  // A key with a simple case mapping.
  predicate IsOrdinaryKey(cs: Charset, key: char) {
    cs.lower(key) != NUL && CasedKey(cs, cs.lower(key), cs.isUpper(key)) == key
  }

  // The invariant of every reachable state.
  ghost predicate Inv(c: Config, st: State) {
    && Shape(c.env.cs, c.im.keys, st.comp, st.nextId)
    && Separated(c.env.cs, c.im.keys, st.comp)
  }

  // The one way to lose a key: typing the key of an Appending rule twice.
  predicate LosesKey(c: Config, st: State, key: char, english: bool) {
    IsProcessed(c, key, english)
    && IsRawDouble(ExtractLastSyllable(c.env, st.comp).1, c.env.cs.lower(key))
  }

  lemma SyllableHasNoBreak(c: Config, comp: Composition)
    ensures forall t :: t in ExtractLastSyllable(c.env, comp).1 ==> !IsBreak(c.env.cs, c.im.keys, t)
  {
    hide IsBreak, Anchor;
    LastWord(c.env.cs, comp, []);
    forall t | t in ExtractLastSyllable(c.env, comp).1 ensures !IsBreak(c.env.cs, c.im.keys, t) {
      assert t in ExtractLastWord(c.env.cs, comp, []).1;
      if IsBreak(c.env.cs, c.im.keys, t) {
        EmptyKeysBreakMore(c.env.cs, c.im.keys, t);
      }
    }
  }

  // A key typed behind the composition, whether or not it comes from the keyboard.
  lemma CompositionStep(c: Config, st: State, lowerKey: char, isUpperCase: bool)
    requires GoodMethod(c.env.cs, c.im) && Inv(c, st) && IsTypedKey(c.env.cs, c.im.keys, lowerKey)
    ensures var next := Advance(st, NewComposition(c, st.comp, lowerKey, isUpperCase, st.nextId));
            && Inv(c, next) && Grows(c.env.cs, c.im.keys, st.comp, next.comp, st.nextId)
            && Typed(c.env.cs, next.comp) == Typed(c.env.cs, st.comp)
                 + (if IsRawDouble(ExtractLastSyllable(c.env, st.comp).1, lowerKey) then ""
                   else [CasedKey(c.env.cs, lowerKey, isUpperCase)])
            && ((forall t :: t in st.comp ==> !IsBreak(c.env.cs, c.im.keys, t)) ==>
                  forall t :: t in next.comp ==> !IsBreak(c.env.cs, c.im.keys, t))
  {
    hide ExtractLastSyllable, NewSyllable, IsBreak, Shape, WellFormed, Separated, Grows, Typed, IsRawDouble,
         IsTypedKey, GoodMethod, CasedKey, BaseLetter;
    var cs, keys := c.env.cs, c.im.keys;
    var (previous, syllable) := ExtractLastSyllable(c.env, st.comp);
    assert previous + syllable == st.comp;
    var next := NewSyllable(c, syllable, lowerKey, isUpperCase, st.nextId);
    SyllableStepInPlace(c, previous, syllable, lowerKey, isUpperCase, st.nextId);
    SyllableHasNoBreak(c, st.comp);
    NextHasNoBreak(c, syllable, lowerKey, isUpperCase, st.nextId);
    GrowthStaysSeparated(cs, keys, previous, syllable, next, st.nextId);
    GrowthIsLonger(cs, keys, st.comp, previous + next, st.nextId);
    TypedConcat(cs, previous, syllable);
    TypedConcat(cs, previous, next);
    assert forall t :: t in previous ==> t in st.comp;
  }

  // A processed key, Vietnamese mode.
  lemma ProcessedKey(c: Config, st: State, key: char)
    requires GoodMethod(c.env.cs, c.im) && Inv(c, st)
    requires IsProcessed(c, key, false) && c.env.cs.lower(key) != NUL
    ensures var next := ProcessKey(c, st, key, false);
            && Inv(c, next) && Grows(c.env.cs, c.im.keys, st.comp, next.comp, st.nextId)
            && Typed(c.env.cs, next.comp) == Typed(c.env.cs, st.comp)
                 + if LosesKey(c, st, key, false) then ""
                   else [CasedKey(c.env.cs, c.env.cs.lower(key), c.env.cs.isUpper(key))]
  {
    hide ExtractLastSyllable, NewComposition, Inv, Grows, Typed, IsRawDouble, IsTypedKey, GoodMethod, CasedKey,
         CanProcessKey, Advance;
    TypedKeyIsProcessed(c, key);
    CompositionStep(c, st, c.env.cs.lower(key), c.env.cs.isUpper(key));
  }

  lemma GrowthIsLonger(cs: Charset, keys: seq<char>, comp: Composition, next: Composition, nid: nat)
    requires Grows(cs, keys, comp, next, nid)
    ensures |next| >= |comp|
  {
  }

  lemma TypedKeyIsProcessed(c: Config, key: char)
    requires IsProcessed(c, key, false) && c.env.cs.lower(key) != NUL
    ensures IsTypedKey(c.env.cs, c.im.keys, c.env.cs.lower(key))
  {
    ProcessableIffWordChar(c.env.cs, c.env.cs.lower(key), c.im.keys);
  }

  lemma SyllableStepInPlace(c: Config, previous: Composition, syllable: Composition, lowerKey: char, isUpperCase: bool,
                            nid: nat)
    requires GoodMethod(c.env.cs, c.im) && IsTypedKey(c.env.cs, c.im.keys, lowerKey)
    requires Shape(c.env.cs, c.im.keys, previous + syllable, nid)
    ensures WellFormed(c.env.cs, c.im.keys, syllable, nid)
    ensures var next := NewSyllable(c, syllable, lowerKey, isUpperCase, nid);
            && Grows(c.env.cs, c.im.keys, syllable, next, nid)
            && Grows(c.env.cs, c.im.keys, previous + syllable, previous + next, nid)
            && Shape(c.env.cs, c.im.keys, previous + next, nid + |next| - |syllable|)
            && Typed(c.env.cs, next) == Typed(c.env.cs, syllable)
                 + if IsRawDouble(syllable, lowerKey) then "" else [CasedKey(c.env.cs, lowerKey, isUpperCase)]
  {
    hide NewSyllable, Grows, Typed, IsRawDouble, IsTypedKey, GoodMethod, WellFormed;
    WellFormedParts(c.env.cs, c.im.keys, previous, syllable, nid);
    SyllableStep(c, syllable, lowerKey, isUpperCase, nid);
    GrowsBehind(c.env.cs, c.im.keys, previous, syllable, NewSyllable(c, syllable, lowerKey, isUpperCase, nid), nid);
  }

  lemma RetargetingKeepsBreaks(cs: Charset, keys: seq<char>, a: Composition, b: Composition)
    requires SameButTargets(a, b) && forall t :: t in b ==> !IsBreak(cs, keys, t)
    ensures forall t :: t in a ==> !IsBreak(cs, keys, t)
  {
    forall t | t in a ensures !IsBreak(cs, keys, t) {
      var i :| 0 <= i < |a| && a[i] == t;
      assert b[i] in b;
    }
  }

  // No new entry of a processed key ends a word.
  lemma NextHasNoBreak(c: Config, syllable: Composition, lowerKey: char, isUpperCase: bool, nid: nat)
    requires GoodMethod(c.env.cs, c.im) && WellFormed(c.env.cs, c.im.keys, syllable, nid)
    requires IsTypedKey(c.env.cs, c.im.keys, lowerKey)
    requires forall t :: t in syllable ==> !IsBreak(c.env.cs, c.im.keys, t)
    ensures forall t :: t in NewSyllable(c, syllable, lowerKey, isUpperCase, nid) ==> !IsBreak(c.env.cs, c.im.keys, t)
  {
    hide KeyTransformations, Refresh, IsBreak, SameButTargets, GoodMethod, IsTypedKey, EntryOk;
    var ts := KeyTransformations(c, syllable, lowerKey, isUpperCase, nid);
    TransformationsShape(c, syllable, lowerKey, isUpperCase, nid);
    var full := syllable + ts;
    AppendGenerated(c.env.cs, c.im.keys, syllable, ts, nid);
    RefreshShape(c, full, nid + |ts|);
    var (refreshed, extra) := Refresh(c, full, nid + |ts|);
    RetargetingKeepsBreaks(c.env.cs, c.im.keys, refreshed, full);
    VirtualHasNoBreak(c.env.cs, c.im.keys, extra);
  }

  lemma VirtualHasNoBreak(cs: Charset, keys: seq<char>, ts: Composition)
    requires forall t :: t in ts ==> t.rule.key == NUL
    ensures forall t :: t in ts ==> !IsBreak(cs, keys, t)
  {
  }

  // A key that is not processed, or any key in English mode.
  lemma UnprocessedKey(c: Config, st: State, key: char, english: bool)
    requires Inv(c, st) && !IsProcessed(c, key, english) && c.env.cs.lower(key) != NUL
    ensures var next := ProcessKey(c, st, key, english);
            && Inv(c, next)
            && next.comp == st.comp + [NewAppendingTrans(st.nextId, c.env.cs.lower(key), c.env.cs.isUpper(key))]
            && Typed(c.env.cs, next.comp)
                 == Typed(c.env.cs, st.comp) + [CasedKey(c.env.cs, c.env.cs.lower(key), c.env.cs.isUpper(key))]
  {
    hide NewComposition, EntryOk, Typed, CasedKey, IsBreak, Shape, Separated, CanProcessKey;
    var cs, keys := c.env.cs, c.im.keys;
    var letter := NewAppendingTrans(st.nextId, cs.lower(key), cs.isUpper(key));
    OneEntry(cs, letter);
    TypedConcat(cs, st.comp, [letter]);
    NewLetterIsOk(cs, keys, st.nextId, cs.lower(key), cs.isUpper(key));
    PushLetter(cs, keys, st.comp, letter, st.nextId);
  }

  lemma NewLetterIsOk(cs: Charset, keys: seq<char>, id: nat, key: char, isUpperCase: bool)
    requires cs.lower(key) == key && key != NUL
    ensures EntryOk(cs, keys, NewAppendingTrans(id, key, isUpperCase))
  {
  }

  lemma PushLetter(cs: Charset, keys: seq<char>, comp: Composition, letter: Trans, nid: nat)
    requires Shape(cs, keys, comp, nid) && Separated(cs, keys, comp)
    requires IsAppending(letter) && EntryOk(cs, keys, letter) && letter.id == nid
    ensures Shape(cs, keys, comp + [letter], nid + 1) && Separated(cs, keys, comp + [letter])
  {
    hide EntryOk, IsBreak;
    var next := comp + [letter];
    assert letter.target.None? by { EntryHasNoTarget(cs, keys, letter); }
    forall t | t in next && t.target.Some? ensures HasLetter(next, t.target.value) {
      HasLetterGrows(comp, [letter], t.target.value);
    }
    forall k | 0 <= k < |next| && IsBreak(cs, keys, next[k])
      ensures TargetsIn(next[..k], next[..k]) && TargetsIn(next[k + 1..], next[k + 1..])
    {
      if k == |comp| {
        assert next[..k] == comp && next[k + 1..] == [];
      } else {
        assert comp[k] == next[k] && next[..k] == comp[..k] && next[k + 1..] == comp[k + 1..] + [letter];
        forall t | t in next[k + 1..] && t.target.Some? ensures HasLetter(next[k + 1..], t.target.value) {
          HasLetterGrows(comp[k + 1..], [letter], t.target.value);
        }
      }
    }
  }

  lemma EntryHasNoTarget(cs: Charset, keys: seq<char>, t: Trans)
    requires IsAppending(t) && EntryOk(cs, keys, t)
    ensures t.target.None?
  {
  }

  // One key, any mode: the invariant stays, and the key is recorded unless it is a raw double.
  lemma KeyIsRecorded(c: Config, st: State, key: char, english: bool)
    requires GoodMethod(c.env.cs, c.im) && Inv(c, st) && IsOrdinaryKey(c.env.cs, key)
    ensures var next := ProcessKey(c, st, key, english);
            && Inv(c, next)
            && Typed(c.env.cs, next.comp) == Typed(c.env.cs, st.comp) + if LosesKey(c, st, key, english) then ""
                 else [key]
  {
    hide ProcessKey, Typed, Inv, GoodMethod, ExtractLastSyllable, IsRawDouble;
    if IsProcessed(c, key, english) {
      ProcessedKey(c, st, key);
    } else {
      UnprocessedKey(c, st, key, english);
    }
  }

  // ----- whole runs -----

  datatype Press = Press(key: char, english: bool)

  function RunKeys(c: Config, presses: seq<Press>): State {
    if presses == [] then EMPTY
    else
      var n := |presses| - 1;
      ProcessKey(c, RunKeys(c, presses[..n]), presses[n].key, presses[n].english)
  }

  function KeysOf(presses: seq<Press>): (r: string)
    ensures |r| == |presses|
    ensures forall i :: 0 <= i < |presses| ==> r[i] == presses[i].key
  {
    seq(|presses|, i requires 0 <= i < |presses| => presses[i].key)
  }

  // The number of keys of a run that were lost.
  function Lost(c: Config, presses: seq<Press>): nat {
    if presses == [] then 0
    else
      var n := |presses| - 1;
      Lost(c, presses[..n]) + if LosesKey(c, RunKeys(c, presses[..n]), presses[n].key, presses[n].english) then 1 else 0
  }

  // ----- keys typed onto any composition -----

  function TypeAll(c: Config, st: State, str: string, english: bool): State {
    if str == "" then st
    else
      var n := |str| - 1;
      ProcessKey(c, TypeAll(c, st, str[..n], english), str[n], english)
  }

  // The keys among them that are recorded.
  function Kept(c: Config, st: State, str: string, english: bool): string {
    if str == "" then ""
    else
      var n := |str| - 1;
      Kept(c, st, str[..n], english) + if LosesKey(c, TypeAll(c, st, str[..n], english), str[n], english) then ""
        else [str[n]]
  }

  lemma {:induction false} TypingRecords(c: Config, st: State, str: string, english: bool)
    requires GoodMethod(c.env.cs, c.im) && Inv(c, st) && forall k :: k in str ==> IsOrdinaryKey(c.env.cs, k)
    ensures Inv(c, TypeAll(c, st, str, english))
    ensures Typed(c.env.cs, TypeAll(c, st, str, english).comp) == Typed(c.env.cs, st.comp) + Kept(c, st, str, english)
  {
    hide Typed, Inv, GoodMethod, ProcessKey, IsOrdinaryKey, LosesKey;
    if str == "" {
      assert Typed(c.env.cs, st.comp) + "" == Typed(c.env.cs, st.comp);
    } else {
      var n := |str| - 1;
      assert str[n] in str && forall k :: k in str[..n] ==> k in str;
      TypingRecords(c, st, str[..n], english);
      KeyIsRecorded(c, TypeAll(c, st, str[..n], english), str[n], english);
    }
  }

  lemma EmptyInv(c: Config)
    ensures Inv(c, EMPTY) && Typed(c.env.cs, EMPTY.comp) == ""
  {
  }

  // For every method: the recorded text is the typed keys, exactly when no key was a raw double.
  lemma {:induction false} KeystrokesRecorded(c: Config, presses: seq<Press>)
    requires GoodMethod(c.env.cs, c.im) && forall p :: p in presses ==> IsOrdinaryKey(c.env.cs, p.key)
    ensures Inv(c, RunKeys(c, presses))
    ensures |Typed(c.env.cs, RunKeys(c, presses).comp)| == |presses| - Lost(c, presses)
    ensures Typed(c.env.cs, RunKeys(c, presses).comp) == KeysOf(presses) <==> Lost(c, presses) == 0
  {
    hide Typed, Inv, GoodMethod, ProcessKey, IsOrdinaryKey, LosesKey;
    if presses == [] {
      EmptyInv(c);
    } else {
      var n := |presses| - 1;
      var st := RunKeys(c, presses[..n]);
      KeystrokesRecorded(c, presses[..n]);
      assert presses[n] in presses;
      KeyIsRecorded(c, st, presses[n].key, presses[n].english);
      assert KeysOf(presses) == KeysOf(presses[..n]) + [presses[n].key];
    }
  }
}
