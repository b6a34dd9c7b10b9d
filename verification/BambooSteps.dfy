/**
 One key on a whole composition: the old entries stay (a tone may be retargeted in
 place), the new ones go to the end, and the pointer shape is kept.
 */
module BambooSteps {
  import opened Options
  import opened BambooChars
  import opened BambooSpelling
  import opened BambooFlattener
  import opened BambooUtils
  import opened BambooKeys
  import opened BambooShape
  import opened BambooGenerators

  // The same entries, except that tones may point elsewhere.
  ghost predicate SameButTargets(a: Composition, b: Composition) {
    && |a| == |b|
    && forall i :: 0 <= i < |a| ==>
         a[i] == b[i] || (a[i] == b[i].(target := a[i].target) && b[i].rule.effectType == ToneTransformation)
  }

  lemma {:induction false} RetargetingKeepsLetters(a: Composition, b: Composition)
    requires SameButTargets(a, b)
    ensures Letters(a, false) == Letters(b, false)
    ensures SameButTargets(Letters(a, true), Letters(b, true))
  {
    if a != [] {
      RetargetingKeepsLetters(a[..|a| - 1], b[..|b| - 1]);
    }
  }

  lemma RetargetingKeepsTyped(cs: Charset, a: Composition, b: Composition)
    requires SameButTargets(a, b)
    ensures Typed(cs, a) == Typed(cs, b)
  {
    RetargetingKeepsLetters(a, b);
  }

  lemma RetargetingKeepsHasLetter(a: Composition, b: Composition, id: nat)
    requires SameButTargets(a, b)
    ensures HasLetter(a, id) <==> HasLetter(b, id)
  {
    if HasLetter(a, id) {
      var x :| x in a && x.id == id && IsAppending(x);
      var i :| 0 <= i < |a| && a[i] == x;
      assert b[i] in b;
    }
    if HasLetter(b, id) {
      var x :| x in b && x.id == id && IsAppending(x);
      var i :| 0 <= i < |b| && b[i] == x;
      assert a[i] in a;
    }
  }

  // `comp` became `next`: old entries in front, everything changed or new points at letters of `next`.
  ghost predicate Grows(cs: Charset, keys: seq<char>, comp: Composition, next: Composition, nid: nat) {
    && |next| >= |comp|
    && SameButTargets(next[..|comp|], comp)
    && WellFormed(cs, keys, next, nid + |next| - |comp|)
    && (forall i :: |comp| <= i < |next| ==> next[i].id >= nid)
    && forall i :: 0 <= i < |next| ==>
         (i < |comp| && next[i] == comp[i]) || next[i].target.None? || HasLetter(next, next[i].target.value)
  }

  lemma HasLetterGrows(a: Composition, b: Composition, id: nat)
    requires HasLetter(a, id) || HasLetter(b, id)
    ensures HasLetter(a + b, id)
  {
    if HasLetter(a, id) {
      var x :| x in a && x.id == id && IsAppending(x);
      assert x in a + b;
    } else {
      var x :| x in b && x.id == id && IsAppending(x);
      assert x in a + b;
    }
  }

  // Appending generated entries.
  lemma AppendGenerated(cs: Charset, keys: seq<char>, comp: Composition, ts: Composition, nid: nat)
    requires WellFormed(cs, keys, comp, nid) && Generated(cs, keys, comp + ts, ts, nid)
    ensures Grows(cs, keys, comp, comp + ts, nid)
  {
    assert (comp + ts)[..|comp|] == comp;
    var next := comp + ts;
    forall i | |comp| <= i < |next| ensures next[i].target.None? || HasLetter(next, next[i].target.value) {
      assert next[i] == ts[i - |comp|];
      assert next[i] in ts;
    }
  }

  lemma GrowsTwice(cs: Charset, keys: seq<char>, a: Composition, b: Composition, c: Composition, nid: nat)
    requires Grows(cs, keys, a, b, nid) && Grows(cs, keys, b, c, nid + |b| - |a|)
    ensures Grows(cs, keys, a, c, nid)
  {
    hide CharsetData.Good;
    forall i | 0 <= i < |a|
      ensures c[i] == a[i] || (c[i] == a[i].(target := c[i].target) && a[i].rule.effectType == ToneTransformation)
    {
      assert c[i] == c[..|b|][i] && b[i] == b[..|a|][i];
    }
    forall i | 0 <= i < |c|
      ensures (i < |a| && c[i] == a[i]) || c[i].target.None? || HasLetter(c, c[i].target.value)
    {
      if i < |b| && c[i] == b[i] && c[i].target.Some? && !(i < |a| && c[i] == a[i]) {
        var id := c[i].target.value;
        RetargetingKeepsHasLetter(c[..|b|], b, id);
        HasLetterGrows(c[..|b|], c[|b|..], id);
        assert c == c[..|b|] + c[|b|..];
      }
    }
  }

  lemma GrownIsWellFormed(cs: Charset, keys: seq<char>, comp: Composition, next: Composition, nid: nat)
    requires Grows(cs, keys, comp, next, nid)
    ensures WellFormed(cs, keys, next, nid + |next| - |comp|)
  {
  }

  // The tone refresh retargets at most one tone and adds virtual tones.
  lemma RefreshShape(c: Config, comp: Composition, nid: nat)
    requires WellFormed(c.env.cs, c.im.keys, comp, nid)
    ensures var (refreshed, extra) := Refresh(c, comp, nid);
            && SameButTargets(refreshed, comp)
            && Grows(c.env.cs, c.im.keys, comp, refreshed + extra, nid)
            && (forall t :: t in extra ==> t.rule.key == NUL && t.rule.effectType == ToneTransformation)
            && (forall i :: 0 <= i < |comp| && i + 1 != LastToneIndex(comp) ==> refreshed[i] == comp[i])
  {
    hide FindToneTarget, ExtractCvcTrans, IsValid, WellFormed, EntryOk, Distinct;
    var cs, keys := c.env.cs, c.im.keys;
    var (refreshed, extra) := Refresh(c, comp, nid);
    if extra == [] {
      assert refreshed == comp;
      NothingGrows(cs, keys, comp, nid);
    } else {
      var i := LastToneIndex(comp) - 1;
      var target := FindToneTarget(cs, comp, c.flags.std);
      ToneTargetIsLetter(cs, keys, comp, c.flags.std, nid);
      assert refreshed == comp[i := comp[i].(target := target)];
      assert extra == [Candidate(nid, UNDO_TONE, target), Candidate(nid + 1, comp[i].rule.(key := NUL), target)];
      RetargetAndCopy(cs, keys, comp, i, target, nid);
    }
  }

  lemma NothingGrows(cs: Charset, keys: seq<char>, comp: Composition, nid: nat)
    requires WellFormed(cs, keys, comp, nid)
    ensures comp + [] == comp && Grows(cs, keys, comp, comp, nid)
  {
    assert comp[..|comp|] == comp;
  }

  lemma RetargetAndCopy(cs: Charset, keys: seq<char>, comp: Composition, i: nat, target: Option<nat>, nid: nat)
    requires WellFormed(cs, keys, comp, nid) && i < |comp| && comp[i].rule.effectType == ToneTransformation
    requires target.Some? ==> HasLetter(comp, target.value)
    ensures var next := comp[i := comp[i].(target := target)];
            var extra := [Candidate(nid, UNDO_TONE, target), Candidate(nid + 1, comp[i].rule.(key := NUL), target)];
            SameButTargets(next, comp) && Grows(cs, keys, comp, next + extra, nid)
  {
    var next := comp[i := comp[i].(target := target)];
    var extra := [Candidate(nid, UNDO_TONE, target), Candidate(nid + 1, comp[i].rule.(key := NUL), target)];
    RetargetOne(cs, keys, comp, i, target, nid);
    assert EntryOk(cs, keys, comp[i]);
    if target.Some? {
      RetargetingKeepsHasLetter(next, comp, target.value);
      HasLetterGrows(next, extra, target.value);
    }
    assert Generated(cs, keys, next + extra, extra, nid);
    AppendGenerated(cs, keys, next, extra, nid);
    GrowsTwice(cs, keys, comp, next, next + extra, nid);
  }

  lemma RetargetOne(cs: Charset, keys: seq<char>, comp: Composition, i: nat, target: Option<nat>, nid: nat)
    requires WellFormed(cs, keys, comp, nid) && i < |comp| && comp[i].rule.effectType == ToneTransformation
    requires target.Some? ==> HasLetter(comp, target.value)
    ensures var next := comp[i := comp[i].(target := target)];
            SameButTargets(next, comp) && Grows(cs, keys, comp, next, nid)
  {
    hide CharsetData.Good;
    var next := comp[i := comp[i].(target := target)];
    assert EntryOk(cs, keys, comp[i]);
    forall t | t in next ensures EntryOk(cs, keys, t) {
      var j :| 0 <= j < |next| && next[j] == t;
      assert comp[j] in comp;
    }
    assert next[..|comp|] == next;
    if target.Some? {
      RetargetingKeepsHasLetter(next, comp, target.value);
    }
  }

  // The transformations of a key.
  lemma TransformationsShape(c: Config, syllable: Composition, lowerKey: char, isUpperCase: bool, nid: nat)
    requires GoodMethod(c.env.cs, c.im) && WellFormed(c.env.cs, c.im.keys, syllable, nid)
             && IsTypedKey(c.env.cs, c.im.keys, lowerKey)
    ensures var ts := KeyTransformations(c, syllable, lowerKey, isUpperCase, nid);
            Generated(c.env.cs, c.im.keys, syllable + ts, ts, nid) && AllTargeted(ts)
            && Typed(c.env.cs, ts) == if IsRawDouble(syllable, lowerKey) then ""
                 else [CasedKey(c.env.cs, lowerKey, isUpperCase)]
  {
    hide GenerateTransformations, GenerateFallback, UowShortcut, RulesFor, Generated, Typed, EntryOk, GoodRule,
         PushesAtMost, NoRaw;
    var cs, keys := c.env.cs, c.im.keys;
    var rules := RulesFor(c, lowerKey);
    var ts := KeyTransformations(c, syllable, lowerKey, isUpperCase, nid);
    var direct := GenerateTransformations(c.env, syllable, rules, c.flags, lowerKey, isUpperCase, nid);
    if IsRawDouble(syllable, lowerKey) {
      RawDoubleShape(c.env, keys, syllable, rules, c.flags, lowerKey, isUpperCase, nid);
      VirtualIsSilent(cs, direct);
      TargetsInGrows(cs, keys, syllable, ts, nid);
    } else {
      KeyTransformationsShape(c.env, keys, syllable, rules, c.flags, lowerKey, isUpperCase, nid, nid);
      if direct != [] {
        assert ts == direct;
        TargetsInGrows(cs, keys, syllable, ts, nid);
      } else {
        FallbackAndShortcut(c, syllable, lowerKey, isUpperCase, nid);
      }
    }
  }

  lemma TargetsInGrows(cs: Charset, keys: seq<char>, comp: Composition, ts: Composition, nid: nat)
    requires Generated(cs, keys, comp, ts, nid)
    ensures Generated(cs, keys, comp + ts, ts, nid)
  {
    forall t | t in ts && t.target.Some? ensures HasLetter(comp + ts, t.target.value) {
      HasLetterGrows(comp, ts, t.target.value);
    }
  }

  lemma FallbackAndShortcut(c: Config, syllable: Composition, lowerKey: char, isUpperCase: bool, nid: nat)
    requires GoodMethod(c.env.cs, c.im) && IsTypedKey(c.env.cs, c.im.keys, lowerKey)
    ensures var fallback := GenerateFallback(c.env.cs, RulesFor(c, lowerKey), lowerKey, isUpperCase, nid);
            var ts := fallback + UowShortcut(c, syllable + fallback, nid + |fallback|);
            Generated(c.env.cs, c.im.keys, syllable + ts, ts, nid) && AllTargeted(ts)
            && Typed(c.env.cs, ts) == [CasedKey(c.env.cs, lowerKey, isUpperCase)]
  {
    hide GenerateFallback, UowShortcut, Generated, Typed, GoodRule, CasedKey, NoRaw, Plain, Letters, IsAppendingRule,
         AppendingRuleFor, PushesAtMost, CharsetData.Good;
    var cs, keys := c.env.cs, c.im.keys;
    var rules := RulesFor(c, lowerKey);
    var fallback := GenerateFallback(cs, rules, lowerKey, isUpperCase, nid);
    var shortcut := UowShortcut(c, syllable + fallback, nid + |fallback|);
    FallbackShape(cs, keys, syllable + fallback, rules, lowerKey, isUpperCase, nid);
    ShortcutShape(c, syllable + fallback, nid + |fallback|);
    VirtualIsSilent(cs, shortcut);
    TypedConcat(cs, fallback, shortcut);
    GeneratedConcat(cs, keys, syllable + fallback, fallback, shortcut, nid);
    HomeGrows(cs, keys, syllable, fallback, shortcut, nid);
  }

  lemma HomeGrows(cs: Charset, keys: seq<char>, syllable: Composition, a: Composition, b: Composition, nid: nat)
    requires Generated(cs, keys, syllable + a, a + b, nid)
    ensures Generated(cs, keys, syllable + (a + b), a + b, nid)
  {
    var ts: Composition := a + b;
    forall t: Trans | t in ts && t.target.Some? ensures HasLetter(syllable + ts, t.target.value) {
      HasLetterGrows(syllable + a, b, t.target.value);
      assert syllable + a + b == syllable + ts;
    }
  }

  // The new syllable.
  lemma SyllableStep(c: Config, syllable: Composition, lowerKey: char, isUpperCase: bool, nid: nat)
    requires GoodMethod(c.env.cs, c.im) && WellFormed(c.env.cs, c.im.keys, syllable, nid)
             && IsTypedKey(c.env.cs, c.im.keys, lowerKey)
    ensures var next := NewSyllable(c, syllable, lowerKey, isUpperCase, nid);
            && Grows(c.env.cs, c.im.keys, syllable, next, nid)
            && Typed(c.env.cs, next) == Typed(c.env.cs, syllable)
                 + if IsRawDouble(syllable, lowerKey) then "" else [CasedKey(c.env.cs, lowerKey, isUpperCase)]
  {
    hide KeyTransformations, Refresh, Typed, Generated, WellFormed, GoodMethod, IsTypedKey, SameButTargets,
         IsRawDouble, AllTargeted, CasedKey;
    var cs := c.env.cs;
    var ts := KeyTransformations(c, syllable, lowerKey, isUpperCase, nid);
    TransformationsShape(c, syllable, lowerKey, isUpperCase, nid);
    var full := syllable + ts;
    AppendGenerated(cs, c.im.keys, syllable, ts, nid);
    assert WellFormed(cs, c.im.keys, full, nid + |ts|);
    RefreshShape(c, full, nid + |ts|);
    var (refreshed, extra) := Refresh(c, full, nid + |ts|);
    GrowsTwice(cs, c.im.keys, syllable, full, refreshed + extra, nid);
    TypedConcat(cs, syllable, ts);
    RetargetingKeepsTyped(cs, refreshed, full);
    VirtualIsSilent(cs, extra);
    TypedConcat(cs, refreshed, extra);
  }

  // Putting the syllable back behind the entries before it.
  lemma GrowsBehind(cs: Charset, keys: seq<char>, previous: Composition, syllable: Composition, next: Composition,
                    nid: nat)
    requires Shape(cs, keys, previous + syllable, nid) && Grows(cs, keys, syllable, next, nid)
    ensures Grows(cs, keys, previous + syllable, previous + next, nid)
    ensures Shape(cs, keys, previous + next, nid + |next| - |syllable|)
  {
    hide EntryOk;
    var old', new' := previous + syllable, previous + next;
    WellFormedParts(cs, keys, previous, syllable, nid);
    SameBehind(previous, syllable, next);
    DistinctBehind(previous, syllable, next, nid);
    assert WellFormed(cs, keys, new', nid + |next| - |syllable|);
    forall i | 0 <= i < |new'|
      ensures new'[i].target.Some? ==> HasLetter(new', new'[i].target.value)
    {
      TargetBehind(cs, keys, previous, syllable, next, nid, i);
    }
  }

  lemma SameBehind(previous: Composition, syllable: Composition, next: Composition)
    requires |next| >= |syllable| && SameButTargets(next[..|syllable|], syllable)
    ensures SameButTargets((previous + next)[..|previous + syllable|], previous + syllable)
  {
    assert forall i :: 0 <= i < |syllable| ==> next[i] == next[..|syllable|][i];
    var n := |previous + syllable|;
    assert forall i :: 0 <= i < n ==>
        (previous + next)[..n][i] == if i < |previous| then previous[i] else next[i - |previous|];
  }

  lemma TargetBehind(cs: Charset, keys: seq<char>, previous: Composition, syllable: Composition, next: Composition,
                     nid: nat, i: nat)
    requires TargetsIn(previous + syllable, previous + syllable) && Grows(cs, keys, syllable, next, nid)
    requires i < |previous + next|
    ensures var t := (previous + next)[i]; t.target.Some? ==> HasLetter(previous + next, t.target.value)
  {
    hide WellFormed;
    var old', new' := previous + syllable, previous + next;
    if new'[i].target.Some? {
      var id := new'[i].target.value;
      if i < |old'| && new'[i] == old'[i] {
        assert old'[i] in old';
        SameBehind(previous, syllable, next);
        RetargetingKeepsHasLetter(new'[..|old'|], old', id);
        HasLetterGrows(new'[..|old'|], new'[|old'|..], id);
        assert new' == new'[..|old'|] + new'[|old'|..];
      } else {
        assert new'[i] == next[i - |previous|];
        HasLetterGrows(previous, next, id);
      }
    }
  }

  lemma DistinctBehind(previous: Composition, syllable: Composition, next: Composition, nid: nat)
    requires Distinct(previous + syllable, nid) && |next| >= |syllable| && SameButTargets(next[..|syllable|], syllable)
    requires Distinct(next, nid + |next| - |syllable|)
    requires forall i :: |syllable| <= i < |next| ==> next[i].id >= nid
    ensures Distinct(previous + next, nid + |next| - |syllable|)
  {
    var old', new' := previous + syllable, previous + next;
    forall i | 0 <= i < |old'| ensures new'[i].id == old'[i].id {
      if i >= |previous| {
        assert next[i - |previous|] == next[..|syllable|][i - |previous|];
      }
    }
    forall i, j | 0 <= i < j < |new'| ensures new'[i].id != new'[j].id {
      if j >= |old'| && i < |old'| {
        assert new'[j] == next[j - |previous|];
      } else if i >= |previous| {
        assert next[i - |previous|].id != next[j - |previous|].id;
      }
    }
  }
}
