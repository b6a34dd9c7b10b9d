/**
 The splits lose nothing: the consonant-vowel-consonant split renders to the same
 text, and the last syllable is a forced, greedy cut.
 */
module BambooSplit {
  import opened Options
  import opened BambooChars
  import opened BambooSpelling
  import opened BambooFlattener
  import opened BambooUtils
  import opened BambooShape
  import opened BambooGenerators
  import opened BambooBackspace

  // The target-less entries are exactly the letters.
  ghost predicate LettersAreTargetLess(comp: Composition) {
    forall t :: t in comp ==> (t.target.None? <==> IsAppending(t))
  }

  lemma {:induction false} TargetedAreEffects(comp: Composition, id: nat)
    requires LettersAreTargetLess(comp)
    ensures TargetedAt(comp, id) == EffectsOn(comp, id)
  {
    if comp != [] {
      var n := |comp| - 1;
      assert comp[n] in comp;
      assert forall t :: t in comp[..n] ==> t in comp;
      TargetedAreEffects(comp[..n], id);
    }
  }

  lemma {:induction false} TargetLessLetters(comp: Composition)
    requires LettersAreTargetLess(comp)
    ensures Letters(TargetLess(comp), false) == Letters(comp, false)
  {
    if comp != [] {
      var n := |comp| - 1;
      assert comp[n] in comp;
      assert forall t :: t in comp[..n] ==> t in comp;
      TargetLessLetters(comp[..n]);
      LettersConcat(TargetLess(comp[..n]), [comp[n]], false);
      assert [comp[n]][..0] == [];
      assert TargetLess(comp) == TargetLess(comp[..n]) || TargetLess(comp) == TargetLess(comp[..n]) + [comp[n]];
    }
  }

  lemma {:induction false} TargetLessDistinct(comp: Composition, nid: nat)
    requires Distinct(comp, nid)
    ensures Distinct(TargetLess(comp), nid)
  {
    if comp != [] {
      var n := |comp| - 1;
      TargetLessDistinct(comp[..n], nid);
      TargetLessMembers(comp[..n]);
      OnlyLast(comp, nid);
      var w := TargetLess(comp[..n]);
      forall i | 0 <= i < |w| ensures w[i].id != comp[n].id {
        assert w[i] in w;
      }
    }
  }

  // Effects in a group of effects that all decorate `q`.
  lemma {:induction false} AllEffects(group: Composition, q: nat)
    requires forall t :: t in group ==> !IsAppending(t) && t.target == Some(q)
    ensures EffectsOn(group, q) == group
  {
    hide IsAppending, CharsetData.Good;
    if group != [] {
      var n := |group| - 1;
      assert group[n] in group;
      assert forall t :: t in group[..n] ==> t in group;
      AllEffects(group[..n], q);
      assert group == group[..n] + [group[n]];
    }
  }

  lemma EffectsOfGroup(group: Composition, q: nat, id: nat)
    requires forall t :: t in group ==> !IsAppending(t) && t.target == Some(q)
    ensures EffectsOn(group, id) == if q == id then group else []
  {
    hide IsAppending, EffectsOn, CharsetData.Good;
    if q == id {
      AllEffects(group, q);
    } else {
      NoTargetsNoEffects(group, id);
    }
  }

  lemma {:induction false} EffectsOfAttached(comp: Composition, letters: Composition, id: nat, nid: nat)
    requires LettersAreTargetLess(comp) && Distinct(letters, nid)
    ensures EffectsOn(Attached(comp, letters), id)
         == if exists l :: l in letters && l.id == id then EffectsOn(comp, id) else []
  {
    if letters != [] {
      var n := |letters| - 1;
      var last := letters[n];
      assert letters == letters[..n] + [last];
      EffectsOfAttached(comp, letters[..n], id, nid);
      TargetedMembers(comp, last.id);
      TargetedAreEffects(comp, last.id);
      EffectsOfGroup(TargetedAt(comp, last.id), last.id, id);
      EffectsConcat(Attached(comp, letters[..n]), TargetedAt(comp, last.id), id);
      OnlyLast(letters, nid);
      assert last in letters;
      if exists l :: l in letters[..n] && l.id == id {
        assert last.id != id;
      }
    }
  }

  lemma {:induction false} EffectsHaveNoLetters(ts: Composition)
    requires forall t :: t in ts ==> !IsAppending(t)
    ensures Letters(ts, false) == []
  {
    if ts != [] {
      assert ts[|ts| - 1] in ts;
      EffectsHaveNoLetters(ts[..|ts| - 1]);
    }
  }

  lemma {:induction false} LettersHaveNoEffects(ts: Composition, id: nat)
    requires forall t :: t in ts ==> IsAppending(t)
    ensures EffectsOn(ts, id) == []
  {
    if ts != [] {
      assert ts[|ts| - 1] in ts;
      LettersHaveNoEffects(ts[..|ts| - 1], id);
    }
  }

  // A part of the split renders its letters as the whole composition does.
  lemma PartRenders(cs: Charset, comp: Composition, letters: Composition, mode: Mode, nid: nat)
    requires LettersAreTargetLess(comp) && Distinct(letters, nid) && !mode.english
    requires forall t :: t in letters ==> t in comp && IsAppending(t)
    ensures Canvas(cs, letters + Attached(comp, letters), mode) == Glyphs(cs, comp, Letters(letters, false), mode)
  {
    hide Finish, Fold;
    var attached := Attached(comp, letters);
    AttachedMembers(comp, letters);
    EffectsHaveNoLetters(attached);
    LettersConcat(letters, attached, false);
    LettersAreMembers(letters, false);
    var ls := Letters(letters, false);
    forall i | 0 <= i < |ls| ensures Glyph(cs, letters + attached, ls[i], mode) == Glyph(cs, comp, ls[i], mode) {
      assert ls[i] in ls;
      EffectsConcat(letters, attached, ls[i].id);
      LettersHaveNoEffects(letters, ls[i].id);
      EffectsOfAttached(comp, letters, ls[i].id, nid);
      assert EffectsOn(letters + attached, ls[i].id) == EffectsOn(comp, ls[i].id);
    }
  }

  lemma DistinctParts(a: Composition, b: Composition, nid: nat)
    requires Distinct(a + b, nid)
    ensures Distinct(a, nid) && Distinct(b, nid)
  {
    var ab := a + b;
    forall i, j | 0 <= i < j < |a| ensures a[i].id != a[j].id { assert ab[i].id != ab[j].id; }
    forall i | 0 <= i < |a| ensures a[i].id < nid { assert ab[i] == a[i]; }
    forall i, j | 0 <= i < j < |b| ensures b[i].id != b[j].id { assert ab[|a| + i].id != ab[|a| + j].id; }
    forall i | 0 <= i < |b| ensures b[i].id < nid { assert ab[|a| + i] == b[i]; }
  }

  // The text of first consonant, vowel and last consonant is the text of the composition.
  lemma CvcSplitIsLossless(cs: Charset, comp: Composition, mode: Mode, nid: nat)
    requires LettersAreTargetLess(comp) && Distinct(comp, nid) && !mode.english
    ensures var c := ExtractCvcTrans(cs, comp);
            Canvas(cs, c.fc, mode) + Canvas(cs, c.vo, mode) + Canvas(cs, c.lc, mode) == Canvas(cs, comp, mode)
  {
    hide *;
    var list := TargetLess(comp);
    TargetLessMembers(comp);
    TargetLessDistinct(comp, nid);
    TargetLessLetters(comp);
    var c := ExtractCvcAppendingTrans(cs, list);
    CvcConcat(cs, list);
    PartsRender(cs, comp, c.fc, c.vo, c.lc, mode, nid);
    SplitParts(cs, comp);
  }

  lemma SplitParts(cs: Charset, comp: Composition)
    ensures var c := ExtractCvcAppendingTrans(cs, TargetLess(comp));
            var r := ExtractCvcTrans(cs, comp);
            r.fc == c.fc + Attached(comp, c.fc) && r.vo == c.vo + Attached(comp, c.vo)
              && r.lc == c.lc + Attached(comp, c.lc)
  {
    hide ExtractCvcAppendingTrans, Attached, TargetLess;
  }

  lemma PartsRender(cs: Charset, comp: Composition, fc: Composition, vo: Composition, lc: Composition, mode: Mode,
                    nid: nat)
    requires LettersAreTargetLess(comp) && Distinct(fc + vo + lc, nid) && !mode.english
    requires forall t :: t in fc + vo + lc ==> t in comp && t.target.None?
    requires Letters(fc + vo + lc, false) == Letters(comp, false)
    ensures Canvas(cs, fc + Attached(comp, fc), mode) + Canvas(cs, vo + Attached(comp, vo), mode)
            + Canvas(cs, lc + Attached(comp, lc), mode)
         == Canvas(cs, comp, mode)
  {
    hide Glyph, Attached, Letters;
    DistinctParts(fc + vo, lc, nid);
    DistinctParts(fc, vo, nid);
    assert forall t :: t in fc ==> t in fc + vo + lc;
    assert forall t :: t in vo ==> t in fc + vo + lc;
    assert forall t :: t in lc ==> t in fc + vo + lc;
    PartRenders(cs, comp, fc, mode, nid);
    PartRenders(cs, comp, vo, mode, nid);
    PartRenders(cs, comp, lc, mode, nid);
    LettersConcat(fc + vo, lc, false);
    LettersConcat(fc, vo, false);
    GlyphsConcat(cs, comp, Letters(fc, false), Letters(vo, false), mode);
    GlyphsConcat(cs, comp, Letters(fc, false) + Letters(vo, false), Letters(lc, false), mode);
  }

  lemma GlyphsConcat(cs: Charset, comp: Composition, a: Composition, b: Composition, mode: Mode)
    ensures Glyphs(cs, comp, a + b, mode) == Glyphs(cs, comp, a, mode) + Glyphs(cs, comp, b, mode)
  {
    hide Glyph;
  }

  lemma CvcConcat(cs: Charset, list: Composition)
    ensures var c := ExtractCvcAppendingTrans(cs, list); c.fc + c.vo + c.lc == list
  {
  }

  // The vowel part holds vowels and their effects, the last part consonants and their effects.
  lemma CvcSplitSorts(cs: Charset, comp: Composition)
    requires LettersAreTargetLess(comp)
    ensures var c := ExtractCvcTrans(cs, comp);
            && (forall t :: t in c.vo && IsAppending(t) ==> t in comp && IsVowel(cs, t.rule.result))
            && (forall t :: t in c.lc && IsAppending(t) ==> t in comp && !IsVowel(cs, t.rule.result))
  {
    hide ExtractCvcAppendingTrans, IsVowel;
    var list := TargetLess(comp);
    TargetLessMembers(comp);
    CvcParts(cs, list);
    var c := ExtractCvcAppendingTrans(cs, list);
    AttachedMembers(comp, c.vo);
    AttachedMembers(comp, c.lc);
  }

  // ----- the last syllable -----

  lemma {:induction false} AnchorIsGreedy(env: Env, last: Composition, n: nat)
    requires n <= |last|
    ensures forall m :: Anchor(env, last, n) < m <= n ==> IsValid(env, last[Anchor(env, last, n)..m], false)
    ensures var a := Anchor(env, last, n);
            a > 0 ==> IsValid(env, last[Anchor(env, last, a)..a], false)
                      && !IsValid(env, last[Anchor(env, last, a)..a + 1], false)
  {
    hide IsValid;
    if n > 0 {
      AnchorIsGreedy(env, last, n - 1);
      SingleIsValid(env, last[n - 1..n]);
    }
  }

  lemma SingleIsValid(env: Env, comp: Composition)
    requires |comp| <= 1
    ensures IsValid(env, comp, false)
  {
  }

  // The last syllable: nothing is lost, it is valid together with all its prefixes, and it starts where it
  // does because the segment before it could not take its first entry.
  lemma LastSyllableIsForced(env: Env, comp: Composition)
    ensures var (previous, syllable) := ExtractLastSyllable(env, comp);
            && previous + syllable == comp
            && (forall m :: 0 <= m <= |syllable| ==> IsValid(env, syllable[..m], false))
    ensures var last := ExtractLastWord(env.cs, comp, []).1;
            var a := Anchor(env, last, |last|);
            && ExtractLastSyllable(env, comp).1 == last[a..]
            && (a > 0 ==> var b := Anchor(env, last, a);
                          b < a && IsValid(env, last[b..a], false) && !IsValid(env, last[b..a + 1], false))
  {
    hide IsValid, ExtractLastWord;
    var last := ExtractLastWord(env.cs, comp, []).1;
    var a := Anchor(env, last, |last|);
    AnchorIsGreedy(env, last, |last|);
    var syllable := last[a..];
    forall m | 0 <= m <= |syllable| ensures IsValid(env, syllable[..m], false) {
      if m == 0 {
        SingleIsValid(env, syllable[..0]);
      } else {
        assert syllable[..m] == last[a..a + m];
      }
    }
  }
}
