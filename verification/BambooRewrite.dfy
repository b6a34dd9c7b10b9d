/**
 The ươ + o -> uô rewrite takes the first of the rightmost vowels without asking
 whether there is one.  There always is.
 */
module BambooRewrite {
  import opened Options
  import opened BambooChars
  import opened BambooSpelling
  import opened BambooFlattener
  import opened BambooUtils
  import opened BambooShape
  import opened BambooGenerators
  import opened BambooBackspace

  // The tables are lower-case and know the letters the rewrite looks for.
  ghost predicate LowerTables(cs: Charset) {
    && (forall c :: c in cs.vowels || c in cs.marks ==> cs.lower(c) == c)
    && IsVowel(cs, 'ư') && IsVowel(cs, 'o') && IsVowel(cs, 'ơ')
  }

  // Effects turn a consonant into itself or a letter of the mark table, never into a vowel.
  lemma {:induction false} FoldOfConsonant(cs: Charset, chr: char, key: char, effects: Composition)
    requires NoRaw(effects) && chr !in cs.vowels
    ensures var f := Fold(cs, chr, key, effects); f !in cs.vowels && (f == chr || f in cs.marks)
  {
    if effects != [] {
      var n := |effects| - 1;
      assert effects[n] in effects;
      FoldOfConsonant(cs, chr, key, effects[..n]);
      ConsonantStep(cs, Fold(cs, chr, key, effects[..n]), key, effects[n]);
    }
  }

  lemma ConsonantStep(cs: Charset, f: char, key: char, t: Trans)
    requires f !in cs.vowels && !(t.rule.effectType == MarkTransformation && t.rule.effect == MARK_RAW)
    ensures var g := ApplyEffect(cs, f, key, t); g !in cs.vowels && (g == f || g in cs.marks)
  {
    ToneOverwrites(cs, f, t.rule.effect, 0);
    if t.rule.effect < 5 {
      MarkStaysInFamily(cs, f, t.rule.effect);
      ToneOverwrites(cs, AddMarkToTonelessChar(cs, f, t.rule.effect), 0, 0);
      ToneOverwrites(cs, AddMarkToTonelessChar(cs, f, t.rule.effect), FindToneFromChar(cs, f), 0);
    }
  }

  // A letter shown as a vowel is a vowel.
  lemma ShownVowel(cs: Charset, comp: Composition, t: Trans)
    requires LowerTables(cs) && NoRaw(comp) && t.rule.effectOn == t.rule.result
             && cs.lower(t.rule.effectOn) == t.rule.effectOn
    requires IsVowel(cs, Glyph(cs, comp, t, TONELESS_LOWER))
    ensures IsVowel(cs, t.rule.result)
  {
    if !IsVowel(cs, t.rule.effectOn) {
      EffectsAreMembers(comp, t.id);
      FoldOfConsonant(cs, t.rule.effectOn, t.rule.key, EffectsOn(comp, t.id));
      ToneOverwrites(cs, Fold(cs, t.rule.effectOn, t.rule.key, EffectsOn(comp, t.id)), 0, 0);
    }
  }

  // Two vowels: one of them is left in the vowel part, even next to 'g' or 'q'.
  lemma TwoVowels(cs: Charset, list: Composition, a: Trans, b: Trans)
    requires a in list && b in list && a != b && IsVowel(cs, a.rule.result) && IsVowel(cs, b.rule.result)
    requires forall t :: t in list ==> t.target.None?
    ensures ExtractCvcAppendingTrans(cs, list).vo != []
  {
    hide IsVowel, ExtractAtomicTrans, CharsetData.Good;
    var (head, lastConsonant) := ExtractAtomicTrans(cs, list, [], false);
    var (fc, vowel) := ExtractAtomicTrans(cs, head, [], true);
    assert head == fc + vowel by { assert head + [] == head; }
    assert vowel == [] ==> fc == head;
    assert |fc| == 1 && |vowel| == 1 ==> head == [fc[0], vowel[0]];
    AtomicRun(cs, list, [], false);
    AtomicRun(cs, head, [], true);
    VowelsAreInHead(cs, list, head, a);
    VowelsAreInHead(cs, list, head, b);
    assert head[|head| - 1] in list;
  }

  lemma VowelsAreInHead(cs: Charset, list: Composition, head: Composition, t: Trans)
    requires t in list && t.target.None? && IsVowel(cs, t.rule.result)
    requires |head| <= |list| && head == list[..|head|]
    requires forall i :: |head| <= i < |list| ==> !StopsRun(cs, list[i], false)
    ensures t in head
  {
    var i :| 0 <= i < |list| && list[i] == t;
    assert i < |head|;
    assert head[i] == t;
  }

  // Whenever the rewrite is tried, there is a vowel to drop the horn of.
  lemma RewriteHasVowels(cs: Charset, keys: seq<char>, comp: Composition, nid: nat)
    requires LowerTables(cs) && WellFormed(cs, keys, comp, nid) && NoRaw(comp)
    requires HasUhO(Canvas(cs, comp, TONELESS_LOWER))
    ensures FilterAppending(ExtractCvcTrans(cs, comp).vo) != []
  {
    hide Glyph, EntryOk, IsPlain, ExtractCvcAppendingTrans, ExtractCvcTrans, IsVowel;
    var ls := Letters(comp, false);
    var text := Canvas(cs, comp, TONELESS_LOWER);
    var i: nat :| i < |text| && (PairAt(text, i, 'ư', 'o') || PairAt(text, i, 'ư', 'ơ'));
    LettersAreMembers(comp, false);
    LettersDistinct(comp, nid);
    var a, b := ls[i], ls[i + 1];
    assert a in ls && b in ls;
    assert a.id != b.id;
    LetterFace(cs, keys, a);
    LetterFace(cs, keys, b);
    ShownVowel(cs, comp, a);
    ShownVowel(cs, comp, b);
    EntryHasNone(cs, keys, a);
    EntryHasNone(cs, keys, b);
    TargetLessMembers(comp);
    TwoVowels(cs, TargetLess(comp), a, b);
    FirstIsKept(cs, keys, comp, nid);
  }

  lemma LetterFace(cs: Charset, keys: seq<char>, t: Trans)
    requires IsAppending(t) && EntryOk(cs, keys, t)
    ensures t.rule.effectOn == t.rule.result && cs.lower(t.rule.effectOn) == t.rule.effectOn
  {
  }

  lemma EntryHasNone(cs: Charset, keys: seq<char>, t: Trans)
    requires IsAppending(t) && EntryOk(cs, keys, t)
    ensures t.target.None?
  {
  }

  lemma FirstIsKept(cs: Charset, keys: seq<char>, comp: Composition, nid: nat)
    requires WellFormed(cs, keys, comp, nid)
    requires ExtractCvcAppendingTrans(cs, TargetLess(comp)).vo != []
    ensures FilterAppending(ExtractCvcTrans(cs, comp).vo) != []
  {
    hide ExtractCvcAppendingTrans, IsPlain, BaseLetter;
    TargetLessMembers(comp);
    var list := TargetLess(comp);
    CvcParts(cs, list);
    var vo := ExtractCvcAppendingTrans(cs, list).vo;
    assert vo[0] in vo;
    assert EntryOk(cs, keys, vo[0]);
    var all := ExtractCvcTrans(cs, comp).vo;
    assert all[0] == vo[0] && all[0] in all;
    FilterAppendingMembers(all);
  }
}
