/**
 The identity and the case of an effect play no part in whether a syllable is valid.
 */
module BambooCase {
  import opened Options
  import opened BambooChars
  import opened BambooSpelling
  import opened BambooFlattener
  import opened BambooUtils
  import opened BambooShape
  import opened BambooPlacement

  // The same letters, and effects that differ in identity and case at most.
  ghost predicate Alike(a: Composition, b: Composition) {
    && |a| == |b|
    && forall i :: 0 <= i < |a| ==> AlikeEntry(a[i], b[i])
  }

  predicate AlikeEntry(t: Trans, u: Trans) {
    t == u || (t.rule == u.rule && t.target == u.target && !IsAppending(t))
  }

  lemma AlikeConcat(a: Composition, b: Composition, x: Composition, y: Composition)
    requires Alike(a, b) && Alike(x, y)
    ensures Alike(a + x, b + y)
  {
  }

  lemma Itself(a: Composition)
    ensures Alike(a, a)
  {
  }

  lemma AlikeFront(a: Composition, b: Composition)
    requires Alike(a, b) && a != []
    ensures Alike(a[..|a| - 1], b[..|b| - 1]) && AlikeEntry(a[|a| - 1], b[|b| - 1])
  {
  }

  lemma {:induction false} AlikeTargeted(a: Composition, b: Composition, id: nat)
    requires Alike(a, b)
    ensures Alike(TargetedAt(a, id), TargetedAt(b, id))
  {
    if a != [] {
      var n := |a| - 1;
      AlikeFront(a, b);
      AlikeTargeted(a[..n], b[..n], id);
    }
  }

  lemma {:induction false} AlikeAttached(a: Composition, b: Composition, letters: Composition)
    requires Alike(a, b)
    ensures Alike(Attached(a, letters), Attached(b, letters))
  {
    hide TargetedAt, Alike;
    if letters == [] {
      Itself([]);
    } else {
      var n := |letters| - 1;
      AlikeAttached(a, b, letters[..n]);
      AlikeTargeted(a, b, letters[n].id);
      AlikeConcat(Attached(a, letters[..n]), Attached(b, letters[..n]), TargetedAt(a, letters[n].id),
                  TargetedAt(b, letters[n].id));
    }
  }

  lemma {:induction false} AlikeLetters(a: Composition, b: Composition, english: bool)
    requires Alike(a, b)
    ensures Alike(Letters(a, english), Letters(b, english))
    ensures !english ==> Letters(a, english) == Letters(b, english)
  {
    if a != [] {
      var n := |a| - 1;
      AlikeFront(a, b);
      AlikeLetters(a[..n], b[..n], english);
    }
  }

  lemma {:induction false} AlikeEffects(a: Composition, b: Composition, id: nat)
    requires Alike(a, b)
    ensures Alike(EffectsOn(a, id), EffectsOn(b, id))
  {
    if a != [] {
      var n := |a| - 1;
      AlikeFront(a, b);
      AlikeEffects(a[..n], b[..n], id);
    }
  }

  lemma {:induction false} AlikeFold(cs: Charset, chr: char, key: char, a: Composition, b: Composition)
    requires Alike(a, b)
    ensures Fold(cs, chr, key, a) == Fold(cs, chr, key, b)
  {
    hide CharsetData.Good;
    if a != [] {
      var n := |a| - 1;
      AlikeFront(a, b);
      AlikeFold(cs, chr, key, a[..n], b[..n]);
    }
  }

  // In lower case they read the same.
  lemma AlikeText(cs: Charset, a: Composition, b: Composition, mode: Mode)
    requires Alike(a, b) && mode.lowerCase
    ensures Canvas(cs, a, mode) == Canvas(cs, b, mode)
  {
    hide CharsetData.Good, Fold, Letters, EffectsOn;
    AlikeLetters(a, b, mode.english);
    var x, y := Letters(a, mode.english), Letters(b, mode.english);
    forall i | 0 <= i < |x| ensures Glyph(cs, a, x[i], mode) == Glyph(cs, b, y[i], mode) {
      assert AlikeEntry(x[i], y[i]);
      if !mode.english {
        AlikeEffects(a, b, x[i].id);
        AlikeFold(cs, x[i].rule.effectOn, x[i].rule.key, EffectsOn(a, x[i].id), EffectsOn(b, x[i].id));
      }
    }
  }

  lemma {:induction false} AlikeTone(a: Composition, b: Composition)
    requires Alike(a, b)
    ensures LastToneEffect(a) == LastToneEffect(b)
  {
    if a != [] {
      AlikeFront(a, b);
      AlikeTone(a[..|a| - 1], b[..|b| - 1]);
    }
  }

  lemma AlikeParts(cs: Charset, a: Composition, b: Composition)
    requires Alike(a, b) && TargetLess(a) == TargetLess(b)
    ensures var x, y := ExtractCvcTrans(cs, a), ExtractCvcTrans(cs, b);
            Alike(x.fc, y.fc) && Alike(x.vo, y.vo) && Alike(x.lc, y.lc)
  {
    hide CharsetData.Good, Alike, Attached, TargetLess, ExtractCvcAppendingTrans;
    var c := ExtractCvcAppendingTrans(cs, TargetLess(a));
    AlikePart(a, b, c.fc);
    AlikePart(a, b, c.vo);
    AlikePart(a, b, c.lc);
  }

  lemma AlikePart(a: Composition, b: Composition, part: Composition)
    requires Alike(a, b)
    ensures Alike(part + Attached(a, part), part + Attached(b, part))
  {
    hide Alike, Attached;
    Itself(part);
    AlikeAttached(a, b, part);
    AlikeConcat(part, part, Attached(a, part), Attached(b, part));
  }

  lemma AlikeValid(env: Env, a: Composition, b: Composition, full: bool)
    requires Alike(a, b) && TargetLess(a) == TargetLess(b)
    ensures IsValid(env, a, full) <==> IsValid(env, b, full)
  {
    hide CharsetData.Good, Alike, TargetLess, ExtractCvcTrans, IsValidCVC, LastToneEffect, Canvas;
    AlikeTone(a, b);
    AlikeParts(env.cs, a, b);
    AlikeLength(a, b);
    var x, y := ExtractCvcTrans(env.cs, a), ExtractCvcTrans(env.cs, b);
    AlikeLength(x.lc, y.lc);
    AlikeText(env.cs, x.lc, y.lc, ENGLISH_LOWER);
    AlikeText(env.cs, x.fc, y.fc, TONELESS_LOWER);
    AlikeText(env.cs, x.vo, y.vo, TONELESS_LOWER);
    AlikeText(env.cs, x.lc, y.lc, TONELESS_LOWER);
  }

  lemma AlikeLength(a: Composition, b: Composition)
    requires Alike(a, b)
    ensures |a| == |b| && (a == [] <==> b == [])
  {
  }

  // One more effect, whoever it is.
  lemma SameEffectSameValidity(env: Env, comp: Composition, t: Trans, u: Trans, full: bool)
    requires t.rule == u.rule && t.target == u.target && t.target.Some? && !IsAppending(t)
    ensures IsValid(env, comp + [t], full) <==> IsValid(env, comp + [u], full)
  {
    hide CharsetData.Good, TargetLess, IsValid;
    TargetLessConcat(comp, [t]);
    TargetLessConcat(comp, [u]);
    TargetedAreNoLetters([t]);
    TargetedAreNoLetters([u]);
    AlikeValid(env, comp + [t], comp + [u], full);
  }
}
