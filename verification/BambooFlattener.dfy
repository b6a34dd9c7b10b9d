/**
 Transformations and the fold that turns a list of them into text.

 The source links an effect to its letter by pointer.  Here every transformation
 carries an `id` (its identity) and an effect names its letter's id.
 */
module BambooFlattener {
  import opened Options
  import opened BambooChars

  datatype EffectType = Appending | MarkTransformation | ToneTransformation | Replacing

  datatype Rule = Rule(
    key: char,
    effect: Effect,
    effectType: EffectType,
    effectOn: char,
    result: char,
    appendedRules: seq<Rule>)

  datatype Trans = Trans(id: nat, rule: Rule, target: Option<nat>, isUpperCase: bool)

  type Composition = seq<Trans>

  // The mode bits the fold reads.
  datatype Mode = Mode(english: bool, toneLess: bool, markLess: bool, lowerCase: bool)
  const VIETNAMESE := Mode(false, false, false, false)
  const ENGLISH := Mode(true, false, false, false)
  const BASE_LETTERS := Mode(false, true, true, true)

  // ----- what is rendered, and what decorates it -----

  predicate IsAppending(t: Trans) {
    t.rule.effectType == Appending
  }

  predicate IsRendered(t: Trans, english: bool) {
    t.rule.key != NUL && (english || IsAppending(t))
  }

  function Letters(comp: Composition, english: bool): Composition
  {
    if comp == [] then []
    else
      var n := |comp| - 1;
      Letters(comp[..n], english) + (if IsRendered(comp[n], english) then [comp[n]] else [])
  }

  function EffectsOn(comp: Composition, id: nat): Composition
  {
    if comp == [] then []
    else
      var n := |comp| - 1;
      EffectsOn(comp[..n], id) + (if !IsAppending(comp[n]) && comp[n].target == Some(id) then [comp[n]] else [])
  }

  function ApplyEffect(cs: Charset, chr: char, key: char, t: Trans): char {
    match t.rule.effectType
    case MarkTransformation =>
      if t.rule.effect == MARK_RAW then key else AddMarkToChar(cs, chr, t.rule.effect)
    case ToneTransformation => AddToneToChar(cs, chr, t.rule.effect)
    case _ => chr
  }

  function Fold(cs: Charset, chr: char, key: char, effects: Composition): char
  {
    if effects == [] then chr
    else
      var n := |effects| - 1;
      ApplyEffect(cs, Fold(cs, chr, key, effects[..n]), key, effects[n])
  }

  function Finish(cs: Charset, chr: char, isUpperCase: bool, mode: Mode): char {
    var toned := if mode.toneLess then AddToneToChar(cs, chr, 0) else chr;
    var marked := if mode.markLess then AddMarkToChar(cs, toned, 0) else toned;
    if mode.lowerCase then cs.lower(marked)
    else if isUpperCase then cs.upper(marked)
    else marked
  }

  function Glyph(cs: Charset, comp: Composition, t: Trans, mode: Mode): char {
    Finish(cs,
           if mode.english then t.rule.key else Fold(cs, t.rule.effectOn, t.rule.key, EffectsOn(comp, t.id)),
           t.isUpperCase, mode)
  }

  function Glyphs(cs: Charset, comp: Composition, letters: Composition, mode: Mode): (r: string)
    ensures |r| == |letters|
    ensures forall i :: 0 <= i < |letters| ==> r[i] == Glyph(cs, comp, letters[i], mode)
  {
    seq(|letters|, i requires 0 <= i < |letters| => Glyph(cs, comp, letters[i], mode))
  }

  // The text of a composition.
  function Canvas(cs: Charset, comp: Composition, mode: Mode): string {
    Glyphs(cs, comp, Letters(comp, mode.english), mode)
  }

  // The first pass of the source: index the effects by their letter and list the letters.
  method IndexEffects(comp: Composition, english: bool)
    returns (appendingMap: map<nat, Composition>, appendingList: Composition)
    ensures appendingList == Letters(comp, english)
    ensures !english ==> forall id :: EffectsOn(comp, id) == if id in appendingMap then appendingMap[id] else []
  {
    appendingMap, appendingList := map[], [];
    for k := 0 to |comp|
      invariant appendingList == Letters(comp[..k], english)
      invariant !english ==> forall id :: EffectsOn(comp[..k], id) == if id in appendingMap then appendingMap[id]
                else []
    {
      var trans := comp[k];
      assert comp[..k + 1][..k] == comp[..k];
      if english {
        if trans.rule.key != NUL {
          appendingList := appendingList + [trans];
        }
      } else if trans.rule.effectType == Appending {
        if trans.rule.key != NUL {
          appendingList := appendingList + [trans];
        }
      } else if trans.target.Some? {
        var id := trans.target.value;
        appendingMap := appendingMap[id := (if id in appendingMap then appendingMap[id] else []) + [trans]];
      }
    }
    assert comp[..|comp|] == comp;
  }

  // The body of the second pass: one letter with its effects.
  method RenderLetter(cs: Charset, letter: Trans, transList: Composition, mode: Mode) returns (chr: char)
    ensures chr == Finish(cs,
                          if mode.english then letter.rule.key
                          else Fold(cs, letter.rule.effectOn, letter.rule.key, transList),
                          letter.isUpperCase, mode)
  {
    chr := letter.rule.key;
    if !mode.english {
      chr := letter.rule.effectOn;
      for j := 0 to |transList|
        invariant chr == Fold(cs, letter.rule.effectOn, letter.rule.key, transList[..j])
      {
        assert transList[..j + 1][..j] == transList[..j];
        chr := ApplyEffect(cs, chr, letter.rule.key, transList[j]);
      }
      assert transList[..|transList|] == transList;
    }
    if mode.toneLess {
      chr := AddToneToChar(cs, chr, 0);
    }
    if mode.markLess {
      chr := AddMarkToChar(cs, chr, 0);
    }
    if mode.lowerCase {
      chr := cs.lower(chr);
    } else if letter.isUpperCase {
      chr := cs.upper(chr);
    }
  }

  method Flatten(cs: Charset, comp: Composition, mode: Mode) returns (canvas: string)
    ensures canvas == Canvas(cs, comp, mode)
  {
    var appendingMap, appendingList := IndexEffects(comp, mode.english);
    canvas := RenderAll(cs, comp, appendingMap, appendingList, mode);
  }

  // The second pass.
  method RenderAll(cs: Charset, comp: Composition, appendingMap: map<nat, Composition>, appendingList: Composition,
                   mode: Mode)
    returns (canvas: string)
    requires !mode.english ==> forall id :: EffectsOn(comp, id) == if id in appendingMap then appendingMap[id] else []
    ensures canvas == Glyphs(cs, comp, appendingList, mode)
  {
    hide Finish, Fold, EffectsOn, Letters;
    canvas := "";
    for k := 0 to |appendingList|
      invariant canvas == Glyphs(cs, comp, appendingList, mode)[..k]
    {
      var letter := appendingList[k];
      var transList := if letter.id in appendingMap then appendingMap[letter.id] else [];
      var chr := RenderLetter(cs, letter, transList, mode);
      canvas := canvas + [chr];
    }
  }

  // ----- structure of the fold -----

  lemma {:induction false} LettersConcat(a: Composition, b: Composition, english: bool)
    ensures Letters(a + b, english) == Letters(a, english) + Letters(b, english)
  {
    if b == [] {
      assert a + b == a;
    } else {
      var n := |b| - 1;
      assert (a + b)[..|a + b| - 1] == a + b[..n];
      LettersConcat(a, b[..n], english);
    }
  }

  lemma {:induction false} EffectsConcat(a: Composition, b: Composition, id: nat)
    ensures EffectsOn(a + b, id) == EffectsOn(a, id) + EffectsOn(b, id)
  {
    if b == [] {
      assert a + b == a;
    } else {
      var n := |b| - 1;
      assert (a + b)[..|a + b| - 1] == a + b[..n];
      EffectsConcat(a, b[..n], id);
    }
  }

  lemma {:induction false} LettersAreMembers(comp: Composition, english: bool)
    ensures forall t :: t in Letters(comp, english) <==> t in comp && IsRendered(t, english)
  {
    if comp != [] {
      var n := |comp| - 1;
      LettersAreMembers(comp[..n], english);
      assert comp == comp[..n] + [comp[n]];
    }
  }

  lemma {:induction false} EffectsAreMembers(comp: Composition, id: nat)
    ensures forall t :: t in EffectsOn(comp, id) <==> t in comp && !IsAppending(t) && t.target == Some(id)
  {
    if comp != [] {
      var n := |comp| - 1;
      EffectsAreMembers(comp[..n], id);
      assert comp == comp[..n] + [comp[n]];
    }
  }

  ghost predicate Targets(comp: Composition, id: nat) {
    exists t :: t in comp && !IsAppending(t) && t.target == Some(id)
  }

  lemma NoTargetsNoEffects(comp: Composition, id: nat)
    requires !Targets(comp, id)
    ensures EffectsOn(comp, id) == []
  {
    EffectsAreMembers(comp, id);
    if EffectsOn(comp, id) != [] {
      assert EffectsOn(comp, id)[0] in EffectsOn(comp, id);
    }
  }

  // Nothing in `a` decorates a letter of `b`, nor the other way round.
  ghost predicate Apart(a: Composition, b: Composition) {
    && (forall t :: t in Letters(b, false) ==> !Targets(a, t.id))
    && (forall t :: t in Letters(a, false) ==> !Targets(b, t.id))
  }

  lemma CanvasConcat(cs: Charset, a: Composition, b: Composition, mode: Mode)
    requires mode.english || Apart(a, b)
    ensures Canvas(cs, a + b, mode) == Canvas(cs, a, mode) + Canvas(cs, b, mode)
  {
    LettersConcat(a, b, mode.english);
    forall t | t in Letters(a, mode.english) ensures Glyph(cs, a + b, t, mode) == Glyph(cs, a, t, mode) {
      GlyphConcat(cs, a, b, t, mode);
    }
    forall t | t in Letters(b, mode.english) ensures Glyph(cs, a + b, t, mode) == Glyph(cs, b, t, mode) {
      GlyphConcat(cs, a, b, t, mode);
    }
  }

  lemma GlyphConcat(cs: Charset, a: Composition, b: Composition, t: Trans, mode: Mode)
    ensures mode.english || !Targets(b, t.id) ==> Glyph(cs, a + b, t, mode) == Glyph(cs, a, t, mode)
    ensures mode.english || !Targets(a, t.id) ==> Glyph(cs, a + b, t, mode) == Glyph(cs, b, t, mode)
  {
    EffectsConcat(a, b, t.id);
    if !Targets(b, t.id) {
      NoTargetsNoEffects(b, t.id);
      assert EffectsOn(a + b, t.id) == EffectsOn(a, t.id);
    }
    if !Targets(a, t.id) {
      NoTargetsNoEffects(a, t.id);
      assert EffectsOn(a + b, t.id) == EffectsOn(b, t.id);
    }
  }

  // A candidate effect that changes the text decorates a rendered letter of the composition.
  lemma EffectThatShows(cs: Charset, comp: Composition, t: Trans, mode: Mode)
    requires !mode.english && !IsAppending(t)
    requires Canvas(cs, comp + [t], mode) != Canvas(cs, comp, mode)
    ensures t.target.Some?
    ensures exists x :: x in comp && IsRendered(x, false) && Some(x.id) == t.target
  {
    hide Canvas, IsRendered;
    if forall x :: x in comp && IsRendered(x, false) ==> Some(x.id) != t.target {
      LettersAreMembers(comp, false);
      EffectAlone(cs, t, mode);
      CanvasConcat(cs, comp, [t], mode);
    }
  }

  lemma EffectAlone(cs: Charset, t: Trans, mode: Mode)
    requires !mode.english && !IsAppending(t)
    ensures Letters([t], false) == [] && Canvas(cs, [t], mode) == []
  {
    assert [t][..0] == [];
  }

  // ----- the two-register normal form -----

  ghost predicate NoRaw(effects: Composition) {
    forall t :: t in effects && t.rule.effectType == MarkTransformation ==> t.rule.effect != MARK_RAW
  }

  function LastTone(effects: Composition, tone: Effect): Effect
  {
    if effects == [] then tone
    else
      var n := |effects| - 1;
      if effects[n].rule.effectType == ToneTransformation then effects[n].rule.effect
      else LastTone(effects[..n], tone)
  }

  predicate HasSlot(cs: Charset, c: char, mark: Effect) {
    mark < 5 && c in cs.marks && cs.marks[c][mark] != '_'
  }

  // The last mark whose slot exists in the family of the toneless letter `c`.
  function LastMark(cs: Charset, effects: Composition, c: char): Option<Effect>
  {
    if effects == [] then None
    else
      var n := |effects| - 1;
      if effects[n].rule.effectType == MarkTransformation && HasSlot(cs, c, effects[n].rule.effect)
      then Some(effects[n].rule.effect)
      else LastMark(cs, effects[..n], c)
  }

  function MarkRegister(cs: Charset, chr: char, effects: Composition): char {
    var c := Toneless(cs, chr);
    match LastMark(cs, effects, c)
    case None => c
    case Some(m) => if m < 5 then AddMarkToTonelessChar(cs, c, m) else c
  }

  // Whatever the interleaving, only the last effective mark and the last tone count.
  lemma {:induction false} FoldNormalForm(cs: Charset, chr: char, key: char, effects: Composition)
    requires NoRaw(effects)
    ensures Fold(cs, chr, key, effects)
         == AddToneToChar(cs, MarkRegister(cs, chr, effects), LastTone(effects, FindToneFromChar(cs, chr)))
    ensures Toneless(cs, Fold(cs, chr, key, effects)) == MarkRegister(cs, chr, effects)
  {
    hide CharsetData.Good;
    var c := Toneless(cs, chr);
    var t0 := FindToneFromChar(cs, chr);
    TonelessIsToneless(cs, chr);
    MarkRegisterIsToneless(cs, chr, effects);
    if effects == [] {
      ToneOverwrites(cs, chr, 0, t0);
      KeepsOwnTone(cs, chr);
    } else {
      var n := |effects| - 1;
      var e := effects[n];
      assert e in effects;
      FoldNormalForm(cs, chr, key, effects[..n]);
      MarkRegisterIsToneless(cs, chr, effects[..n]);
      var before := Fold(cs, chr, key, effects[..n]);
      var reg := MarkRegister(cs, chr, effects[..n]);
      match e.rule.effectType
      case MarkTransformation =>
        MarkAndToneCommute(cs, reg, e.rule.effect, LastTone(effects[..n], t0));
        MarkOnRegister(cs, chr, effects);
        assert AddMarkToChar(cs, reg, e.rule.effect) == MarkRegister(cs, chr, effects);
        ToneOverwrites(cs, MarkRegister(cs, chr, effects), LastTone(effects, t0), 0);
      case ToneTransformation =>
        ToneOverwrites(cs, reg, LastTone(effects[..n], t0), e.rule.effect);
        ToneOverwrites(cs, reg, e.rule.effect, 0);
      case _ =>
    }
  }

  lemma {:induction false} MarkRegisterIsToneless(cs: Charset, chr: char, effects: Composition)
    ensures var r := MarkRegister(cs, chr, effects); Toneless(cs, r) == r && FindToneFromChar(cs, r) == TONE_NONE
  {
    TonelessIsToneless(cs, chr);
    match LastMark(cs, effects, Toneless(cs, chr))
    case None =>
    case Some(m) =>
      if m < 5 {
        MarkStaysInFamily(cs, Toneless(cs, chr), m);
        TonelessIsToneless(cs, AddMarkToTonelessChar(cs, Toneless(cs, chr), m));
      }
  }

  // One more mark on the register.
  lemma MarkOnRegister(cs: Charset, chr: char, effects: Composition)
    requires effects != [] && effects[|effects| - 1].rule.effectType == MarkTransformation
    requires effects[|effects| - 1].rule.effect < 5
    ensures AddMarkToChar(cs, MarkRegister(cs, chr, effects[..|effects| - 1]), effects[|effects| - 1].rule.effect)
         == MarkRegister(cs, chr, effects)
  {
    var n := |effects| - 1;
    var m := effects[n].rule.effect;
    var c := Toneless(cs, chr);
    var reg := MarkRegister(cs, chr, effects[..n]);
    TonelessIsToneless(cs, chr);
    MarkRegisterIsToneless(cs, chr, effects[..n]);
    MarkRegisterIsToneless(cs, chr, effects);
    match LastMark(cs, effects[..n], c) {
      case None =>
      case Some(p) =>
        if p < 5 {
          MarkOverwrites(cs, c, p, m);
        }
    }
    assert AddMarkToTonelessChar(cs, reg, m) == MarkRegister(cs, chr, effects);
  }

  // ----- the base letter -----

  function BaseLetter(cs: Charset, c: char): char {
    cs.lower(Base(cs, c))
  }

  lemma EffectBase(cs: Charset, chr: char, key: char, t: Trans)
    ensures Base(cs, ApplyEffect(cs, chr, key, t))
         == if t.rule.effectType == MarkTransformation && t.rule.effect == MARK_RAW then Base(cs, key)
           else Base(cs, chr)
  {
    BaseIsStable(cs, chr, t.rule.effect, t.rule.effect);
  }

  // Stripped of tone and mark, a letter is its own base, or its key's base after MarkRaw.
  lemma {:induction false} FoldBase(cs: Charset, chr: char, key: char, effects: Composition)
    ensures NoRaw(effects) ==> Base(cs, Fold(cs, chr, key, effects)) == Base(cs, chr)
    ensures var b := Base(cs, Fold(cs, chr, key, effects)); b == Base(cs, chr) || b == Base(cs, key)
  {
    if effects != [] {
      var n := |effects| - 1;
      assert effects[n] in effects;
      FoldBase(cs, chr, key, effects[..n]);
      EffectBase(cs, Fold(cs, chr, key, effects[..n]), key, effects[n]);
    }
  }

  lemma GlyphBase(cs: Charset, comp: Composition, t: Trans)
    ensures NoRaw(comp) ==> Glyph(cs, comp, t, BASE_LETTERS) == BaseLetter(cs, t.rule.effectOn)
    ensures var g := Glyph(cs, comp, t, BASE_LETTERS);
            g == BaseLetter(cs, t.rule.effectOn) || g == BaseLetter(cs, t.rule.key)
  {
    EffectsAreMembers(comp, t.id);
    FoldBase(cs, t.rule.effectOn, t.rule.key, EffectsOn(comp, t.id));
  }

  // The base letters of a composition, read off its letters alone.
  function BaseText(cs: Charset, letters: Composition): (r: string)
    ensures |r| == |letters|
    ensures forall i :: 0 <= i < |letters| ==> r[i] == BaseLetter(cs, letters[i].rule.effectOn)
  {
    seq(|letters|, i requires 0 <= i < |letters| => BaseLetter(cs, letters[i].rule.effectOn))
  }

  lemma CanvasOfBaseLetters(cs: Charset, comp: Composition)
    requires NoRaw(comp)
    ensures Canvas(cs, comp, BASE_LETTERS) == BaseText(cs, Letters(comp, false))
  {
    var ls := Letters(comp, false);
    forall i | 0 <= i < |ls| ensures Glyph(cs, comp, ls[i], BASE_LETTERS) == BaseLetter(cs, ls[i].rule.effectOn) {
      GlyphBase(cs, comp, ls[i]);
    }
  }
}
