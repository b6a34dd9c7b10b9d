/**
 Where the tone of a syllable sits: the split into consonants and vowels by position, the vowel that carries the
 tone as a law on the vowels, and the text after a refresh.
 */
module BambooPlacement {
  import opened Options
  import opened BambooChars
  import opened BambooSpelling
  import opened BambooFlattener
  import opened BambooUtils
  import opened BambooKeys
  import opened BambooShape
  import opened BambooGenerators
  import opened BambooSteps
  import opened BambooBackspace
  import opened BambooQu

  // ----- the split, by position -----

  predicate YieldsVowel(cs: Charset, t: Trans) {
    IsVowel(cs, t.rule.result)
  }

  // list[a..b] is the last run of vowels; without a vowel both are 0.
  predicate IsVowelRun(cs: Charset, list: Composition, a: nat, b: nat) {
    && a <= b <= |list|
    && (forall i :: a <= i < b ==> YieldsVowel(cs, list[i]))
    && (forall i :: b <= i < |list| ==> !YieldsVowel(cs, list[i]))
    && (a > 0 ==> !YieldsVowel(cs, list[a - 1]))
    && (b > 0 ==> a < b)
  }

  // The run follows a single g and starts with i, which is not its last vowel nor that of 'gie' before a
  // consonant; or it follows a single q and starts with u.
  predicate IsGiOrQu(list: Composition, a: nat, b: nat)
    requires a < b <= |list|
  {
    && a == 1
    && ((list[0].rule.result == 'g' && list[1].rule.result == 'i' && b > 2
         && (list[2].rule.result != 'e' || b == |list|))
        || (list[0].rule.result == 'q' && list[1].rule.result == 'u'))
  }

  lemma VowelRunExists(cs: Charset, list: Composition) returns (a: nat, b: nat)
    requires forall t :: t in list ==> t.target.None?
    ensures IsVowelRun(cs, list, a, b)
  {
    hide ExtractAtomicTrans, IsVowel, CharsetData.Good;
    var head, first := ExtractAtomicTrans(cs, list, [], false).0, [];
    AtomicRun(cs, list, [], false);
    first := ExtractAtomicTrans(cs, head, [], true).0;
    AtomicRun(cs, head, [], true);
    a, b := |first|, |head|;
    assert forall i :: 0 <= i < |list| ==> list[i] in list;
    assert head == list[..b] && first == head[..a];
    assert forall i :: 0 <= i < b ==> head[i] == list[i];
    if b > 0 {
      assert StopsRun(cs, head[b - 1], false);
    }
    if a > 0 {
      assert StopsRun(cs, first[a - 1], true) && first[a - 1] == list[a - 1];
    }
  }

  lemma CvcByPosition(cs: Charset, list: Composition) returns (a: nat, b: nat)
    requires forall t :: t in list ==> t.target.None?
    ensures IsVowelRun(cs, list, a, b)
    ensures var n := if b > 0 && IsGiOrQu(list, a, b) then a + 1 else a;
            ExtractCvcAppendingTrans(cs, list)
            == if b == 0 then Cvc(list, [], [], true) else Cvc(list[..n], list[n..b], list[b..], false)
  {
    hide ExtractAtomicTrans, IsVowel, IsQualifiedConsonant, CharsetData.Good, IsGiOrQu;
    a, b := VowelRunExists(cs, list);
    RunsAt(cs, list, a, b);
    if b > 0 {
      QualifiedIs(list, a, b);
      assert list[..a] + [list[a]] == list[..a + 1] && list[a..b][1..] == list[a + 1..b];
      assert list[a..b][0] == list[a];
    } else {
      assert list[0..] == list;
    }
  }

  // The two scans stop at these positions.
  lemma RunsAt(cs: Charset, list: Composition, a: nat, b: nat)
    requires IsVowelRun(cs, list, a, b) && forall t :: t in list ==> t.target.None?
    ensures ExtractAtomicTrans(cs, list, [], false) == (list[..b], list[b..])
    ensures ExtractAtomicTrans(cs, list[..b], [], true) == (list[..a], list[a..b])
  {
    hide ExtractAtomicTrans, IsVowel, CharsetData.Good;
    assert forall i :: 0 <= i < |list| ==> list[i] in list;
    assert list[..b] + list[b..] == list && list[..a] + list[a..b] == list[..b];
    assert list[b..] + [] == list[b..] && list[a..b] + [] == list[a..b];
    assert forall t :: t in list[b..] ==> !StopsRun(cs, t, false);
    assert forall t :: t in list[a..b] ==> !StopsRun(cs, t, true);
    AtomicIs(cs, list[..b], list[b..], [], false);
    AtomicIs(cs, list[..a], list[a..b], [], true);
  }

  lemma QualifiedIs(list: Composition, a: nat, b: nat)
    requires a < b <= |list|
    ensures IsQualifiedConsonant(list[..a], list[a..b], list[b..]) <==> IsGiOrQu(list, a, b)
  {
  }

  // ----- the seat of the tone -----

  predicate IsHorn(c: char) {
    c == 'ơ' || c == 'ê'
  }

  // The source's tables have both letters among the vowels.
  predicate HornsAreVowels(cs: Charset) {
    IsVowel(cs, 'ơ') && IsVowel(cs, 'ê')
  }

  // Some effect made an ơ or ê of the letter.
  ghost predicate BecameHorn(comp: Composition, l: Trans) {
    exists t :: t in comp && t.target == Some(l.id) && IsHorn(t.rule.result)
  }

  // The vowels of a syllable, and whether consonants follow them.
  function VowelsOf(cs: Charset, comp: Composition): Composition {
    ExtractCvcAppendingTrans(cs, TargetLess(comp)).vo
  }

  predicate IsClosed(cs: Charset, comp: Composition) {
    ExtractCvcAppendingTrans(cs, TargetLess(comp)).lc != []
  }

  // The keys of letters, without marks and case.
  function BaseKeys(cs: Charset, letters: Composition): string {
    Canvas(cs, letters, ENGLISH_BASE)
  }

  // The index of the vowel the tone sits on.  Of two: in the standard style one that became or is ơ or ê, else the
  // second if consonants follow and the first if not; in the other style also the second of oa, oe, uy, ue, uo.
  // Of three the second, but the last of uye.
  ghost function Seat(cs: Charset, comp: Composition, vowels: Composition, closed: bool, std: bool): (i: nat)
    requires 1 <= |vowels| <= 3
    ensures i < |vowels|
  {
    if |vowels| == 1 then 0
    else if |vowels| == 3 then
      if BaseKeys(cs, vowels) == "uye" then 2 else 1
    else if !std then
      if closed || BaseKeys(cs, vowels) in ["oa", "oe", "uy", "ue", "uo"] then 1 else 0
    else if BecameHorn(comp, vowels[1]) then 1
    else if BecameHorn(comp, vowels[0]) then 0
    else if IsHorn(vowels[1].rule.result) then 1
    else if IsHorn(vowels[0].rule.result) then 0
    else if closed then 1
    else 0
  }

  // The letter the tone of `comp` sits on, if there is one.
  ghost function SeatOf(cs: Charset, comp: Composition, std: bool): Option<nat> {
    var vowels := VowelsOf(cs, comp);
    if 1 <= |vowels| <= 3 then Some(vowels[Seat(cs, comp, vowels, IsClosed(cs, comp), std)].id) else None
  }

  lemma {:induction false} HornAmong(front: Composition, comp: Composition, l: Trans)
    ensures StdVowelTarget(front + TargetedAt(comp, l.id))
            == if BecameHorn(comp, l) then Some(l.id) else StdVowelTarget(front)
  {
    hide BecameHorn, StdVowelTarget, CharsetData.Good;
    if comp == [] {
      assert front + [] == front;
      assert !BecameHorn([], l) by { BecomesNothing(l); }
    } else {
      var n := |comp| - 1;
      HornAmong(front, comp[..n], l);
      BecomesLater(comp, l);
      var before := TargetedAt(comp[..n], l.id);
      if comp[n].target == Some(l.id) {
        assert front + (before + [comp[n]]) == front + before + [comp[n]];
        LastHorn(front + before, comp[n]);
      } else {
        assert TargetedAt(comp, l.id) == before + [] == before;
      }
    }
  }

  lemma BecomesNothing(l: Trans)
    ensures !BecameHorn([], l)
  {
  }

  lemma BecomesLater(comp: Composition, l: Trans)
    requires comp != []
    ensures var n := |comp| - 1;
            BecameHorn(comp, l)
            <==> (comp[n].target == Some(l.id) && IsHorn(comp[n].rule.result)) || BecameHorn(comp[..n], l)
  {
    var n := |comp| - 1;
    assert comp == comp[..n] + [comp[n]];
    assert comp[n] in comp && forall t :: t in comp[..n] ==> t in comp;
  }

  lemma LastHorn(front: Composition, t: Trans)
    ensures StdVowelTarget(front + [t])
            == if !IsHorn(t.rule.result) then StdVowelTarget(front)
               else if t.target.Some? then t.target else Some(t.id)
  {
    assert (front + [t])[..|front|] == front;
  }

  // The vowels are letters of the composition, without targets.
  lemma VowelsAreLetters(cs: Charset, keys: seq<char>, comp: Composition)
    requires forall t :: t in comp ==> EntryOk(cs, keys, t)
    ensures forall t :: t in VowelsOf(cs, comp) ==>
              t in comp && IsAppending(t) && t.target.None? && IsVowel(cs, t.rule.effectOn)
              && t.rule.effectOn == t.rule.result
  {
    hide CharsetData.Good, ExtractCvcAppendingTrans, IsPlain, BaseLetter;
    TargetLessMembers(comp);
    CvcParts(cs, TargetLess(comp));
    forall t | t in VowelsOf(cs, comp)
      ensures t in comp && IsAppending(t) && t.target.None? && IsVowel(cs, t.rule.effectOn)
              && t.rule.effectOn == t.rule.result
    {
      assert t in TargetLess(comp) && EntryOk(cs, keys, t);
    }
  }

  lemma PartsFollow(cs: Charset, comp: Composition)
    ensures var c, whole := ExtractCvcAppendingTrans(cs, TargetLess(comp)), ExtractCvcTrans(cs, comp);
            && whole.vo == c.vo + Attached(comp, c.vo) && whole.lc == c.lc + Attached(comp, c.lc)
            && (whole.lc != [] <==> c.lc != []) && whole.voIsNil == c.voIsNil
  {
  }

  lemma TwoAttached(comp: Composition, vowels: Composition)
    requires |vowels| == 2
    ensures vowels + Attached(comp, vowels) == vowels + TargetedAt(comp, vowels[0].id) + TargetedAt(comp, vowels[1].id)
  {
    assert vowels[..1] == [vowels[0]] && vowels[..1][..0] == [];
    assert Attached(comp, vowels[..1]) == [] + TargetedAt(comp, vowels[0].id);
  }

  lemma OwnHorn(vowels: Composition)
    requires |vowels| == 2 && vowels[0].target.None? && vowels[1].target.None?
    ensures StdVowelTarget(vowels) == if IsHorn(vowels[1].rule.result) then Some(vowels[1].id)
                                      else if IsHorn(vowels[0].rule.result) then Some(vowels[0].id) else None
  {
    assert vowels[..1][..0] == [] && vowels[..1][0] == vowels[0];
    assert vowels[..|vowels| - 1] == vowels[..1];
    assert StdVowelTarget(vowels[..1]) == if IsHorn(vowels[0].rule.result) then Some(vowels[0].id) else None;
  }

  lemma VowelPartLetters(cs: Charset, keys: seq<char>, comp: Composition)
    requires forall t :: t in comp ==> EntryOk(cs, keys, t)
    ensures FilterAppending(ExtractCvcTrans(cs, comp).vo) == VowelsOf(cs, comp)
  {
    hide CharsetData.Good, ExtractCvcAppendingTrans, ExtractCvcTrans, EntryOk, Attached;
    var vowels := VowelsOf(cs, comp);
    VowelsAreLetters(cs, keys, comp);
    PartsFollow(cs, comp);
    AttachedAreEffects(cs, keys, comp, vowels);
    FilterEffects(vowels, Attached(comp, vowels));
    FilterLetters(vowels);
  }

  // The last ơ or ê of the vowel part names the seat in the standard style.
  lemma StdSeat(cs: Charset, keys: seq<char>, comp: Composition)
    requires (forall t :: t in comp ==> EntryOk(cs, keys, t)) && |VowelsOf(cs, comp)| == 2
    ensures var v := VowelsOf(cs, comp);
            StdVowelTarget(ExtractCvcTrans(cs, comp).vo)
            == if BecameHorn(comp, v[1]) then Some(v[1].id)
               else if BecameHorn(comp, v[0]) then Some(v[0].id)
               else if IsHorn(v[1].rule.result) then Some(v[1].id)
               else if IsHorn(v[0].rule.result) then Some(v[0].id)
               else None
  {
    hide CharsetData.Good, ExtractCvcAppendingTrans, ExtractCvcTrans, EntryOk, Attached, StdVowelTarget, BecameHorn;
    var vowels := VowelsOf(cs, comp);
    VowelsAreLetters(cs, keys, comp);
    PartsFollow(cs, comp);
    assert vowels[0] in vowels && vowels[1] in vowels;
    TwoAttached(comp, vowels);
    HornAmong(vowels + TargetedAt(comp, vowels[0].id), comp, vowels[1]);
    HornAmong(vowels, comp, vowels[0]);
    OwnHorn(vowels);
  }

  // The search of the source finds the seat.
  lemma SeatIsFound(cs: Charset, keys: seq<char>, comp: Composition, std: bool)
    requires forall t :: t in comp ==> EntryOk(cs, keys, t)
    ensures FindToneTarget(cs, comp, std) == SeatOf(cs, comp, std)
  {
    hide CharsetData.Good, ExtractCvcAppendingTrans, ExtractCvcTrans, EntryOk, Attached, StdVowelTarget, Canvas,
         BecameHorn, FilterAppending;
    VowelPartLetters(cs, keys, comp);
    PartsFollow(cs, comp);
    if comp == [] {
      NothingSplits(cs);
    } else if |VowelsOf(cs, comp)| == 2 {
      StdSeat(cs, keys, comp);
    }
  }

  lemma NothingSplits(cs: Charset)
    ensures VowelsOf(cs, []) == []
  {
    var c := ExtractCvcAppendingTrans(cs, []);
    assert c.fc + c.vo + c.lc == [];
  }

  lemma AttachedAreEffects(cs: Charset, keys: seq<char>, comp: Composition, letters: Composition)
    requires forall t :: t in comp ==> EntryOk(cs, keys, t)
    ensures forall t :: t in Attached(comp, letters) ==> !IsAppending(t)
  {
    hide CharsetData.Good, IsPlain, BaseLetter;
    AttachedMembers(comp, letters);
    forall t | t in Attached(comp, letters) ensures !IsAppending(t) {
      assert t in comp && EntryOk(cs, keys, t);
    }
  }

  // ----- the seat, read off the text -----

  // A letter as the text shows it, before its case.
  function Face(cs: Charset, comp: Composition, l: Trans): char {
    Fold(cs, l.rule.effectOn, l.rule.key, EffectsOn(comp, l.id))
  }

  // ơ and ê are in the text exactly where some entry put them.
  ghost predicate HornsShow(cs: Charset, comp: Composition, l: Trans) {
    IsHorn(Toneless(cs, Face(cs, comp, l))) <==> BecameHorn(comp, l) || IsHorn(l.rule.result)
  }

  // In the standard style the tone of two vowels sits on the one that reads ơ or ê, else on the second if consonants
  // follow, else on the first.
  lemma StdSeatByText(cs: Charset, comp: Composition)
    requires |VowelsOf(cs, comp)| == 2
    requires var v := VowelsOf(cs, comp); HornsShow(cs, comp, v[0]) && HornsShow(cs, comp, v[1])
    ensures var v := VowelsOf(cs, comp);
            var x, y := Toneless(cs, Face(cs, comp, v[0])), Toneless(cs, Face(cs, comp, v[1]));
            !(IsHorn(x) && IsHorn(y)) ==>
              SeatOf(cs, comp, true)
              == Some(if IsHorn(x) then v[0].id else if IsHorn(y) || IsClosed(cs, comp) then v[1].id else v[0].id)
  {
    hide CharsetData.Good, VowelsOf, Face, BecameHorn;
  }

  // The keys of visible letters, one for each.
  lemma BaseKeysOf(cs: Charset, letters: Composition)
    requires NoVirtual(letters) && forall t :: t in letters ==> IsAppending(t)
    ensures |BaseKeys(cs, letters)| == |letters|
    ensures forall i :: 0 <= i < |letters| ==> BaseKeys(cs, letters)[i] == BaseLetter(cs, letters[i].rule.key)
  {
    assert forall i :: 0 <= i < |letters| ==> letters[i] in letters;
    EnglishLetters(letters);
  }

  lemma {:induction false} EnglishLetters(letters: Composition)
    requires forall i :: 0 <= i < |letters| ==> letters[i].rule.key != NUL
    ensures Letters(letters, true) == letters
  {
    hide IsAppending, CharsetData.Good;
    if letters != [] {
      var n := |letters| - 1;
      EnglishLetters(letters[..n]);
      assert letters == letters[..n] + [letters[n]];
    }
  }

  // ----- the tone in the text -----

  function Cased(cs: Charset, ch: char, isUpperCase: bool): char {
    if isUpperCase then cs.upper(ch) else ch
  }

  // The Vietnamese text shows the letter `id`, with this tone.
  ghost predicate ShowsTone(cs: Charset, comp: Composition, id: nat, tone: Effect) {
    var letters := Letters(comp, false);
    exists p: nat ::
      && p < |letters| && letters[p].id == id
      && Canvas(cs, comp, VIETNAMESE)[p] == Cased(cs, Face(cs, comp, letters[p]), letters[p].isUpperCase)
      && FindToneFromChar(cs, Face(cs, comp, letters[p])) == tone
  }

  // A visible vowel.
  predicate IsShownVowel(cs: Charset, comp: Composition, l: Trans) {
    l in comp && IsRendered(l, false) && IsVowel(cs, l.rule.effectOn)
  }

  lemma {:induction false} LastToneOn(comp: Composition, id: nat, tone: Effect)
    requires LastToneIndex(comp) > 0 && comp[LastToneIndex(comp) - 1].target == Some(id)
    ensures LastTone(EffectsOn(comp, id), tone) == comp[LastToneIndex(comp) - 1].rule.effect
  {
    hide LastTone, IsAppending;
    var n := |comp| - 1;
    var before := EffectsOn(comp[..n], id);
    OneMoreTone(before, comp[n], tone);
    if comp[n].rule.effectType == ToneTransformation && comp[n].target.Some? {
      ToneIsEffect(comp[n]);
    } else {
      LastToneOn(comp[..n], id, tone);
      assert before + [] == before;
    }
  }

  lemma ToneIsEffect(t: Trans)
    ensures t.rule.effectType == ToneTransformation ==> !IsAppending(t)
  {
  }

  lemma OneMoreTone(effects: Composition, t: Trans, tone: Effect)
    ensures LastTone(effects + [t], tone)
         == if t.rule.effectType == ToneTransformation then t.rule.effect else LastTone(effects, tone)
  {
    assert (effects + [t])[..|effects|] == effects;
  }

  // The last tone of a composition is the one its letter shows.
  lemma LastToneShows(cs: Charset, comp: Composition, l: Trans)
    requires NoRaw(comp) && IsShownVowel(cs, comp, l)
    requires LastToneIndex(comp) > 0 && comp[LastToneIndex(comp) - 1].target == Some(l.id)
    ensures ShowsTone(cs, comp, l.id, comp[LastToneIndex(comp) - 1].rule.effect)
  {
    hide CharsetData.Good, LastToneIndex, AddToneToChar, FindToneFromChar, MarkRegister, IsVowel;
    var effects := EffectsOn(comp, l.id);
    EffectsAreMembers(comp, l.id);
    FoldNormalForm(cs, l.rule.effectOn, l.rule.key, effects);
    var tone := comp[LastToneIndex(comp) - 1].rule.effect;
    LastToneOn(comp, l.id, FindToneFromChar(cs, l.rule.effectOn));
    RegisterIsVowel(cs, l.rule.effectOn, effects);
    ToneOverwrites(cs, MarkRegister(cs, l.rule.effectOn, effects), tone, 0);
    assert IsVowel(cs, MarkRegister(cs, l.rule.effectOn, effects));
    TonedVowel(cs, MarkRegister(cs, l.rule.effectOn, effects), tone);
    LettersAreMembers(comp, false);
    var p :| 0 <= p < |Letters(comp, false)| && Letters(comp, false)[p] == l;
    TextAt(cs, comp, p);
  }

  lemma TonedVowel(cs: Charset, c: char, tone: Effect)
    requires IsVowel(cs, c)
    ensures FindToneFromChar(cs, AddToneToChar(cs, c, tone)) == tone
  {
    ToneOverwrites(cs, c, tone, tone);
  }

  lemma RegisterIsVowel(cs: Charset, chr: char, effects: Composition)
    requires IsVowel(cs, chr)
    ensures IsVowel(cs, MarkRegister(cs, chr, effects))
  {
    TonelessIsToneless(cs, chr);
    match LastMark(cs, effects, Toneless(cs, chr))
    case None =>
    case Some(m) =>
      if m < 5 {
        MarkStaysInFamily(cs, Toneless(cs, chr), m);
      }
  }

  lemma TextAt(cs: Charset, comp: Composition, p: nat)
    requires p < |Letters(comp, false)|
    ensures var l := Letters(comp, false)[p];
            Canvas(cs, comp, VIETNAMESE)[p] == Cased(cs, Face(cs, comp, l), l.isUpperCase)
  {
    hide CharsetData.Good, Fold, EffectsOn, Letters;
  }

  // ----- the refresh -----

  // Entries with targets, and no new ơ or ê, leave the seat where it is.
  lemma SeatStays(cs: Charset, a: Composition, b: Composition, std: bool)
    requires TargetLess(a) == TargetLess(b)
    requires forall l :: l in VowelsOf(cs, a) ==> (BecameHorn(a, l) <==> BecameHorn(b, l))
    ensures SeatOf(cs, a, std) == SeatOf(cs, b, std)
  {
    hide CharsetData.Good, ExtractCvcAppendingTrans, TargetLess, BecameHorn, Canvas;
    var v := VowelsOf(cs, a);
    if |v| == 2 {
      assert v[0] in v && v[1] in v;
    }
  }

  lemma {:induction false} TargetLessConcat(a: Composition, b: Composition)
    ensures TargetLess(a + b) == TargetLess(a) + TargetLess(b)
  {
    if b == [] {
      assert a + b == a;
    } else {
      var n := |b| - 1;
      assert (a + b)[..|a + b| - 1] == a + b[..n];
      TargetLessConcat(a, b[..n]);
    }
  }

  lemma {:induction false} TargetedAreNoLetters(ts: Composition)
    requires forall t :: t in ts ==> t.target.Some?
    ensures TargetLess(ts) == []
  {
    if ts != [] {
      var n := |ts| - 1;
      assert ts[n] in ts && forall t :: t in ts[..n] ==> t in ts;
      TargetedAreNoLetters(ts[..n]);
    }
  }

  lemma RetargetedIsTargeted(comp: Composition, i: nat, target: Option<nat>)
    requires i < |comp| && comp[i].target.Some? && target.Some?
    ensures TargetLess(comp[i := comp[i].(target := target)]) == TargetLess(comp)
  {
    var x := comp[i].(target := target);
    assert comp == comp[..i] + [comp[i]] + comp[i + 1..];
    assert comp[i := x] == comp[..i] + [x] + comp[i + 1..];
    TargetLessConcat(comp[..i] + [comp[i]], comp[i + 1..]);
    TargetLessConcat(comp[..i] + [x], comp[i + 1..]);
    TargetLessConcat(comp[..i], [comp[i]]);
    TargetLessConcat(comp[..i], [x]);
    TargetedAreNoLetters([comp[i]]);
    TargetedAreNoLetters([x]);
  }

  // The last tone, moved to `id`, reset and set there.
  function Moved(comp: Composition, i: nat, id: nat, nid: nat): Composition
    requires i < |comp|
  {
    comp[i := comp[i].(target := Some(id))]
    + [Candidate(nid, UNDO_TONE, Some(id)), Candidate(nid + 1, comp[i].rule.(key := NUL), Some(id))]
  }

  lemma MovedTone(cs: Charset, keys: seq<char>, comp: Composition, i: nat, id: nat, nid: nat, std: bool)
    requires (forall t :: t in comp ==> EntryOk(cs, keys, t)) && HornsAreVowels(cs)
    requires i < |comp| && comp[i].target.Some? && comp[i].rule.effectType == ToneTransformation
    ensures var s := Moved(comp, i, id, nid);
            && SeatOf(cs, s, std) == SeatOf(cs, comp, std)
            && LastToneIndex(s) == |s| && s[|s| - 1].target == Some(id)
            && s[|s| - 1].rule.effect == comp[i].rule.effect
            && Letters(s, false) == Letters(comp, false)
            && (NoRaw(comp) ==> NoRaw(s))
  {
    hide CharsetData.Good, VowelsOf, IsPlain, BaseLetter, Letters, TargetLess;
    var s, x := Moved(comp, i, id, nid), comp[i].(target := Some(id));
    var extra := [Candidate(nid, UNDO_TONE, Some(id)), Candidate(nid + 1, comp[i].rule.(key := NUL), Some(id))];
    assert comp[i] in comp && EntryOk(cs, keys, comp[i]);
    RetargetedIsTargeted(comp, i, Some(id));
    TargetLessConcat(comp[i := x], extra);
    TargetedAreNoLetters(extra);
    assert TargetLess(comp) + [] == TargetLess(comp);
    forall l ensures BecameHorn(comp, l) <==> BecameHorn(s, l) {
      HornsStay(comp, i, x, extra, l);
    }
    VowelsOfTargetLess(cs, comp, s);
    SeatStays(cs, comp, s, std);
    LettersConcat(comp[i := x], extra, false);
    NoLettersHere(extra);
    RetargetingKeepsLetters(comp[i := x], comp);
    assert Letters(comp, false) + [] == Letters(comp, false);
    if NoRaw(comp) {
      forall t | t in s && t.rule.effectType == MarkTransformation ensures t.rule.effect != MARK_RAW {
        var k :| 0 <= k < |s| && s[k] == t;
        assert k < |comp| && k != i && comp[k] == t && t in comp;
      }
    }
  }

  lemma VowelsOfTargetLess(cs: Charset, a: Composition, b: Composition)
    requires TargetLess(a) == TargetLess(b)
    ensures VowelsOf(cs, a) == VowelsOf(cs, b)
  {
  }

  lemma NoLettersHere(ts: Composition)
    requires |ts| == 2 && !IsAppending(ts[0]) && !IsAppending(ts[1])
    ensures Letters(ts, false) == []
  {
    assert ts[..1][..0] == [] && ts[..|ts| - 1] == ts[..1];
    assert Letters(ts[..1], false) == [];
  }

  lemma HornsStay(comp: Composition, i: nat, x: Trans, extra: Composition, l: Trans)
    requires i < |comp| && !IsHorn(comp[i].rule.result) && x.rule == comp[i].rule
    requires forall t :: t in extra ==> !IsHorn(t.rule.result)
    ensures BecameHorn(comp, l) <==> BecameHorn(comp[i := x] + extra, l)
  {
    var s := comp[i := x] + extra;
    if BecameHorn(comp, l) {
      var t :| t in comp && t.target == Some(l.id) && IsHorn(t.rule.result);
      var k :| 0 <= k < |comp| && comp[k] == t;
      assert s[k] == t && t in s;
    }
    if BecameHorn(s, l) {
      var t :| t in s && t.target == Some(l.id) && IsHorn(t.rule.result);
      var k :| 0 <= k < |s| && s[k] == t;
      assert k < |comp| && k != i && comp[k] == t;
    }
  }

  // After a refresh the last tone sits on its seat, the text shows it there, and no letter is added.  A tone that
  // sits there already leaves everything as it was.
  lemma RefreshSeatsTone(c: Config, comp: Composition, nid: nat, l: Trans)
    requires (forall t :: t in comp ==> EntryOk(c.env.cs, c.im.keys, t)) && HornsAreVowels(c.env.cs) && NoRaw(comp)
    requires c.flags.free && IsValid(c.env, comp, false) && LastToneIndex(comp) > 0
    requires SeatOf(c.env.cs, comp, c.flags.std) == Some(l.id) && IsShownVowel(c.env.cs, comp, l)
    ensures var (refreshed, extra) := Refresh(c, comp, nid);
            var next, i := refreshed + extra, LastToneIndex(comp) - 1;
            && next == (if comp[i].target == Some(l.id) then comp else Moved(comp, i, l.id, nid))
            && SeatOf(c.env.cs, next, c.flags.std) == Some(l.id)
            && Letters(next, false) == Letters(comp, false)
            && ShowsTone(c.env.cs, next, l.id, comp[i].rule.effect)
  {
    hide CharsetData.Good, IsValid, EntryOk, ExtractCvcAppendingTrans, ExtractCvcTrans, Letters, ShowsTone, Moved,
         IsShownVowel, LastToneIndex;
    var cs, i := c.env.cs, LastToneIndex(comp) - 1;
    SeatIsFound(cs, c.im.keys, comp, c.flags.std);
    VowelsAreThere(cs, comp);
    if comp[i].target == Some(l.id) {
      assert comp + [] == comp;
      LastToneShows(cs, comp, l);
    } else {
      MovedTone(cs, c.im.keys, comp, i, l.id, nid, c.flags.std);
      MovedIs(cs, comp, i, l, nid);
      LastToneShows(cs, Moved(comp, i, l.id, nid), l);
    }
  }

  lemma VowelsAreThere(cs: Charset, comp: Composition)
    requires VowelsOf(cs, comp) != []
    ensures !ExtractCvcTrans(cs, comp).voIsNil
  {
  }

  lemma MovedIs(cs: Charset, comp: Composition, i: nat, l: Trans, nid: nat)
    requires i < |comp| && IsShownVowel(cs, comp, l) && comp[i].rule.effectType == ToneTransformation
    ensures IsShownVowel(cs, Moved(comp, i, l.id, nid), l)
    ensures Moved(comp, i, l.id, nid)
         == comp[i := comp[i].(target := Some(l.id))]
           + [Candidate(nid, UNDO_TONE, Some(l.id)), Candidate(nid + 1, comp[i].rule.(key := NUL), Some(l.id))]
  {
    var k :| 0 <= k < |comp| && comp[k] == l;
    assert k != i && Moved(comp, i, l.id, nid)[k] == l;
  }
}
