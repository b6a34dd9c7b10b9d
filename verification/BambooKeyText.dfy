/**
 What a key does to the shown text: the tone or mark it sets, and when it becomes a letter.
 */
module BambooKeyText {
  import opened Options
  import opened BambooChars
  import opened BambooSpelling
  import opened BambooFlattener
  import opened BambooUtils
  import opened BambooKeys
  import opened BambooShape
  import opened BambooGenerators
  import opened BambooSteps
  import opened BambooRuns
  import opened BambooPlacement
  import opened BambooFits
  import opened BambooAnswers
  import opened BambooLetters

  // ----- the refresh only moves a tone -----

  // The marks on a letter, in order.
  function MarksOn(comp: Composition, id: nat): Composition {
    if comp == [] then []
    else
      var n := |comp| - 1;
      MarksOn(comp[..n], id)
      + (if comp[n].rule.effectType == MarkTransformation && comp[n].target == Some(id) then [comp[n]] else [])
  }

  lemma {:induction false} MarksConcat(a: Composition, b: Composition, id: nat)
    ensures MarksOn(a + b, id) == MarksOn(a, id) + MarksOn(b, id)
  {
    if b == [] {
      assert a + b == a;
    } else {
      var n := |b| - 1;
      assert (a + b)[..|a + b| - 1] == a + b[..n];
      MarksConcat(a, b[..n], id);
    }
  }

  lemma NoMarkHere(t: Trans, id: nat)
    ensures MarksOn([t], id)
         == if t.rule.effectType == MarkTransformation && t.target == Some(id) then [t] else []
  {
    assert [t][..0] == [];
  }

  // Only the marks count for the mark shown.
  lemma {:induction false} LastMarkOf(cs: Charset, comp: Composition, id: nat, c: char)
    ensures LastMark(cs, EffectsOn(comp, id), c) == LastMark(cs, MarksOn(comp, id), c)
  {
    hide CharsetData.Good, HasSlot;
    if comp != [] {
      var n := |comp| - 1;
      LastMarkOf(cs, comp[..n], id, c);
      var effects, marks, t := EffectsOn(comp[..n], id), MarksOn(comp[..n], id), comp[n];
      assert (effects + [t])[..|effects|] == effects && (marks + [t])[..|marks|] == marks;
      assert effects + [] == effects && marks + [] == marks;
    }
  }

  lemma SplitAt(comp: Composition, i: nat, x: Trans)
    requires i < |comp|
    ensures comp == comp[..i] + [comp[i]] + comp[i + 1..] && comp[i := x] == comp[..i] + [x] + comp[i + 1..]
  {
  }

  lemma RetargetedTone(comp: Composition, i: nat, x: Trans, id: nat)
    requires i < |comp| && comp[i].rule.effectType == ToneTransformation && x.rule == comp[i].rule
    ensures MarksOn(comp[i := x], id) == MarksOn(comp, id)
    ensures Letters(comp[i := x], false) == Letters(comp, false)
  {
    SplitAt(comp, i, x);
    var a, b := comp[..i], comp[i + 1..];
    MarksConcat(a + [comp[i]], b, id);
    MarksConcat(a + [x], b, id);
    MarksConcat(a, [comp[i]], id);
    MarksConcat(a, [x], id);
    NoMarkHere(comp[i], id);
    NoMarkHere(x, id);
    LettersConcat(a + [comp[i]], b, false);
    LettersConcat(a + [x], b, false);
    LettersConcat(a, [comp[i]], false);
    LettersConcat(a, [x], false);
    NoLetter(comp[i]);
    NoLetter(x);
  }

  lemma TwoTones(a: Trans, b: Trans, id: nat)
    requires a.rule.effectType == b.rule.effectType == ToneTransformation
    ensures MarksOn([a, b], id) == [] && Letters([a, b], false) == []
  {
    assert [a, b] == [a] + [b];
    MarksConcat([a], [b], id);
    NoMarkHere(a, id);
    NoMarkHere(b, id);
    LettersConcat([a], [b], false);
    NoLetter(a);
    NoLetter(b);
  }

  // No letter comes or goes, and every letter keeps its marks.
  lemma RefreshKeepsMarks(c: Config, comp: Composition, nid: nat, id: nat)
    ensures var (refreshed, extra) := Refresh(c, comp, nid);
            && MarksOn(refreshed + extra, id) == MarksOn(comp, id)
            && Letters(refreshed + extra, false) == Letters(comp, false)
            && (NoRaw(comp) ==> NoRaw(refreshed + extra))
  {
    hide CharsetData.Good, IsValid, FindToneTarget, ExtractCvcTrans, Letters, MarksOn;
    var (refreshed, extra) := Refresh(c, comp, nid);
    if extra == [] {
      assert comp + [] == comp;
      assert refreshed == comp;
    } else {
      var i := LastToneIndex(comp) - 1;
      RetargetedTone(comp, i, refreshed[i], id);
      TwoTones(extra[0], extra[1], id);
      assert extra == [extra[0], extra[1]];
      MarksConcat(refreshed, extra, id);
      LettersConcat(refreshed, extra, false);
      assert MarksOn(comp, id) + [] == MarksOn(comp, id) && Letters(comp, false) + [] == Letters(comp, false);
      if NoRaw(comp) {
        StillNoRaw(comp, refreshed, extra, i);
      }
    }
  }

  lemma StillNoRaw(comp: Composition, refreshed: Composition, extra: Composition, i: nat)
    requires i < |comp| && |refreshed| == |comp| && forall k :: 0 <= k < |comp| && k != i ==> refreshed[k] == comp[k]
    requires refreshed[i].rule.effectType == ToneTransformation && NoRaw(comp)
    requires forall t :: t in extra ==> t.rule.effectType == ToneTransformation
    ensures NoRaw(refreshed + extra)
  {
    var s := refreshed + extra;
    forall k | 0 <= k < |s| ensures s[k].rule.effectType == MarkTransformation ==> s[k].rule.effect != MARK_RAW {
      if k >= |comp| {
        assert s[k] == extra[k - |comp|] && s[k] in extra;
      } else if k != i {
        assert s[k] == comp[k] && comp[k] in comp;
      }
    }
  }

  // ----- the text of letters -----

  // The letter `id` reads as its base letter with this mark, whatever its tone.
  ghost predicate ShowsMark(cs: Charset, comp: Composition, id: nat, mark: Effect) {
    var letters := Letters(comp, false);
    exists p: nat ::
      && p < |letters| && letters[p].id == id
      && Canvas(cs, comp, VIETNAMESE)[p] == Cased(cs, Face(cs, comp, letters[p]), letters[p].isUpperCase)
      && HasSlot(cs, Toneless(cs, letters[p].rule.effectOn), mark)
      && Toneless(cs, Face(cs, comp, letters[p])) == cs.marks[Toneless(cs, letters[p].rule.effectOn)][mark]
  }

  lemma {:induction false} NothingRendered(ts: Composition)
    requires forall t :: t in ts ==> !IsRendered(t, false)
    ensures Letters(ts, false) == []
  {
    hide IsRendered;
    if ts != [] {
      var n := |ts| - 1;
      assert ts[n] in ts && forall t :: t in ts[..n] ==> t in ts;
      NothingRendered(ts[..n]);
    }
  }

  // A letter no entry of `ts` decorates reads as before.
  lemma OtherLettersStay(cs: Charset, comp: Composition, ts: Composition, p: nat)
    requires (forall t :: t in ts ==> !IsRendered(t, false)) && p < |Letters(comp, false)|
    requires forall t :: t in ts ==> t.target != Some(Letters(comp, false)[p].id)
    ensures Letters(comp + ts, false) == Letters(comp, false)
    ensures Canvas(cs, comp + ts, VIETNAMESE)[p] == Canvas(cs, comp, VIETNAMESE)[p]
  {
    hide CharsetData.Good, Fold, Finish, IsRendered;
    LettersConcat(comp, ts, false);
    NothingRendered(ts);
    var l := Letters(comp, false)[p];
    NoTargetsNoEffects(ts, l.id);
    EffectsConcat(comp, ts, l.id);
    assert EffectsOn(comp, l.id) + [] == EffectsOn(comp, l.id);
  }

  // The letter whose text a candidate changes.
  lemma ChangedLetter(cs: Charset, comp: Composition, t: Trans) returns (l: Trans)
    requires !IsAppending(t) && Changes(cs, comp, t)
    ensures l in comp && IsRendered(l, false) && t.target == Some(l.id)
    ensures Face(cs, comp + [t], l) != Face(cs, comp, l)
  {
    hide CharsetData.Good, Fold, Finish, IsRendered, Letters, EffectsOn;
    LettersConcat(comp, [t], false);
    NoLetter(t);
    var letters := Letters(comp, false);
    assert letters + [] == letters;
    var p :| 0 <= p < |letters| && Canvas(cs, comp + [t], VIETNAMESE)[p] != Canvas(cs, comp, VIETNAMESE)[p];
    l := letters[p];
    LettersAreMembers(comp, false);
    assert l in letters;
    EffectsConcat(comp, [t], l.id);
    OneEffect(t, l.id);
    assert EffectsOn(comp, l.id) + [] == EffectsOn(comp, l.id);
  }

  // ----- a tone key -----

  lemma FittingTone(c: Config, comp: Composition, rules: seq<Rule>, nid: nat, target: nat, rule: Rule)
    requires Fits(c.env, comp, rules, c.flags, nid, target, rule) && rule.effectType == ToneTransformation
    ensures TonePlace(c.env.cs, comp, rule.effect, c.flags) == Some(target)
    ensures Changes(c.env.cs, comp, Candidate(nid, rule, Some(target)))
  {
    hide CharsetData.Good, Changes, TonePlace, IsValid;
  }

  lemma ToneStaysPut(c: Config, comp: Composition, e: Trans, nid: nat)
    requires AllOk(c, comp + [e]) && HornsAreVowels(c.env.cs)
    requires e.rule.effectType == ToneTransformation && e.target.Some?
    requires c.flags.free ==> SeatOf(c.env.cs, comp, c.flags.std) == e.target
    ensures Refresh(c, comp + [e], nid) == (comp + [e], [])
  {
    hide CharsetData.Good, IsValid, VowelsOf, IsPlain, BaseLetter, TargetLess, FindToneTarget, SeatOf, ExtractCvcTrans;
    var cs := c.env.cs;
    if c.flags.free {
      var next := comp + [e];
      assert e in next && EntryOk(cs, c.im.keys, e);
      TargetLessConcat(comp, [e]);
      TargetedAreNoLetters([e]);
      assert TargetLess(comp) + [] == TargetLess(comp);
      forall l ensures BecameHorn(comp, l) <==> BecameHorn(next, l) {
        assert next[..|next| - 1] == comp;
        BecomesLater(next, l);
      }
      SeatStays(cs, comp, next, c.flags.std);
      SeatIsFound(cs, c.im.keys, next, c.flags.std);
      assert LastToneIndex(next) == |next|;
    }
  }

  // A tone rule that fits sets its tone on its letter: the key is one more entry and no letter, the letter reads
  // with this tone, and every other letter reads as before.
  lemma ToneKeyShows(c: Config, st: State, key: char, target: nat, rule: Rule)
    requires IsTyped(c, st, key) && !IsDoubled(c, st, key) && FitsKey(c, st, key, [], target, rule)
    requires rule.effectType == ToneTransformation && HornsAreVowels(c.env.cs)
    ensures var next := ProcessKey(c, st, key, false).comp;
            && next == st.comp + [Entry(c, st, key, target, rule)]
            && Letters(next, false) == Letters(st.comp, false)
            && (NoRaw(st.comp) ==> ShowsTone(c.env.cs, next, target, rule.effect))
            && (forall p :: 0 <= p < |Letters(st.comp, false)| && Letters(st.comp, false)[p].id != target ==>
                  Canvas(c.env.cs, next, VIETNAMESE)[p] == Canvas(c.env.cs, st.comp, VIETNAMESE)[p])
  {
    hide CharsetData.Good, ExtractLastSyllable, CanProcessKey, GoodMethod, Inv, EntryOk, IsValid, Fits, NothingFits,
         RulesFor, IsRawDouble, Refresh, ProcessKey, Letters, Canvas, TonePlace, IsRendered, ShowsTone, IsFirstTone;
    var s, e := LastSyllable(c, st), Entry(c, st, key, target, rule);
    var previous := ExtractLastSyllable(c.env, st.comp).0;
    assert previous + s == st.comp && s + [] == s;
    StateIsOk(c, st);
    FittingTone(c, s, KeyRules(c, key), st.nextId, target, rule);
    FitIsRule(c, s, key, st.nextId, target, rule);
    EntryIsOk(c, st.nextId, rule, target, c.env.cs.isUpper(key));
    AllOkConcat(c, s, [e]);
    FittingRuleAdds(c, st, key, target, rule);
    FreePlace(c, s, rule.effect);
    ToneStaysPut(c, s, e, st.nextId + 1);
    var next := st.comp + [e];
    assert previous + ((s + [e]) + []) == next;
    AllTonesEnd(st.comp, e);
    var l := ChangedLetter(c.env.cs, s, Candidate(st.nextId, rule, Some(target)));
    PlaceIsVowel(c, s, rule.effect, l);
    if NoRaw(st.comp) {
      ToneEndShows(c.env.cs, st.comp, e, l);
    }
    OthersStay(c.env.cs, st.comp, e);
  }

  lemma OthersStay(cs: Charset, comp: Composition, e: Trans)
    requires !IsAppending(e)
    ensures forall p :: 0 <= p < |Letters(comp, false)| && Some(Letters(comp, false)[p].id) != e.target ==>
              p < |Letters(comp + [e], false)|
                && Canvas(cs, comp + [e], VIETNAMESE)[p] == Canvas(cs, comp, VIETNAMESE)[p]
  {
    hide CharsetData.Good, Letters, IsRendered, Glyph;
    NotRendered(e);
    forall p | 0 <= p < |Letters(comp, false)| && Some(Letters(comp, false)[p].id) != e.target
      ensures p < |Letters(comp + [e], false)|
              && Canvas(cs, comp + [e], VIETNAMESE)[p] == Canvas(cs, comp, VIETNAMESE)[p]
    {
      OtherLettersStay(cs, comp, [e], p);
    }
  }

  lemma FreePlace(c: Config, comp: Composition, tone: Effect)
    ensures c.flags.free && TonePlace(c.env.cs, comp, tone, c.flags).Some? ==>
              TonePlace(c.env.cs, comp, tone, c.flags) == SeatOf(c.env.cs, comp, c.flags.std)
  {
    hide CharsetData.Good, SeatOf, ToneAllowed;
  }

  lemma NotRendered(e: Trans)
    requires !IsAppending(e)
    ensures !IsRendered(e, false)
  {
  }

  lemma AllTonesEnd(comp: Composition, e: Trans)
    requires e.rule.effectType == ToneTransformation && e.target.Some?
    ensures LastToneIndex(comp + [e]) == |comp| + 1 && Letters(comp + [e], false) == Letters(comp, false)
  {
    LettersConcat(comp, [e], false);
    NoLetter(e);
    assert Letters(comp, false) + [] == Letters(comp, false);
  }

  lemma ToneEndShows(cs: Charset, comp: Composition, e: Trans, l: Trans)
    requires e.rule.effectType == ToneTransformation && e.target == Some(l.id) && NoRaw(comp)
    requires IsShownVowel(cs, comp, l)
    ensures ShowsTone(cs, comp + [e], l.id, e.rule.effect)
  {
    hide CharsetData.Good, LastToneIndex, IsRendered, ShowsTone, IsVowel;
    AllTonesEnd(comp, e);
    LastToneShows(cs, comp + [e], l);
  }

  // The letter a tone key aims at is a vowel.
  lemma PlaceIsVowel(c: Config, comp: Composition, tone: Effect, l: Trans)
    requires AllOk(c, comp) && TonePlace(c.env.cs, comp, tone, c.flags) == Some(l.id)
    requires l in comp && IsAppending(l) && exists nid :: Distinct(comp, nid)
    ensures IsVowel(c.env.cs, l.rule.effectOn)
  {
    hide CharsetData.Good, EntryOk, IsVowel, ToneAllowed, VowelsOf, IsClosed, Seat;
    if c.flags.free {
      var v := VowelsOf(c.env.cs, comp);
      VowelsAreLetters(c.env.cs, c.im.keys, comp);
      var x := v[Seat(c.env.cs, comp, v, IsClosed(c.env.cs, comp), c.flags.std)];
      assert x in v;
      SameId(comp, x, l);
    } else {
      SameId(comp, FindLastAppending(comp).value, l);
    }
  }

  lemma SameId(comp: Composition, a: Trans, b: Trans)
    requires a in comp && b in comp && a.id == b.id && exists nid :: Distinct(comp, nid)
    ensures a == b
  {
    var i :| 0 <= i < |comp| && comp[i] == a;
    var j :| 0 <= j < |comp| && comp[j] == b;
  }

  // ----- any key -----

  lemma {:induction false} LastToneBehind(a: Composition, b: Composition)
    requires LastToneIndex(b) > 0
    ensures LastToneIndex(a + b) == |a| + LastToneIndex(b)
  {
    var n := |b| - 1;
    assert (a + b)[|a| + n] == b[n] && (a + b)[..|a| + n] == a + b[..n];
    if !(b[n].rule.effectType == ToneTransformation && b[n].target.Some?) {
      LastToneBehind(a, b[..n]);
    }
  }

  // The last syllable with what the key added is valid and has a tone, and this vowel is its seat.
  ghost predicate HasSeat(c: Config, full: Composition, l: Trans) {
    && c.flags.free && IsValid(c.env, full, false) && LastToneIndex(full) > 0
    && SeatOf(c.env.cs, full, c.flags.std) == Some(l.id) && IsShownVowel(c.env.cs, full, l)
  }

  // The refresh of the last part of a composition, in the text of the whole.
  lemma RefreshedBehind(c: Config, previous: Composition, full: Composition, nid: nat, l: Trans)
    requires AllOk(c, full) && HornsAreVowels(c.env.cs) && NoRaw(previous) && NoRaw(full) && HasSeat(c, full, l)
    ensures var (refreshed, extra) := Refresh(c, full, nid);
            ShowsTone(c.env.cs, previous + (refreshed + extra), l.id, full[LastToneIndex(full) - 1].rule.effect)
  {
    hide CharsetData.Good, Refresh, IsValid, EntryOk, SeatOf, Letters, ShowsTone, IsShownVowel, LastToneIndex, NoRaw,
         Moved;
    var (refreshed, extra) := Refresh(c, full, nid);
    var next := refreshed + extra;
    RefreshSeatsTone(c, full, nid, l);
    RefreshKeepsMarks(c, full, nid, 0);
    RawFreeBoth(previous, next);
    SeatedTone(c, full, next, l, nid);
    LastToneBehind(previous, next);
    ShownBehind(c.env.cs, previous, next, l);
    LastToneShows(c.env.cs, previous + next, l);
  }

  lemma AddedToneSits(c: Config, st: State, key: char, ts: Composition, l: Trans)
    requires Adds(c, st, key, ts) && AllOk(c, LastSyllable(c, st) + ts) && HornsAreVowels(c.env.cs)
    requires NoRaw(st.comp) && NoRaw(ts) && HasSeat(c, LastSyllable(c, st) + ts, l)
    ensures var full := LastSyllable(c, st) + ts;
            ShowsTone(c.env.cs, ProcessKey(c, st, key, false).comp, l.id, full[LastToneIndex(full) - 1].rule.effect)
  {
    hide CharsetData.Good, ExtractLastSyllable, ProcessKey, Refresh, EntryOk, ShowsTone, LastToneIndex, NoRaw, HasSeat;
    var (previous, s) := ExtractLastSyllable(c.env, st.comp);
    assert previous + s == st.comp;
    RawFree(previous, s, ts);
    SeatMeans(c, s + ts, l);
    RefreshedBehind(c, previous, s + ts, st.nextId + |ts|, l);
  }

  lemma SeatMeans(c: Config, full: Composition, l: Trans)
    requires HasSeat(c, full, l)
    ensures LastToneIndex(full) > 0
  {
  }

  lemma RawFree(previous: Composition, s: Composition, ts: Composition)
    requires NoRaw(previous + s) && NoRaw(ts)
    ensures NoRaw(previous) && NoRaw(s + ts)
  {
    assert forall t :: t in s || t in previous ==> t in previous + s;
  }

  lemma RawFreeBoth(previous: Composition, next: Composition)
    requires NoRaw(previous) && NoRaw(next)
    ensures NoRaw(previous + next)
  {
  }

  // Behind the refresh the last tone is on its seat, with the effect it had.
  lemma SeatedTone(c: Config, full: Composition, next: Composition, l: Trans, nid: nat)
    requires AllOk(c, full) && HornsAreVowels(c.env.cs) && LastToneIndex(full) > 0 && IsShownVowel(c.env.cs, full, l)
    requires var i := LastToneIndex(full) - 1;
             next == if full[i].target == Some(l.id) then full else Moved(full, i, l.id, nid)
    ensures LastToneIndex(next) > 0 && next[LastToneIndex(next) - 1].target == Some(l.id)
    ensures next[LastToneIndex(next) - 1].rule.effect == full[LastToneIndex(full) - 1].rule.effect
    ensures IsShownVowel(c.env.cs, next, l)
  {
    hide CharsetData.Good, EntryOk, IsShownVowel, LastToneIndex, SeatOf, Letters, Moved;
    var i := LastToneIndex(full) - 1;
    if full[i].target != Some(l.id) {
      MovedTone(c.env.cs, c.im.keys, full, i, l.id, nid, c.flags.std);
      MovedIs(c.env.cs, full, i, l, nid);
    }
  }

  lemma ShownBehind(cs: Charset, previous: Composition, next: Composition, l: Trans)
    requires IsShownVowel(cs, next, l)
    ensures IsShownVowel(cs, previous + next, l)
  {
  }

  // Whatever the key is, if the last syllable is valid with what it adds and has a tone, then the text shows the tone
  // on the seat.
  lemma KeySeatsTone(c: Config, st: State, key: char) returns (ts: Composition)
    requires IsTyped(c, st, key) && HornsAreVowels(c.env.cs)
    ensures Adds(c, st, key, ts)
    ensures NoRaw(st.comp) && NoRaw(ts) ==>
              var full := LastSyllable(c, st) + ts;
              forall l :: HasSeat(c, full, l) ==>
                ShowsTone(c.env.cs, ProcessKey(c, st, key, false).comp, l.id,
                          full[LastToneIndex(full) - 1].rule.effect)
  {
    hide CharsetData.Good, ExtractLastSyllable, ProcessKey, IsValid, EntryOk, SeatOf, ShowsTone, IsShownVowel,
         LastToneIndex, NoRaw, KeyTransformations, Adds, CanProcessKey, GoodMethod, Inv, IsBreak, Typed, IsRawDouble;
    var s, lowerKey, up := LastSyllable(c, st), c.env.cs.lower(key), c.env.cs.isUpper(key);
    ts := KeyTransformations(c, s, lowerKey, up, st.nextId);
    KeyStepIs(c, st, key, ts);
    StateIsOk(c, st);
    TypedKeyIsProcessed(c, key);
    TransformationsShape(c, s, lowerKey, up, st.nextId);
    AllOkConcat(c, s, ts);
    if NoRaw(st.comp) && NoRaw(ts) {
      forall l | HasSeat(c, s + ts, l)
        ensures ShowsTone(c.env.cs, ProcessKey(c, st, key, false).comp, l.id,
                          (s + ts)[LastToneIndex(s + ts) - 1].rule.effect)
      {
        AddedToneSits(c, st, key, ts, l);
      }
    }
  }

  // A Backspace that refreshes leaves the last tone of the rest of the word on its seat.
  lemma BackspaceSeatsTone(c: Config, st: State, l: Trans)
    requires Inv(c, st) && HornsAreVowels(c.env.cs) && NoRaw(st.comp)
    requires FindLastAppending(st.comp).Some?
             && CanProcessKey(c.env.cs, FindLastAppending(st.comp).value.rule.key, c.im.keys)
    ensures var rest := Without(ExtractLastWord(c.env.cs, st.comp, c.im.keys).1, FindLastAppending(st.comp).value);
            HasSeat(c, rest, l) ==>
              ShowsTone(c.env.cs, RemoveLastChar(c, st, true).comp, l.id, rest[LastToneIndex(rest) - 1].rule.effect)
  {
    hide CharsetData.Good, ExtractLastWord, Refresh, EntryOk, ShowsTone, LastToneIndex, HasSeat, CanProcessKey,
         TargetsIn, Distinct;
    var (previous, word) := ExtractLastWord(c.env.cs, st.comp, c.im.keys);
    var rest := Without(word, FindLastAppending(st.comp).value);
    assert previous + word == st.comp;
    AllOkConcat(c, previous, word);
    WithoutIsPart(c, word, FindLastAppending(st.comp).value);
    RawFree(previous, word, []);
    assert word + [] == word;
    if HasSeat(c, rest, l) {
      SeatMeans(c, rest, l);
      RefreshedBehind(c, previous, rest, st.nextId, l);
      var (refreshed, extra) := Refresh(c, rest, st.nextId);
      assert previous + refreshed + extra == previous + (refreshed + extra);
    }
  }

  lemma {:induction false} WithoutIsPart(c: Config, word: Composition, letter: Trans)
    ensures forall t :: t in Without(word, letter) ==> t in word
    ensures AllOk(c, word) ==> AllOk(c, Without(word, letter))
    ensures NoRaw(word) ==> NoRaw(Without(word, letter))
  {
    hide CharsetData.Good, EntryOk;
    if word != [] {
      var n := |word| - 1;
      WithoutIsPart(c, word[..n], letter);
      assert word == word[..n] + [word[n]];
      assert forall t :: t in word[..n] ==> t in word;
    }
  }
}
