/**
 Which rule a key applies, and to which letter: the first tone rule that would change the text, else the mark rule
 that fits the last entry it fits at all.
 */
module BambooFits {
  import opened Options
  import opened BambooChars
  import opened BambooSpelling
  import opened BambooFlattener
  import opened BambooUtils
  import opened BambooKeys
  import opened BambooShape
  import opened BambooPlacement

  // ----- the rules of a key -----

  // The rules of the key, in the order of the method: `at` are their places, and no other rule has this key.
  ghost predicate AreRulesOf(all: seq<Rule>, lowerKey: char, rules: seq<Rule>, at: seq<nat>) {
    && |at| == |rules|
    && (forall k :: 0 <= k < |at| ==> at[k] < |all| && rules[k] == all[at[k]] && rules[k].key == lowerKey)
    && (forall j, k :: 0 <= j < k < |at| ==> at[j] < at[k])
    && (forall i: nat :: i < |all| && all[i].key == lowerKey ==> i in at)
  }

  lemma {:induction false} RulesOfKey(cs: Charset, all: seq<Rule>, key: char) returns (at: seq<nat>)
    ensures AreRulesOf(all, cs.lower(key), ApplicableRules(cs, all, key), at)
  {
    hide AreRulesOf, CharsetData.Good;
    if all == [] {
      at := [];
      NoRules(cs.lower(key));
    } else {
      var rest := RulesOfKey(cs, all[1..], key);
      var later := Later(all, cs.lower(key), ApplicableRules(cs, all[1..], key), rest);
      if all[0].key == cs.lower(key) {
        at := [0] + later;
        FirstToo(all, cs.lower(key), ApplicableRules(cs, all[1..], key), later);
      } else {
        at := later;
        NotFirst(all, cs.lower(key), ApplicableRules(cs, all[1..], key), later);
        assert [] + ApplicableRules(cs, all[1..], key) == ApplicableRules(cs, all[1..], key);
      }
    }
  }

  lemma NoRules(key: char)
    ensures AreRulesOf([], key, [], [])
  {
  }

  // The same, of the rules from the second on.
  ghost predicate AreLaterRulesOf(all: seq<Rule>, lowerKey: char, rules: seq<Rule>, at: seq<nat>) {
    && |at| == |rules|
    && (forall k :: 0 <= k < |at| ==> 0 < at[k] < |all| && rules[k] == all[at[k]] && rules[k].key == lowerKey)
    && (forall j, k :: 0 <= j < k < |at| ==> at[j] < at[k])
    && (forall i: nat :: 0 < i < |all| && all[i].key == lowerKey ==> i in at)
  }

  lemma Later(all: seq<Rule>, lowerKey: char, rules: seq<Rule>, rest: seq<nat>) returns (later: seq<nat>)
    requires all != [] && AreRulesOf(all[1..], lowerKey, rules, rest)
    ensures AreLaterRulesOf(all, lowerKey, rules, later)
  {
    later := AddOne(rest);
    forall k | 0 <= k < |later| ensures 0 < later[k] < |all| && rules[k] == all[later[k]] && rules[k].key == lowerKey {
      assert all[1..][rest[k]] == all[later[k]];
    }
    forall i: nat | 0 < i < |all| && all[i].key == lowerKey ensures i in later {
      assert all[1..][i - 1] == all[i] && i - 1 in rest;
      var k :| 0 <= k < |rest| && rest[k] == i - 1;
      assert later[k] == i;
    }
  }

  function AddOne(at: seq<nat>): (r: seq<nat>)
    ensures |r| == |at| && forall k :: 0 <= k < |at| ==> r[k] == at[k] + 1
  {
    seq(|at|, k requires 0 <= k < |at| => at[k] + 1)
  }

  lemma FirstToo(all: seq<Rule>, lowerKey: char, rules: seq<Rule>, later: seq<nat>)
    requires all != [] && all[0].key == lowerKey && AreLaterRulesOf(all, lowerKey, rules, later)
    ensures AreRulesOf(all, lowerKey, [all[0]] + rules, [0] + later)
  {
  }

  lemma NotFirst(all: seq<Rule>, lowerKey: char, rules: seq<Rule>, later: seq<nat>)
    requires all != [] && all[0].key != lowerKey && AreLaterRulesOf(all, lowerKey, rules, later)
    ensures AreRulesOf(all, lowerKey, rules, later)
  {
  }

  // ----- what would change the text -----

  ghost predicate Changes(cs: Charset, comp: Composition, t: Trans) {
    Canvas(cs, comp + [t], VIETNAMESE) != Canvas(cs, comp, VIETNAMESE)
  }

  // The keys typed behind the vowels.
  function LastKeys(cs: Charset, comp: Composition): string {
    var last := ExtractCvcAppendingTrans(cs, TargetLess(comp)).lc;
    Canvas(cs, last + Attached(comp, last), ENGLISH_LOWER)
  }

  // Before a stop consonant only no tone, the acute and the dot.
  predicate ToneAllowed(cs: Charset, comp: Composition, tone: Effect) {
    LastKeys(cs, comp) in ["c", "ch", "k", "p", "t"] ==> tone in {TONE_NONE, TONE_ACUTE, TONE_DOT}
  }

  // The letter a tone key aims at: with free marking the seat of the syllable, else the last letter if it is a vowel.
  ghost function TonePlace(cs: Charset, comp: Composition, tone: Effect, flags: Flags): Option<nat> {
    if flags.free then if ToneAllowed(cs, comp, tone) then SeatOf(cs, comp, flags.std) else None
    else
      var last := FindLastAppending(comp);
      if last.Some? && IsVowel(cs, last.value.rule.effectOn) then Some(last.value.id) else None
  }

  ghost predicate ToneWorks(cs: Charset, comp: Composition, rule: Rule, flags: Flags, nid: nat) {
    && rule.effectType == ToneTransformation
    && Changes(cs, comp, Candidate(nid, rule, TonePlace(cs, comp, rule.effect, flags)))
  }

  ghost predicate MarkWorks(env: Env, comp: Composition, t: Trans, rule: Rule, nid: nat) {
    var marked := Candidate(nid, rule, Some(RootTarget(t)));
    && rule.effectType == MarkTransformation && rule.effect > 0 && t.rule.result == rule.effectOn
    && Changes(env.cs, comp, marked) && IsValid(env, comp + [marked], false)
  }

  // `rules[k]` is the first tone rule that would change the text.
  ghost predicate IsFirstTone(cs: Charset, comp: Composition, rules: seq<Rule>, flags: Flags, nid: nat, k: nat) {
    && k < |rules| && ToneWorks(cs, comp, rules[k], flags, nid)
    && forall j :: 0 <= j < k ==> !ToneWorks(cs, comp, rules[j], flags, nid)
  }

  ghost predicate NoToneWorks(cs: Charset, comp: Composition, rules: seq<Rule>, flags: Flags, nid: nat) {
    forall j :: 0 <= j < |rules| ==> !ToneWorks(cs, comp, rules[j], flags, nid)
  }

  // No mark rule works on an entry from `i` on.
  ghost predicate NoMarkFrom(env: Env, comp: Composition, rules: seq<Rule>, nid: nat, i: nat) {
    forall h, j :: i <= h < |comp| && 0 <= j < |rules| ==> !MarkWorks(env, comp, comp[h], rules[j], nid)
  }

  // Entry `i` is the last any mark rule works on, and `rules[k]` is the first that works on it.
  ghost predicate IsLastMark(env: Env, comp: Composition, rules: seq<Rule>, nid: nat, i: nat, k: nat) {
    && i < |comp| && k < |rules| && MarkWorks(env, comp, comp[i], rules[k], nid)
    && (forall j :: 0 <= j < k ==> !MarkWorks(env, comp, comp[i], rules[j], nid))
    && NoMarkFrom(env, comp, rules, nid, i + 1)
  }

  // A tone key that clears the tone, on a letter with no tone set and none of its own.
  ghost predicate ClearsNothing(cs: Charset, comp: Composition, tone: Effect, place: Option<nat>) {
    && tone == TONE_NONE && place.Some?
    && (forall t :: t in comp ==> !(t.target == place && t.rule.effectType == ToneTransformation))
    && FindToneFromChar(cs, ResultOf(comp, place.value)) == TONE_NONE
  }

  // The letter with this identity yields this.
  lemma {:induction false} ResultIs(comp: Composition, t: Trans, nid: nat)
    requires Distinct(comp, nid) && t in comp
    ensures ResultOf(comp, t.id) == t.rule.result
  {
    var n := |comp| - 1;
    assert comp == comp[..n] + [comp[n]];
    if comp[n].id != t.id {
      ResultIs(comp[..n], t, nid);
    } else {
      var i :| 0 <= i < |comp| && comp[i] == t;
    }
  }

  // The key sets this rule on this letter.
  ghost predicate Fits(env: Env, comp: Composition, rules: seq<Rule>, flags: Flags, nid: nat, target: nat, rule: Rule) {
    || (exists k: nat ::
          && IsFirstTone(env.cs, comp, rules, flags, nid, k) && rules[k] == rule
          && TonePlace(env.cs, comp, rule.effect, flags) == Some(target)
          && !ClearsNothing(env.cs, comp, rule.effect, Some(target)))
    || (NoToneWorks(env.cs, comp, rules, flags, nid)
        && exists i: nat, k: nat ::
             IsLastMark(env, comp, rules, nid, i, k) && rules[k] == rule && RootTarget(comp[i]) == target)
  }

  ghost predicate NothingFits(env: Env, comp: Composition, rules: seq<Rule>, flags: Flags, nid: nat) {
    forall target: nat, rule :: !Fits(env, comp, rules, flags, nid, target, rule)
  }

  // ----- the searches of the source find exactly that -----

  lemma StopsAre(cs: Charset, comp: Composition, tone: Effect)
    ensures HasValidTone(cs, comp, tone) <==> ToneAllowed(cs, comp, tone)
  {
    hide CharsetData.Good, ExtractCvcAppendingTrans, TargetLess;
    var last := ExtractCvcAppendingTrans(cs, TargetLess(comp)).lc;
    if last == [] {
      assert last + Attached(comp, last) == [];
      assert Canvas(cs, [], ENGLISH_LOWER) == "";
    }
  }

  lemma PlaceIsFound(cs: Charset, keys: seq<char>, comp: Composition, tone: Effect, flags: Flags)
    requires forall t :: t in comp ==> EntryOk(cs, keys, t)
    ensures ToneTargetFor(cs, comp, tone, flags) == TonePlace(cs, comp, tone, flags)
  {
    hide CharsetData.Good, HasValidTone, ToneAllowed, FindToneTarget, EntryOk;
    StopsAre(cs, comp, tone);
    SeatIsFound(cs, keys, comp, flags.std);
  }

  lemma FreeIs(comp: Composition, target: Option<nat>)
    ensures IsFree(comp, target, ToneTransformation) <==>
            forall t :: t in comp ==> !(t.target == target && t.rule.effectType == ToneTransformation)
  {
    if IsFree(comp, target, ToneTransformation) {
      forall t | t in comp ensures !(t.target == target && t.rule.effectType == ToneTransformation) {
        var i :| 0 <= i < |comp| && comp[i] == t;
      }
    }
  }

  // `rules[k]` is the first that works on the entry.
  ghost predicate IsFirstMark(env: Env, comp: Composition, t: Trans, rules: seq<Rule>, nid: nat, k: nat) {
    && k < |rules| && MarkWorks(env, comp, t, rules[k], nid)
    && forall j :: 0 <= j < k ==> !MarkWorks(env, comp, t, rules[j], nid)
  }

  lemma {:induction false} MarkRuleIs(env: Env, comp: Composition, t: Trans, rules: seq<Rule>, nid: nat)
    ensures match MarkRuleFor(env, comp, t, rules, nid)
            case None => forall j :: 0 <= j < |rules| ==> !MarkWorks(env, comp, t, rules[j], nid)
            case Some(rule) => exists k: nat :: IsFirstMark(env, comp, t, rules, nid, k) && rules[k] == rule
  {
    hide CharsetData.Good, IsValid, MarkWorks, MarkFits;
    if rules != [] {
      FitsMeans(env, comp, t, rules[0], nid);
      if MarkFits(env, comp, t, rules[0], nid) {
        assert IsFirstMark(env, comp, t, rules, nid, 0);
      } else {
        MarkRuleIs(env, comp, t, rules[1..], nid);
        assert forall j :: 0 < j < |rules| ==> rules[j] == rules[1..][j - 1];
        match MarkRuleFor(env, comp, t, rules[1..], nid)
        case None =>
        case Some(rule) =>
          var k: nat :| IsFirstMark(env, comp, t, rules[1..], nid, k) && rules[1..][k] == rule;
          assert IsFirstMark(env, comp, t, rules, nid, k + 1);
      }
    }
  }

  lemma FitsMeans(env: Env, comp: Composition, t: Trans, rule: Rule, nid: nat)
    ensures MarkFits(env, comp, t, rule, nid) <==> MarkWorks(env, comp, t, rule, nid)
  {
    hide CharsetData.Good, IsValid, Canvas;
  }

  lemma {:induction false} MarkTargetIs(env: Env, comp: Composition, rules: seq<Rule>, i: nat, nid: nat)
    requires i <= |comp| && NoMarkFrom(env, comp, rules, nid, i)
    ensures match FindMarkTarget(env, comp, rules, i, nid)
            case None => NoMarkFrom(env, comp, rules, nid, 0)
            case Some((target, rule)) =>
              exists h: nat, k: nat ::
                IsLastMark(env, comp, rules, nid, h, k) && rules[k] == rule && RootTarget(comp[h]) == target
  {
    hide CharsetData.Good, MarkWorks;
    if i > 0 {
      MarkRuleIs(env, comp, comp[i - 1], rules, nid);
      match MarkRuleFor(env, comp, comp[i - 1], rules, nid)
      case None => MarkTargetIs(env, comp, rules, i - 1, nid);
      case Some(rule) =>
        var k: nat :| IsFirstMark(env, comp, comp[i - 1], rules, nid, k) && rules[k] == rule;
        assert IsLastMark(env, comp, rules, nid, i - 1, k);
    }
  }

  // The tone rules from the j-th on; those before it do not work.
  lemma {:induction false} TargetFrom(env: Env, keys: seq<char>, comp: Composition, rules: seq<Rule>, flags: Flags,
                                      nid: nat, j: nat)
    requires (forall t :: t in comp ==> EntryOk(env.cs, keys, t)) && j <= |rules|
    requires forall i :: 0 <= i < j ==> !ToneWorks(env.cs, comp, rules[i], flags, nid)
    ensures var found := FindTarget(env, comp, rules, rules[j..], flags, nid);
            if NoToneWorks(env.cs, comp, rules, flags, nid)
            then found == FindMarkTarget(env, comp, rules, |comp|, nid)
            else exists k: nat ::
                   && IsFirstTone(env.cs, comp, rules, flags, nid, k)
                   && found == ToneFound(env.cs, comp, rules[k], flags)
    decreases |rules| - j
  {
    hide CharsetData.Good, ToneWorks, FindMarkTarget, EntryOk, ToneFound;
    if j < |rules| {
      var rule, tail := rules[j], rules[j..];
      assert tail[0] == rule && tail[1..] == rules[j + 1..];
      if ToneWorks(env.cs, comp, rule, flags, nid) {
        assert IsFirstTone(env.cs, comp, rules, flags, nid, j);
        FirstToneFound(env, keys, comp, rules, tail, flags, nid);
      } else {
        TargetFrom(env, keys, comp, rules, flags, nid, j + 1);
        NextTone(env, keys, comp, rules, tail, flags, nid);
      }
    }
  }

  ghost function ToneFound(cs: Charset, comp: Composition, rule: Rule, flags: Flags): Option<(nat, Rule)> {
    var place := TonePlace(cs, comp, rule.effect, flags);
    if place.None? || ClearsNothing(cs, comp, rule.effect, place) then None else Some((place.value, rule))
  }

  lemma FirstToneFound(env: Env, keys: seq<char>, comp: Composition, rules: seq<Rule>, tones: seq<Rule>, flags: Flags,
                       nid: nat)
    requires (forall t :: t in comp ==> EntryOk(env.cs, keys, t)) && tones != []
    requires ToneWorks(env.cs, comp, tones[0], flags, nid)
    ensures FindTarget(env, comp, rules, tones, flags, nid) == ToneFound(env.cs, comp, tones[0], flags)
    ensures TonePlace(env.cs, comp, tones[0].effect, flags).Some?
  {
    hide CharsetData.Good, FindMarkTarget, EntryOk, Canvas, ToneTargetFor, TonePlace, IsFree, ResultOf, HasLetter;
    PlaceIsFound(env.cs, keys, comp, tones[0].effect, flags);
    FreeIs(comp, TonePlace(env.cs, comp, tones[0].effect, flags));
    ShownTargetIsLetter(env.cs, comp, Candidate(nid, tones[0], TonePlace(env.cs, comp, tones[0].effect, flags)),
                        VIETNAMESE);
  }

  lemma NextTone(env: Env, keys: seq<char>, comp: Composition, rules: seq<Rule>, tones: seq<Rule>, flags: Flags,
                 nid: nat)
    requires (forall t :: t in comp ==> EntryOk(env.cs, keys, t)) && tones != []
    requires !ToneWorks(env.cs, comp, tones[0], flags, nid)
    ensures FindTarget(env, comp, rules, tones, flags, nid) == FindTarget(env, comp, rules, tones[1..], flags, nid)
  {
    hide CharsetData.Good, FindMarkTarget, EntryOk, Canvas, ToneTargetFor, TonePlace, IsFree, ResultOf, HasLetter;
    PlaceIsFound(env.cs, keys, comp, tones[0].effect, flags);
  }

  lemma OneFirstTone(cs: Charset, comp: Composition, rules: seq<Rule>, flags: Flags, nid: nat, a: nat, b: nat)
    requires IsFirstTone(cs, comp, rules, flags, nid, a) && IsFirstTone(cs, comp, rules, flags, nid, b)
    ensures a == b
  {
    hide ToneWorks, CharsetData.Good;
  }

  lemma OneLastMark(env: Env, comp: Composition, rules: seq<Rule>, nid: nat, a: nat, j: nat, b: nat, k: nat)
    requires IsLastMark(env, comp, rules, nid, a, j) && IsLastMark(env, comp, rules, nid, b, k)
    ensures a == b && j == k
  {
    hide MarkWorks, CharsetData.Good;
  }

  // The source's search answers with the rule that fits and its letter, and with nothing if none does.
  lemma TargetIsFit(env: Env, keys: seq<char>, comp: Composition, rules: seq<Rule>, flags: Flags, nid: nat)
    requires forall t :: t in comp ==> EntryOk(env.cs, keys, t)
    ensures forall target: nat, rule ::
              Fits(env, comp, rules, flags, nid, target, rule)
              <==> FindTarget(env, comp, rules, rules, flags, nid) == Some((target, rule))
    ensures NothingFits(env, comp, rules, flags, nid) <==> FindTarget(env, comp, rules, rules, flags, nid) == None
  {
    hide CharsetData.Good, FindTarget, FindMarkTarget, EntryOk, TonePlace, ToneWorks, IsLastMark, NoToneWorks,
         ClearsNothing;
    var found := FindTarget(env, comp, rules, rules, flags, nid);
    assert rules[0..] == rules;
    TargetFrom(env, keys, comp, rules, flags, nid, 0);
    if NoToneWorks(env.cs, comp, rules, flags, nid) {
      NoneBehind(env, comp, rules, nid);
      MarkTargetIs(env, comp, rules, |comp|, nid);
      forall target: nat, rule
        ensures Fits(env, comp, rules, flags, nid, target, rule) <==> found == Some((target, rule))
      {
        MarkFitIs(env, comp, rules, flags, nid, target, rule);
      }
    } else {
      var k: nat :| IsFirstTone(env.cs, comp, rules, flags, nid, k)
        && found == ToneFound(env.cs, comp, rules[k], flags);
      forall target: nat, rule
        ensures Fits(env, comp, rules, flags, nid, target, rule) <==> found == Some((target, rule))
      {
        ToneFitIs(env, comp, rules, flags, nid, k, target, rule);
      }
    }
    if found.Some? {
      assert Fits(env, comp, rules, flags, nid, found.value.0, found.value.1);
    }
  }

  lemma NoneBehind(env: Env, comp: Composition, rules: seq<Rule>, nid: nat)
    ensures NoMarkFrom(env, comp, rules, nid, |comp|)
  {
  }

  lemma ToneFitIs(env: Env, comp: Composition, rules: seq<Rule>, flags: Flags, nid: nat, k: nat, target: nat,
                  rule: Rule)
    requires IsFirstTone(env.cs, comp, rules, flags, nid, k)
    ensures Fits(env, comp, rules, flags, nid, target, rule)
            <==> ToneFound(env.cs, comp, rules[k], flags) == Some((target, rule))
  {
    hide CharsetData.Good, TonePlace, ToneWorks, ClearsNothing, IsLastMark;
    forall j: nat | IsFirstTone(env.cs, comp, rules, flags, nid, j) ensures j == k {
      OneFirstTone(env.cs, comp, rules, flags, nid, j, k);
    }
  }

  lemma MarkFitIs(env: Env, comp: Composition, rules: seq<Rule>, flags: Flags, nid: nat, target: nat, rule: Rule)
    requires NoToneWorks(env.cs, comp, rules, flags, nid)
    requires match FindMarkTarget(env, comp, rules, |comp|, nid)
             case None => NoMarkFrom(env, comp, rules, nid, 0)
             case Some((target, rule)) =>
               exists h: nat, k: nat ::
                 IsLastMark(env, comp, rules, nid, h, k) && rules[k] == rule && RootTarget(comp[h]) == target
    ensures Fits(env, comp, rules, flags, nid, target, rule)
            <==> FindMarkTarget(env, comp, rules, |comp|, nid) == Some((target, rule))
  {
    hide CharsetData.Good, TonePlace, ToneWorks, MarkWorks, ClearsNothing, FindMarkTarget;
    match FindMarkTarget(env, comp, rules, |comp|, nid)
    case None =>
    case Some((t, r)) =>
      var h: nat, k: nat :|
        IsLastMark(env, comp, rules, nid, h, k) && rules[k] == r && RootTarget(comp[h]) == t;
      forall i: nat, j: nat | IsLastMark(env, comp, rules, nid, i, j) ensures i == h && j == k {
        OneLastMark(env, comp, rules, nid, i, j, h, k);
      }
  }

  // ----- which syllables are valid -----

  // The text of a part of the syllable, without tones and case.
  function PartText(cs: Charset, comp: Composition, part: Composition): string {
    Canvas(cs, part + Attached(comp, part), TONELESS_LOWER)
  }

  // The tone set last may stand before the last consonants.
  ghost predicate LastToneAllowed(cs: Charset, comp: Composition) {
    forall i :: 0 <= i < |comp| && comp[i].rule.effectType == ToneTransformation
      && (forall j :: i < j < |comp| ==> comp[j].rule.effectType != ToneTransformation)
      ==> ToneAllowed(cs, comp, comp[i].rule.effect)
  }

  lemma {:induction false} LastToneAt(comp: Composition) returns (i: nat)
    ensures LastToneEffect(comp).None? ==> forall j :: 0 <= j < |comp| ==>
              comp[j].rule.effectType != ToneTransformation
    ensures LastToneEffect(comp).Some? ==>
              && i < |comp| && comp[i].rule.effectType == ToneTransformation
              && comp[i].rule.effect == LastToneEffect(comp).value
              && forall j :: i < j < |comp| ==> comp[j].rule.effectType != ToneTransformation
  {
    i := 0;
    if comp != [] {
      var n := |comp| - 1;
      if comp[n].rule.effectType == ToneTransformation {
        i := n;
      } else {
        i := LastToneAt(comp[..n]);
      }
    }
  }

  // One entry is valid; more are if the last tone is allowed and the texts of the three parts stand in the grammar.
  lemma SyllableIsValidIff(env: Env, comp: Composition, full: bool)
    ensures IsValid(env, comp, full) <==>
            || |comp| <= 1
            || (LastToneAllowed(env.cs, comp)
                && var c := ExtractCvcAppendingTrans(env.cs, TargetLess(comp));
                   IsValidCVC(env.cs, env.sp, PartText(env.cs, comp, c.fc), PartText(env.cs, comp, c.vo),
                              PartText(env.cs, comp, c.lc), full))
  {
    hide CharsetData.Good, IsValidCVC, ExtractCvcAppendingTrans, TargetLess, Canvas, Attached, HasValidTone,
         ToneAllowed;
    var last := LastToneEffect(comp);
    var i := LastToneAt(comp);
    if last.Some? {
      StopsAre(env.cs, comp, last.value);
    }
  }
}
