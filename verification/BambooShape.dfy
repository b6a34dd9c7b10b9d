/**
 The pointer shape of a composition, and what every search and generator of
 BambooUtils promises about it.
 */
module BambooShape {
  import opened Options
  import opened BambooChars
  import opened BambooSpelling
  import opened BambooFlattener
  import opened BambooUtils
  import opened BambooKeys

  // ----- what a parsed input method guarantees -----

  predicate GoodAppended(cs: Charset, r: Rule) {
    IsAppendingRule(r) && IsAlpha(BaseLetter(cs, cs.lower(r.effectOn)))
  }

  predicate IsAppendingRule(r: Rule) {
    r.effectType == Appending
  }

  predicate GoodRule(cs: Charset, keys: seq<char>, r: Rule) {
    && r.key != NUL && r.key in keys && cs.lower(r.key) == r.key
    && r.effectType != Replacing
    && (r.effectType == ToneTransformation ==> !IsVowel(cs, r.result))
    && (r.effectType == MarkTransformation ==> r.effect != MARK_RAW)
    && (IsAppendingRule(r) ==> GoodAppended(cs, r) && forall a :: a in r.appendedRules ==> GoodAppended(cs, a))
    && (IsAppendingRule(r) && cs.isUpper(r.effectOn) ==> cs.upper(r.key) == r.key)
  }

  ghost predicate GoodMethod(cs: Charset, im: InputMethod) {
    && (forall r :: r in im.rules ==> GoodRule(cs, im.keys, r))
    && (forall k :: k in im.keys ==> cs.lower(k) == k && k != NUL)
  }

  ghost predicate NoAppending(im: InputMethod) {
    forall r :: r in im.rules ==> !IsAppendingRule(r)
  }

  // ----- the shape -----

  predicate IsPlain(cs: Charset, t: Trans) {
    t.rule.key == t.rule.effectOn == t.rule.result && cs.lower(t.rule.key) == t.rule.key && t.rule.key != NUL
  }

  predicate EntryOk(cs: Charset, keys: seq<char>, t: Trans) {
    match t.rule.effectType
    case Appending =>
      && t.target.None?
      && t.rule.effectOn == t.rule.result && cs.lower(t.rule.effectOn) == t.rule.effectOn
      && (IsPlain(cs, t) || (IsAlpha(BaseLetter(cs, t.rule.effectOn)) && (t.rule.key == NUL || t.rule.key in keys)))
    case MarkTransformation => t.target.Some? && (t.rule.key == NUL || t.rule.key in keys)
    case ToneTransformation => !IsVowel(cs, t.rule.result) && (t.rule.key == NUL || t.rule.key in keys)
    case Replacing => false
  }

  // A letter that ends a word whatever effects it carries.
  predicate IsBreak(cs: Charset, keys: seq<char>, t: Trans) {
    && IsRendered(t, false)
    && !IsWordChar(BaseLetter(cs, t.rule.effectOn), keys)
    && !IsWordChar(BaseLetter(cs, t.rule.key), keys)
  }

  // Identities are distinct and below the next one.
  ghost predicate Distinct(comp: Composition, nid: nat) {
    && (forall i, j :: 0 <= i < j < |comp| ==> comp[i].id != comp[j].id)
    && (forall i :: 0 <= i < |comp| ==> comp[i].id < nid)
  }

  ghost predicate WellFormed(cs: Charset, keys: seq<char>, comp: Composition, nid: nat) {
    Distinct(comp, nid) && forall t :: t in comp ==> EntryOk(cs, keys, t)
  }

  ghost predicate HasLetter(comp: Composition, id: nat) {
    exists x :: x in comp && x.id == id && IsAppending(x)
  }

  // Every target is a letter of `home`.
  ghost predicate TargetsIn(comp: Composition, home: Composition) {
    forall t :: t in comp && t.target.Some? ==> HasLetter(home, t.target.value)
  }

  // Each non-nil target is an Appending entry with nil target in the same composition.
  ghost predicate Shape(cs: Charset, keys: seq<char>, comp: Composition, nid: nat) {
    WellFormed(cs, keys, comp, nid) && TargetsIn(comp, comp)
  }

  lemma WellFormedParts(cs: Charset, keys: seq<char>, a: Composition, b: Composition, nid: nat)
    requires WellFormed(cs, keys, a + b, nid)
    ensures WellFormed(cs, keys, a, nid) && WellFormed(cs, keys, b, nid)
  {
    var ab := a + b;
    forall i, j | 0 <= i < j < |a| ensures a[i].id != a[j].id { assert ab[i].id != ab[j].id; }
    forall i | 0 <= i < |a| ensures a[i].id < nid { assert ab[i] == a[i]; }
    forall i, j | 0 <= i < j < |b| ensures b[i].id != b[j].id { assert ab[|a| + i].id != ab[|a| + j].id; }
    forall i | 0 <= i < |b| ensures b[i].id < nid { assert ab[|a| + i] == b[i]; }
  }

  // ----- the recursion of findRootTarget -----

  function Find(comp: Composition, id: nat): (r: Option<Trans>)
    ensures r.Some? ==> r.value in comp && r.value.id == id
    ensures r.None? ==> forall t :: t in comp ==> t.id != id
  {
    if comp == [] then None
    else
      var n := |comp| - 1;
      if comp[n].id == id then Some(comp[n])
      else
        assert comp == comp[..n] + [comp[n]];
        Find(comp[..n], id)
  }

  // Follows target pointers at most `depth` times; None if the chain is longer or dangles.
  function FindRootTarget(comp: Composition, t: Trans, depth: nat): Option<nat>
    decreases depth
  {
    if t.target.None? then Some(t.id)
    else if depth == 0 then None
    else
      match Find(comp, t.target.value)
      case None => None
      case Some(x) => FindRootTarget(comp, x, depth - 1)
  }

  // Chains end after at most one step, so the recursion terminates with RootTarget.
  lemma RootIsOneStepAway(cs: Charset, keys: seq<char>, comp: Composition, nid: nat, t: Trans, depth: nat)
    requires Shape(cs, keys, comp, nid) && t in comp && depth > 0
    ensures FindRootTarget(comp, t, depth) == Some(RootTarget(t))
  {
    if t.target.Some? {
      var x :| x in comp && x.id == t.target.value && IsAppending(x);
      var y := Find(comp, t.target.value).value;
      assert y == x;
      assert EntryOk(cs, keys, x);
    }
  }

  // ----- members of the CVC split -----

  lemma {:induction false} TargetLessMembers(comp: Composition)
    ensures forall t :: t in TargetLess(comp) <==> t in comp && t.target.None?
  {
    if comp != [] {
      TargetLessMembers(comp[..|comp| - 1]);
      assert comp == comp[..|comp| - 1] + [comp[|comp| - 1]];
    }
  }

  lemma {:induction false} TargetedMembers(comp: Composition, id: nat)
    ensures forall t :: t in TargetedAt(comp, id) <==> t in comp && t.target == Some(id)
  {
    if comp != [] {
      TargetedMembers(comp[..|comp| - 1], id);
      assert comp == comp[..|comp| - 1] + [comp[|comp| - 1]];
    }
  }

  lemma {:induction false} AttachedMembers(comp: Composition, letters: Composition)
    ensures forall t ::
              t in Attached(comp, letters) <==> t in comp && exists l :: l in letters && t.target == Some(l.id)
  {
    if letters != [] {
      var n := |letters| - 1;
      AttachedMembers(comp, letters[..n]);
      TargetedMembers(comp, letters[n].id);
      assert letters == letters[..n] + [letters[n]];
    }
  }

  lemma {:induction false} FilterAppendingMembers(comp: Composition)
    ensures forall t :: t in FilterAppending(comp) <==> t in comp && IsAppending(t)
  {
    if comp != [] {
      FilterAppendingMembers(comp[..|comp| - 1]);
      assert comp == comp[..|comp| - 1] + [comp[|comp| - 1]];
    }
  }

  // What extractAtomicTrans moves over never stops the run, and the entry it leaves last does.
  lemma {:induction false} AtomicRun(cs: Charset, comp: Composition, last: Composition, lastIsVowel: bool)
    ensures var r := ExtractAtomicTrans(cs, comp, last, lastIsVowel);
            && |r.0| <= |comp|
            && r.0 == comp[..|r.0|] && r.1 == comp[|r.0|..] + last
            && (forall i :: |r.0| <= i < |comp| ==> !StopsRun(cs, comp[i], lastIsVowel))
            && (r.0 != [] ==> StopsRun(cs, r.0[|r.0| - 1], lastIsVowel))
  {
    if comp != [] && !StopsRun(cs, comp[|comp| - 1], lastIsVowel) {
      var n := |comp| - 1;
      AtomicRun(cs, comp[..n], [comp[n]] + last, lastIsVowel);
      var r := ExtractAtomicTrans(cs, comp, last, lastIsVowel);
      assert comp[..n][|r.0|..] + ([comp[n]] + last) == comp[|r.0|..] + last;
    }
  }

  // For target-less entries: the vowel part is vowels, the last part is not.
  lemma CvcParts(cs: Charset, comp: Composition)
    requires forall t :: t in comp ==> t.target.None?
    ensures var c := ExtractCvcAppendingTrans(cs, comp);
            && (forall t :: t in c.vo ==> t in comp && IsVowel(cs, t.rule.result))
            && (forall t :: t in c.lc ==> t in comp && !IsVowel(cs, t.rule.result))
  {
    hide ExtractAtomicTrans, IsVowel;
    AtomicRun(cs, comp, [], false);
    var (head, lastConsonant) := ExtractAtomicTrans(cs, comp, [], false);
    AtomicRun(cs, head, [], true);
    assert comp[|head|..] + [] == lastConsonant;
    var (fc, vowel) := ExtractAtomicTrans(cs, head, [], true);
    assert vowel == head[|fc|..];
    forall t | t in vowel ensures t in comp && IsVowel(cs, t.rule.result) {
      var i :| |fc| <= i < |head| && head[i] == t;
      assert comp[i] == t;
    }
    forall t | t in lastConsonant ensures t in comp && !IsVowel(cs, t.rule.result) {
      var i :| |head| <= i < |comp| && comp[i] == t;
    }
  }

  // ----- every target found is a letter of the composition -----

  lemma VowelPartMembers(cs: Charset, keys: seq<char>, comp: Composition, nid: nat)
    requires WellFormed(cs, keys, comp, nid)
    ensures var vo := ExtractCvcTrans(cs, comp).vo;
            forall t :: t in vo ==> t in comp && HasLetter(comp, if t.target.Some? then t.target.value else t.id)
  {
    TargetLessMembers(comp);
    var list := TargetLess(comp);
    CvcParts(cs, list);
    var vo := ExtractCvcAppendingTrans(cs, list).vo;
    AttachedMembers(comp, vo);
    forall v | v in vo ensures v in comp && IsAppending(v) {
      assert EntryOk(cs, keys, v);
    }
  }

  lemma {:induction false} StdVowelTargetIsEntry(vo: Composition)
    ensures StdVowelTarget(vo).Some? ==>
              exists t :: t in vo && StdVowelTarget(vo).value == (if t.target.Some? then t.target.value else t.id)
  {
    if vo != [] {
      var n := |vo| - 1;
      assert vo[n] in vo;
      if !(vo[n].rule.result == 'ơ' || vo[n].rule.result == 'ê') {
        StdVowelTargetIsEntry(vo[..n]);
      }
    }
  }

  lemma PickedVowelIsEntry(cs: Charset, vo: Composition, hasLastConsonant: bool, std: bool)
    ensures var r := PickToneVowel(cs, vo, hasLastConsonant, std);
            r.Some? ==> exists t :: t in vo && ((IsAppending(t) && r.value == t.id)
                                                || r.value == (if t.target.Some? then t.target.value else t.id))
  {
    StdVowelTargetIsEntry(vo);
    FilterAppendingMembers(vo);
    var vowels := FilterAppending(vo);
    forall i | 0 <= i < |vowels| ensures vowels[i] in vo && IsAppending(vowels[i]) {
      assert vowels[i] in vowels;
    }
  }

  lemma ToneTargetIsLetter(cs: Charset, keys: seq<char>, comp: Composition, std: bool, nid: nat)
    requires WellFormed(cs, keys, comp, nid)
    ensures FindToneTarget(cs, comp, std).Some? ==> HasLetter(comp, FindToneTarget(cs, comp, std).value)
  {
    if comp != [] {
      var c := ExtractCvcTrans(cs, comp);
      VowelPartMembers(cs, keys, comp, nid);
      PickedVowelIsEntry(cs, c.vo, c.lc != [], std);
    }
  }

  lemma ToneKeyTargetIsLetter(cs: Charset, keys: seq<char>, comp: Composition, tone: Effect, flags: Flags, nid: nat)
    requires WellFormed(cs, keys, comp, nid)
    ensures var t := ToneTargetFor(cs, comp, tone, flags); t.Some? ==> HasLetter(comp, t.value)
  {
    ToneTargetIsLetter(cs, keys, comp, flags.std, nid);
  }

  // An effect that shows decorates a letter of the composition.
  lemma ShownTargetIsLetter(cs: Charset, comp: Composition, t: Trans, mode: Mode)
    requires !mode.english && !IsAppending(t)
    requires Canvas(cs, comp + [t], mode) != Canvas(cs, comp, mode)
    ensures t.target.Some? && HasLetter(comp, t.target.value)
  {
    EffectThatShows(cs, comp, t, mode);
  }

  lemma {:induction false} MarkRuleIsRule(env: Env, comp: Composition, t: Trans, rules: seq<Rule>, nid: nat)
    ensures MarkRuleFor(env, comp, t, rules, nid).Some? ==>
              var r := MarkRuleFor(env, comp, t, rules, nid).value; r in rules && MarkFits(env, comp, t, r, nid)
  {
    if rules != [] && !MarkFits(env, comp, t, rules[0], nid) {
      MarkRuleIsRule(env, comp, t, rules[1..], nid);
    }
  }

  lemma {:induction false} MarkTargetIsLetter(env: Env, comp: Composition, rules: seq<Rule>, i: nat, nid: nat)
    requires i <= |comp|
    ensures var r := FindMarkTarget(env, comp, rules, i, nid);
            r.Some? ==> HasLetter(comp, r.value.0) && r.value.1 in rules && r.value.1.effectType == MarkTransformation
  {
    if i > 0 {
      MarkRuleIsRule(env, comp, comp[i - 1], rules, nid);
      match MarkRuleFor(env, comp, comp[i - 1], rules, nid)
      case Some(rule) =>
        ShownTargetIsLetter(env.cs, comp, Candidate(nid, rule, Some(RootTarget(comp[i - 1]))), VIETNAMESE);
      case None =>
        MarkTargetIsLetter(env, comp, rules, i - 1, nid);
    }
  }

  lemma {:induction false} TargetIsLetter(env: Env, comp: Composition, rules: seq<Rule>, tones: seq<Rule>, flags: Flags,
                                          nid: nat)
    requires forall r :: r in tones ==> r in rules
    ensures var r := FindTarget(env, comp, rules, tones, flags, nid);
            r.Some? ==> HasLetter(comp, r.value.0) && r.value.1 in rules
                        && !IsAppendingRule(r.value.1)
  {
    if tones == [] {
      MarkTargetIsLetter(env, comp, rules, |comp|, nid);
    } else {
      assert tones[0] in rules;
      TargetIsLetter(env, comp, rules, tones[1..], flags, nid);
      var target := ToneTargetFor(env.cs, comp, tones[0].effect, flags);
      if tones[0].effectType == ToneTransformation
         && Canvas(env.cs, comp, VIETNAMESE) != Canvas(env.cs, comp + [Candidate(nid, tones[0], target)], VIETNAMESE) {
        ShownTargetIsLetter(env.cs, comp, Candidate(nid, tones[0], target), VIETNAMESE);
      }
    }
  }
}
