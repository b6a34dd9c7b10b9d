/**
 The composition utilities: splitting, validity, target search, and the
 transformations a key generates.  Pure searches are functions; the loops of the
 source are in BambooLoops.dfy, proved to compute these functions.
 */
module BambooUtils {
  import opened Options
  import opened BambooChars
  import opened BambooSpelling
  import opened BambooFlattener

  datatype Env = Env(cs: Charset, sp: Spelling)

  // EfreeToneMarking and EstdToneStyle.
  datatype Flags = Flags(free: bool, std: bool)

  const TONELESS_LOWER := Mode(false, true, false, true)
  const ENGLISH_LOWER := Mode(true, false, false, true)
  const ENGLISH_BASE := Mode(true, true, true, true)

  function FindLastAppending(comp: Composition): (r: Option<Trans>)
    ensures r.Some? ==> r.value in comp && IsAppending(r.value)
  {
    if comp == [] then None
    else
      var n := |comp| - 1;
      if IsAppending(comp[n]) then Some(comp[n]) else FindLastAppending(comp[..n])
  }

  function NewAppendingTrans(id: nat, key: char, isUpperCase: bool): Trans {
    Trans(id, Rule(key, 0, Appending, key, key, []), None, isUpperCase)
  }

  function AppendingRuleFor(rules: seq<Rule>, lowerKey: char): Option<Rule> {
    if rules == [] then None
    else if rules[0].key == lowerKey && rules[0].effectType == Appending then Some(rules[0])
    else AppendingRuleFor(rules[1..], lowerKey)
  }

  function LoweredRule(cs: Charset, rule: Rule): Rule {
    rule.(effectOn := cs.lower(rule.effectOn), result := cs.lower(rule.effectOn))
  }

  function GenerateAppendingTrans(cs: Charset, rules: seq<Rule>, lowerKey: char, isUpperCase: bool, id: nat): Trans {
    match AppendingRuleFor(rules, lowerKey)
    case Some(rule) => Trans(id, LoweredRule(cs, rule), None, isUpperCase || cs.isUpper(rule.effectOn))
    case None => NewAppendingTrans(id, lowerKey, isUpperCase)
  }

  function FilterAppending(comp: Composition): Composition {
    if comp == [] then []
    else
      var n := |comp| - 1;
      FilterAppending(comp[..n]) + (if IsAppending(comp[n]) then [comp[n]] else [])
  }

  // ----- the consonant-vowel-consonant split -----

  function TargetLess(comp: Composition): Composition {
    if comp == [] then []
    else
      var n := |comp| - 1;
      TargetLess(comp[..n]) + (if comp[n].target.None? then [comp[n]] else [])
  }

  function TargetedAt(comp: Composition, id: nat): Composition {
    if comp == [] then []
    else
      var n := |comp| - 1;
      TargetedAt(comp[..n], id) + (if comp[n].target == Some(id) then [comp[n]] else [])
  }

  function Attached(comp: Composition, letters: Composition): Composition {
    if letters == [] then []
    else
      var n := |letters| - 1;
      Attached(comp, letters[..n]) + TargetedAt(comp, letters[n].id)
  }

  predicate StopsRun(cs: Charset, t: Trans, lastIsVowel: bool) {
    t.target.None? && lastIsVowel != IsVowel(cs, t.rule.result)
  }

  function ExtractAtomicTrans(cs: Charset, comp: Composition, last: Composition, lastIsVowel: bool)
    : (r: (Composition, Composition))
    ensures r.0 + r.1 == comp + last
  {
    if comp == [] then (comp, last)
    else
      var n := |comp| - 1;
      if StopsRun(cs, comp[n], lastIsVowel) then (comp, last)
      else
        assert comp == comp[..n] + [comp[n]];
        ExtractAtomicTrans(cs, comp[..n], [comp[n]] + last, lastIsVowel)
  }

  // `voIsNil` keeps the difference between Go's nil slice and an empty one.
  datatype Cvc = Cvc(fc: Composition, vo: Composition, lc: Composition, voIsNil: bool)

  // 'gi' and 'qu' are consonants, except in 'gie' followed by a consonant.
  predicate IsQualifiedConsonant(fc: Composition, vo: Composition, lc: Composition) {
    |fc| == 1 && |vo| > 0
    && ((fc[0].rule.result == 'g' && vo[0].rule.result == 'i' && |vo| > 1
         && !(vo[1].rule.result == 'e' && |lc| > 0))
        || (fc[0].rule.result == 'q' && vo[0].rule.result == 'u'))
  }

  function ExtractCvcAppendingTrans(cs: Charset, comp: Composition): (r: Cvc)
    ensures r.fc + r.vo + r.lc == comp
  {
    var (head, lastConsonant) := ExtractAtomicTrans(cs, comp, [], false);
    var (firstConsonant, vowel) := ExtractAtomicTrans(cs, head, [], true);
    var voIsNil := vowel == [];
    assert comp + [] == comp && head + [] == head;
    if |lastConsonant| > 0 && |vowel| == 0 && |firstConsonant| == 0 then
      Cvc(lastConsonant, [], [], true)
    else if IsQualifiedConsonant(firstConsonant, vowel, lastConsonant) then
      assert firstConsonant + [vowel[0]] + vowel[1..] == firstConsonant + vowel;
      Cvc(firstConsonant + [vowel[0]], vowel[1..], lastConsonant, voIsNil)
    else
      Cvc(firstConsonant, vowel, lastConsonant, voIsNil)
  }

  function ExtractCvcTrans(cs: Charset, comp: Composition): Cvc {
    var c := ExtractCvcAppendingTrans(cs, TargetLess(comp));
    c.(fc := c.fc + Attached(comp, c.fc), vo := c.vo + Attached(comp, c.vo), lc := c.lc + Attached(comp, c.lc))
  }

  // ----- validity -----

  const STOP_CONSONANTS: seq<string> := ["c", "k", "p", "t", "ch"]

  predicate HasValidTone(cs: Charset, comp: Composition, tone: Effect) {
    if tone == TONE_NONE || tone == TONE_ACUTE || tone == TONE_DOT then true
    else
      var lc := ExtractCvcTrans(cs, comp).lc;
      lc == [] || Canvas(cs, lc, ENGLISH_LOWER) !in STOP_CONSONANTS
  }

  function LastToneEffect(comp: Composition): Option<Effect> {
    if comp == [] then None
    else
      var n := |comp| - 1;
      if comp[n].rule.effectType == ToneTransformation then Some(comp[n].rule.effect) else LastToneEffect(comp[..n])
  }

  predicate IsValid(env: Env, comp: Composition, full: bool) {
    if |comp| <= 1 then true
    else
      var lastTone := LastToneEffect(comp);
      if lastTone.Some? && !HasValidTone(env.cs, comp, lastTone.value) then false
      else
        var c := ExtractCvcTrans(env.cs, comp);
        IsValidCVC(env.cs, env.sp, Canvas(env.cs, c.fc, TONELESS_LOWER), Canvas(env.cs, c.vo, TONELESS_LOWER),
                   Canvas(env.cs, c.lc, TONELESS_LOWER), full)
  }

  // ----- target search -----

  // The target named by the last vowel entry that yields 'ơ' or 'ê'.
  function StdVowelTarget(vo: Composition): Option<nat> {
    if vo == [] then None
    else
      var t := vo[|vo| - 1];
      if t.rule.result == 'ơ' || t.rule.result == 'ê' then
        (if t.target.Some? then t.target else Some(t.id))
      else StdVowelTarget(vo[..|vo| - 1])
  }

  // The vowel that carries the tone of a syllable with the vowel part `vo`.
  function PickToneVowel(cs: Charset, vo: Composition, hasLastConsonant: bool, std: bool): Option<nat> {
    var vowels := FilterAppending(vo);
    if |vowels| == 1 then Some(vowels[0].id)
    else if |vowels| == 2 && std then
      var t := StdVowelTarget(vo);
      if t.Some? then t else if hasLastConsonant then Some(vowels[1].id) else Some(vowels[0].id)
    else if |vowels| == 2 then
      if hasLastConsonant || Canvas(cs, vowels, ENGLISH_BASE) in ["oa", "oe", "uy", "ue", "uo"]
      then Some(vowels[1].id) else Some(vowels[0].id)
    else if |vowels| == 3 then
      if Canvas(cs, vowels, ENGLISH_BASE) == "uye" then Some(vowels[2].id) else Some(vowels[1].id)
    else None
  }

  function FindToneTarget(cs: Charset, comp: Composition, std: bool): Option<nat> {
    if comp == [] then None
    else
      var c := ExtractCvcTrans(cs, comp);
      PickToneVowel(cs, c.vo, c.lc != [], std)
  }

  // Where a tone key puts its tone.
  function ToneTargetFor(cs: Charset, comp: Composition, tone: Effect, flags: Flags): Option<nat> {
    if flags.free then
      if HasValidTone(cs, comp, tone) then FindToneTarget(cs, comp, flags.std) else None
    else
      var last := FindLastAppending(comp);
      if last.Some? && IsVowel(cs, last.value.rule.effectOn) then Some(last.value.id) else None
  }

  // findRootTarget, for targets that have no target themselves (see RootIsOneStepAway).
  function RootTarget(t: Trans): nat {
    match t.target
    case None => t.id
    case Some(id) => id
  }

  predicate IsFree(comp: Composition, target: Option<nat>, effectType: EffectType) {
    forall i :: 0 <= i < |comp| ==> !(comp[i].target == target && comp[i].rule.effectType == effectType)
  }

  function ResultOf(comp: Composition, id: nat): char {
    if comp == [] then NUL
    else
      var n := |comp| - 1;
      if comp[n].id == id then comp[n].rule.result else ResultOf(comp[..n], id)
  }

  function Candidate(id: nat, rule: Rule, target: Option<nat>): Trans {
    Trans(id, rule, target, false)
  }

  // The effect of `rule` on the root target of `t` would show, and leave a valid syllable.
  predicate MarkFits(env: Env, comp: Composition, t: Trans, rule: Rule, nid: nat) {
    && rule.effectType == MarkTransformation
    && t.rule.result == rule.effectOn && rule.effect > 0
    && Canvas(env.cs, comp, VIETNAMESE)
         != Canvas(env.cs, comp + [Candidate(nid, rule, Some(RootTarget(t)))], VIETNAMESE)
    && IsValid(env, comp + [Candidate(nid, rule, Some(RootTarget(t)))], false)
  }

  function MarkRuleFor(env: Env, comp: Composition, t: Trans, rules: seq<Rule>, nid: nat): Option<Rule> {
    if rules == [] then None
    else if MarkFits(env, comp, t, rules[0], nid) then Some(rules[0])
    else MarkRuleFor(env, comp, t, rules[1..], nid)
  }

  // The last entry, and for it the first rule, that fits; `i` entries are still to be searched.
  function FindMarkTarget(env: Env, comp: Composition, rules: seq<Rule>, i: nat, nid: nat): Option<(nat, Rule)>
    requires i <= |comp|
  {
    if i == 0 then None
    else
      match MarkRuleFor(env, comp, comp[i - 1], rules, nid)
      case Some(rule) => Some((RootTarget(comp[i - 1]), rule))
      case None => FindMarkTarget(env, comp, rules, i - 1, nid)
  }

  // Tone rules first, in order; `tones` are the rules still to be tried.
  function FindTarget(env: Env, comp: Composition, rules: seq<Rule>, tones: seq<Rule>, flags: Flags, nid: nat)
    : Option<(nat, Rule)>
  {
    if tones == [] then FindMarkTarget(env, comp, rules, |comp|, nid)
    else
      var rule := tones[0];
      if rule.effectType != ToneTransformation then FindTarget(env, comp, rules, tones[1..], flags, nid)
      else
        var target := ToneTargetFor(env.cs, comp, rule.effect, flags);
        if Canvas(env.cs, comp, VIETNAMESE) == Canvas(env.cs, comp + [Candidate(nid, rule, target)], VIETNAMESE)
        then FindTarget(env, comp, rules, tones[1..], flags, nid)
        else
          EffectThatShows(env.cs, comp, Candidate(nid, rule, target), VIETNAMESE);
          if rule.effect == TONE_NONE && IsFree(comp, target, ToneTransformation)
             && FindToneFromChar(env.cs, ResultOf(comp, target.value)) == TONE_NONE
          then None
          else Some((target.value, rule))
  }

  // ----- undo -----

  const UNDO_TONE := Rule(NUL, TONE_NONE, ToneTransformation, NUL, NUL, [])
  const UNDO_MARK := Rule(NUL, MARK_NONE, MarkTransformation, NUL, NUL, [])

  predicate UndoShows(cs: Charset, comp: Composition, t: Trans, rule: Rule, nid: nat) {
    && t.rule.result == rule.effectOn
    && Canvas(cs, comp, TONELESS_LOWER)
         != Canvas(cs, comp + [Candidate(nid, UNDO_MARK, Some(RootTarget(t)))], TONELESS_LOWER)
  }

  function UndoMarks(cs: Charset, comp: Composition, rule: Rule, i: nat, nid: nat): Composition
    requires i <= |comp|
  {
    if i == 0 then []
    else if UndoShows(cs, comp, comp[i - 1], rule, nid) then
      [Candidate(nid, UNDO_MARK, Some(RootTarget(comp[i - 1])))] + UndoMarks(cs, comp, rule, i - 1, nid + 1)
    else UndoMarks(cs, comp, rule, i - 1, nid)
  }

  function UndoRule(cs: Charset, comp: Composition, rule: Rule, flags: Flags, nid: nat): Composition {
    match rule.effectType
    case ToneTransformation =>
      var target := ToneTargetFor(cs, comp, rule.effect, flags);
      if target.None? then [] else [Candidate(nid, UNDO_TONE, target)]
    case MarkTransformation => UndoMarks(cs, comp, rule, |comp|, nid)
    case _ => []
  }

  function GenerateUndo(cs: Charset, comp: Composition, rules: seq<Rule>, flags: Flags, nid: nat): Composition {
    if rules == [] then []
    else
      var first := UndoRule(cs, comp, rules[0], flags, nid);
      first + GenerateUndo(cs, comp, rules[1..], flags, nid + |first|)
  }

  // ----- what a key generates -----

  // Double typing the key of an Appending rule: the last entry came from this key and shows something else.
  predicate IsRawDouble(comp: Composition, lowerKey: char) {
    comp != []
    && var rule := comp[|comp| - 1].rule;
       rule.effectType == Appending && rule.key == lowerKey && rule.key != rule.result
  }

  predicate PairAt(s: string, i: nat, a: char, b: char) {
    i + 1 < |s| && s[i] == a && s[i + 1] == b
  }

  // (ưo|ươ)
  predicate HasUhO(s: string) {
    exists i: nat :: i < |s| && (PairAt(s, i, 'ư', 'o') || PairAt(s, i, 'ư', 'ơ'))
  }

  // (uơ|ưo)\p{L}+
  predicate HasUOhTail(cs: Charset, s: string) {
    exists i: nat :: i < |s| - 2 && (PairAt(s, i, 'u', 'ơ') || PairAt(s, i, 'ư', 'o')) && cs.isLetter(s[i + 2])
  }

  // ươ + o -> uô: drop the horn of the first vowel, then apply the key to another vowel.
  function UoRewrite(env: Env, comp: Composition, rules: seq<Rule>, flags: Flags, isUpperCase: bool,
                     nid: nat): Composition {
    if !HasUhO(Canvas(env.cs, comp, TONELESS_LOWER)) then []
    else
      var vowels := FilterAppending(ExtractCvcTrans(env.cs, comp).vo);
      if vowels == [] then []  // the source would index an empty slice: see RewriteHasVowels
      else
        var drop := Candidate(nid, UNDO_MARK, Some(vowels[0].id));
        match FindTarget(env, comp + [drop], rules, rules, flags, nid + 1)
        case Some((target, rule)) =>
          if target != vowels[0].id then [drop, Trans(nid + 1, rule, Some(target), isUpperCase)] else []
        case None => []
  }

  // The rule on its target and, when a mark leaves an incomplete syllable, a virtual copy on a second target.
  function ApplyRule(env: Env, comp: Composition, rules: seq<Rule>, flags: Flags, target: nat, rule: Rule,
                     isUpperCase: bool, nid: nat): Composition
  {
    var applied := [Trans(nid, rule, Some(target), isUpperCase)];
    if rule.effectType != MarkTransformation || IsValid(env, comp + applied, true) then applied
    else
      match FindTarget(env, comp + applied, rules, rules, flags, nid + 1)
      case Some((target2, rule2)) => applied + [Candidate(nid + 1, rule2.(key := NUL), Some(target2))]
      case None => applied
  }

  // Empty means that nothing applies and the key falls back to a letter.
  function GenerateTransformations(env: Env, comp: Composition, rules: seq<Rule>, flags: Flags,
                                   lowerKey: char, isUpperCase: bool, nid: nat): Composition
  {
    if IsRawDouble(comp, lowerKey) then
      [Candidate(nid, Rule(NUL, MARK_RAW, MarkTransformation, NUL, NUL, []), Some(comp[|comp| - 1].id))]
    else
      match FindTarget(env, comp, rules, rules, flags, nid)
      case Some((target, rule)) =>
        ApplyRule(env, comp, rules, flags, target, rule, isUpperCase, nid)
      case None =>
        var rewrite := UoRewrite(env, comp, rules, flags, isUpperCase, nid);
        if rewrite != [] then rewrite
        else
          var undo := GenerateUndo(env.cs, comp, rules, flags, nid);
          if undo != [] then undo + [NewAppendingTrans(nid + |undo|, lowerKey, isUpperCase)] else []
  }

  function VirtualLetters(cs: Charset, appended: seq<Rule>, isUpperCase: bool, nid: nat): Composition {
    if appended == [] then []
    else
      [Trans(nid, LoweredRule(cs, appended[0]).(key := NUL), None, isUpperCase || cs.isUpper(appended[0].effectOn))]
      + VirtualLetters(cs, appended[1..], isUpperCase, nid + 1)
  }

  function GenerateFallback(cs: Charset, rules: seq<Rule>, lowerKey: char, isUpperCase: bool, nid: nat): Composition {
    var trans := GenerateAppendingTrans(cs, rules, lowerKey, isUpperCase, nid);
    [trans] + VirtualLetters(cs, trans.rule.appendedRules, isUpperCase, nid + 1)
  }

  function BreakComposition(comp: Composition, nid: nat): Composition {
    if comp == [] then []
    else
      var n := |comp| - 1;
      var broken := BreakComposition(comp[..n], nid);
      broken + (if comp[n].rule.key == NUL then []
                else [NewAppendingTrans(nid + |broken|, comp[n].rule.key, comp[n].isUpperCase)])
  }

  // ----- tone refresh -----

  // Index of the last tone entry that has a target, plus one; 0 if there is none.
  function LastToneIndex(comp: Composition): (r: nat)
    ensures r <= |comp|
    ensures r > 0 ==> comp[r - 1].rule.effectType == ToneTransformation && comp[r - 1].target.Some?
  {
    if comp == [] then 0
    else
      var n := |comp| - 1;
      if comp[n].rule.effectType == ToneTransformation && comp[n].target.Some? then |comp|
      else LastToneIndex(comp[..n])
  }

  // Retargets the last tone in place, and adds a virtual reset and a virtual copy of it.
  function RefreshLastToneTarget(cs: Charset, comp: Composition, std: bool, nid: nat): (Composition, Composition) {
    var i := LastToneIndex(comp);
    if ExtractCvcTrans(cs, comp).voIsNil || i == 0 then (comp, [])
    else
      var target := FindToneTarget(cs, comp, std);
      if comp[i - 1].target == target then (comp, [])
      else
        (comp[i - 1 := comp[i - 1].(target := target)],
         [Candidate(nid, UNDO_TONE, target), Candidate(nid + 1, comp[i - 1].rule.(key := NUL), target)])
  }

  // ----- cutting off the last word and the last syllable -----

  // The first letter of the text of `comp` is not part of a word.
  predicate StartsWithBreak(cs: Charset, comp: Composition, keys: seq<char>) {
    var canvas := Canvas(cs, comp, BASE_LETTERS);
    canvas != [] && !IsWordChar(canvas[0], keys)
  }

  // The position after the last break among the first `i` entries; 0 if there is none.
  function LastBreak(cs: Charset, comp: Composition, keys: seq<char>, i: nat): (r: nat)
    requires i <= |comp|
    ensures r <= i
  {
    if i == 0 then 0
    else if StartsWithBreak(cs, comp[i - 1..], keys) then i
    else LastBreak(cs, comp, keys, i - 1)
  }

  function ExtractLastWord(cs: Charset, comp: Composition, keys: seq<char>): (r: (Composition, Composition))
    ensures r.0 + r.1 == comp
  {
    var i := LastBreak(cs, comp, keys, |comp|);
    (comp[..i], comp[i..])
  }

  // The first key recorded in `comp` is a space.
  predicate StartsWithSpace(cs: Charset, comp: Composition) {
    var canvas := Canvas(cs, comp, ENGLISH);
    canvas != [] && canvas[0] == ' '
  }

  // The position after the last recorded space among the first `i` entries; 0 if there is none.
  function LastSpace(cs: Charset, comp: Composition, i: nat): (r: nat)
    requires i <= |comp|
    ensures r <= i
  {
    if i == 0 then 0
    else if StartsWithSpace(cs, comp[i - 1..]) then i
    else LastSpace(cs, comp, i - 1)
  }

  // extractLastWordWithPunctuationMarks.
  function ExtractBehindSpace(cs: Charset, comp: Composition): (r: (Composition, Composition))
    ensures r.0 + r.1 == comp
  {
    var i := LastSpace(cs, comp, |comp|);
    (comp[..i], comp[i..])
  }

  // The anchor after the first `n` entries of the last word have been scanned.
  function Anchor(env: Env, last: Composition, n: nat): (r: nat)
    requires n <= |last|
    ensures r <= n && (n > 0 ==> r < n)
  {
    if n == 0 then 0
    else
      var anchor := Anchor(env, last, n - 1);
      if IsValid(env, last[anchor..n], false) then anchor else n - 1
  }

  function ExtractLastSyllable(env: Env, comp: Composition): (r: (Composition, Composition))
    ensures r.0 + r.1 == comp
  {
    var (previous, last) := ExtractLastWord(env.cs, comp, []);
    var anchor := Anchor(env, last, |last|);
    (previous + last[..anchor], last[anchor..])
  }
}
