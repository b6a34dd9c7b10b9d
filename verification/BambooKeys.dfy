/**
 The engine's operations on a composition, as functions of the state: what a
 key, a backspace and a restore do.  BambooEngine.dfy is the mutable engine.
 */
module BambooKeys {
  import opened Options
  import opened BambooChars
  import opened BambooSpelling
  import opened BambooFlattener
  import opened BambooUtils

  datatype InputMethod = InputMethod(rules: seq<Rule>, superKeys: seq<char>, keys: seq<char>)

  // A composition and the next unused identity.
  datatype State = State(comp: Composition, nextId: nat)

  // Everything an engine is created with.
  datatype Config = Config(env: Env, im: InputMethod, flags: Flags)

  function ApplicableRules(cs: Charset, rules: seq<Rule>, key: char): (r: seq<Rule>)
    ensures forall rule :: rule in r ==> rule in rules && rule.key == cs.lower(key)
  {
    if rules == [] then []
    else (if rules[0].key == cs.lower(key) then [rules[0]] else []) + ApplicableRules(cs, rules[1..], key)
  }

  function RulesFor(c: Config, key: char): (r: seq<Rule>)
    ensures forall rule :: rule in r ==> rule in c.im.rules && rule.key == c.env.cs.lower(key)
  {
    ApplicableRules(c.env.cs, c.im.rules, key)
  }

  // The uwo+ shortcut: a virtual horn on the 'u' or 'o' that still lacks it.
  function UowShortcut(c: Config, syllable: Composition, nid: nat): Composition {
    if |c.im.superKeys| > 0 && HasUOhTail(c.env.cs, Canvas(c.env.cs, syllable, TONELESS_LOWER)) then
      var rules := RulesFor(c, c.im.superKeys[0]);
      match FindTarget(c.env, syllable, rules, rules, c.flags, nid)
      case Some((target, rule)) => [Candidate(nid, rule.(key := NUL), Some(target))]
      case None => []
    else []
  }

  // The transformations of a key, before the tone refresh.
  function KeyTransformations(c: Config, syllable: Composition, lowerKey: char, isUpperCase: bool,
                              nid: nat): Composition {
    var rules := RulesFor(c, lowerKey);
    var ts := GenerateTransformations(c.env, syllable, rules, c.flags, lowerKey, isUpperCase, nid);
    if ts != [] then ts
    else
      var fallback := GenerateFallback(c.env.cs, rules, lowerKey, isUpperCase, nid);
      fallback + UowShortcut(c, syllable + fallback, nid + |fallback|)
  }

  function Refresh(c: Config, syllable: Composition, nid: nat): (Composition, Composition) {
    if c.flags.free && IsValid(c.env, syllable, false)
    then RefreshLastToneTarget(c.env.cs, syllable, c.flags.std, nid)
    else (syllable, [])
  }

  // The last syllable after a key: its own entries, some retargeted, then the new ones.
  function NewSyllable(c: Config, syllable: Composition, lowerKey: char, isUpperCase: bool, nid: nat): Composition {
    var full := syllable + KeyTransformations(c, syllable, lowerKey, isUpperCase, nid);
    var (refreshed, extra) := Refresh(c, full, nid + |full| - |syllable|);
    refreshed + extra
  }

  function NewComposition(c: Config, comp: Composition, lowerKey: char, isUpperCase: bool, nid: nat): Composition {
    var (previous, syllable) := ExtractLastSyllable(c.env, comp);
    previous + NewSyllable(c, syllable, lowerKey, isUpperCase, nid)
  }

  // The new composition, and identities for whatever it added.
  function Advance(st: State, comp: Composition): State {
    State(comp, if |comp| > |st.comp| then st.nextId + |comp| - |st.comp| else st.nextId)
  }

  predicate IsProcessed(c: Config, key: char, english: bool) {
    !english && CanProcessKey(c.env.cs, c.env.cs.lower(key), c.im.keys)
  }

  function ProcessKey(c: Config, st: State, key: char, english: bool): State {
    var lowerKey, isUpperCase := c.env.cs.lower(key), c.env.cs.isUpper(key);
    Advance(st,
            if IsProcessed(c, key, english) then NewComposition(c, st.comp, lowerKey, isUpperCase, st.nextId)
            else st.comp + [NewAppendingTrans(st.nextId, lowerKey, isUpperCase)])
  }

  // The word typed again from its entries, one by one; entries without a key type the zero key.
  function Retyped(c: Config, word: Composition, nid: nat): State {
    if word == [] then State([], nid)
    else
      var n := |word| - 1;
      var st := Retyped(c, word[..n], nid);
      Advance(st, NewComposition(c, st.comp, word[n].rule.key, word[n].isUpperCase, st.nextId))
  }

  function RestoreLastWord(c: Config, st: State, toVietnamese: bool): State {
    var (previous, last) := ExtractLastWord(c.env.cs, st.comp, c.im.keys);
    if last == [] then st
    else if !toVietnamese then
      var broken := BreakComposition(last, st.nextId);
      State(previous + broken, st.nextId + |broken|)
    else
      var retyped := Retyped(c, last, st.nextId);
      State(previous + retyped.comp, retyped.nextId)
  }

  function Without(comp: Composition, letter: Trans): Composition {
    if comp == [] then []
    else
      var n := |comp| - 1;
      Without(comp[..n], letter)
      + (if comp[n].target == Some(letter.id) || comp[n].id == letter.id then [] else [comp[n]])
  }

  function RemoveLastChar(c: Config, st: State, refresh: bool): State {
    var last := FindLastAppending(st.comp);
    if last.None? then st
    else if !CanProcessKey(c.env.cs, last.value.rule.key, c.im.keys) then
      st.(comp := st.comp[..|st.comp| - 1])
    else
      var (previous, word) := ExtractLastWord(c.env.cs, st.comp, c.im.keys);
      var rest := Without(word, last.value);
      var (refreshed, extra) := if refresh then Refresh(c, rest, st.nextId) else (rest, []);
      State(previous + refreshed + extra, st.nextId + |extra|)
  }

  // Which part of the composition is asked for.
  datatype Extent = FullText | BehindSpace | LastWordOnly

  function ProcessedString(c: Config, st: State, mode: Mode, extent: Extent): string {
    match extent
    case FullText => Canvas(c.env.cs, st.comp, mode)
    case BehindSpace => Canvas(c.env.cs, ExtractBehindSpace(c.env.cs, st.comp).1, VIETNAMESE)
    case LastWordOnly => Canvas(c.env.cs, ExtractLastWord(c.env.cs, st.comp, c.im.keys).1, mode)
  }
}
