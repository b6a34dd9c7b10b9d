/**
 Words typed on the tables of the source: "as" shows "á", "loanj" shows "loạn", and "hoas" shows "hóa" or "hoá",
 as the style of tone marking asks.
 */
module BambooTyping {
  import opened Options
  import opened BambooChars
  import opened BambooTables
  import opened BambooSpelling
  import opened BambooSpellingTables
  import opened BambooFlattener
  import opened BambooUtils
  import opened BambooKeys
  import opened BambooShape
  import opened BambooGenerators
  import opened BambooWords
  import opened BambooRuns
  import opened BambooBackspace
  import opened BambooDrop
  import opened BambooQu
  import opened BambooPlacement
  import opened BambooFits
  import opened BambooAnswers
  import opened BambooLetters
  import opened BambooKeyText
  import opened BambooGrammar

  const ACUTE := Rule('s', TONE_ACUTE, ToneTransformation, NUL, NUL, [])
  const DOT := Rule('j', TONE_DOT, ToneTransformation, NUL, NUL, [])
  const TONES := InputMethod([ACUTE, DOT], [], ['s', 'j'])

  // The tables of the source, and a case mapping that leaves the keys of these words alone.
  ghost predicate SourceConfig(c: Config) {
    && c.env.cs.vowels == Vowels() && c.env.cs.marks == MarksMaps() && c.env.sp == SOURCE_SPELLING
    && c.im == TONES && c.flags.free
    && forall k :: k in "aohlnsj" ==> c.env.cs.lower(k) == k && !c.env.cs.isUpper(k)
  }

  predicate IsWordText(text: string) {
    forall k :: k in text ==> k in "aohln"
  }

  // A word of letters typed one by one.
  function WordOf(text: string): (r: Composition)
    ensures |r| == |text| && forall i :: 0 <= i < |text| ==> r[i] == NewAppendingTrans(i, text[i], false)
  {
    seq(|text|, i requires 0 <= i < |text| => NewAppendingTrans(i, text[i], false))
  }

  function StateOf(text: string): State {
    State(WordOf(text), |text|)
  }

  // ----- the letters -----

  lemma VowelsAO(cs: Charset)
    requires cs.vowels == Vowels()
    ensures AddToneToChar(cs, 'a', 0) == 'a' && AddToneToChar(cs, 'o', 0) == 'o'
    ensures AddToneToChar(cs, 'a', TONE_ACUTE) == 'á' && AddToneToChar(cs, 'a', TONE_DOT) == 'ạ'
    ensures AddToneToChar(cs, 'o', TONE_ACUTE) == 'ó'
    ensures IsVowel(cs, 'a') && IsVowel(cs, 'o')
    ensures !IsVowel(cs, 'h') && !IsVowel(cs, 'l') && !IsVowel(cs, 'n') && !IsVowel(cs, NUL)
  {
    hide Position, Row, Vowels, AddToneToChar, CharsetData.Good;
    RowsOfA();
    Toned(cs, 0, 0);
    Toned(cs, 0, 2);
    Toned(cs, 0, 5);
    Toned(cs, 6, 0);
    Toned(cs, 6, 2);
    NoVowelKeys();
    Missing(cs, 'h');
    Missing(cs, 'l');
    Missing(cs, 'n');
    NotVowels();
    Missing(cs, NUL);
  }

  lemma RowsOfA()
    ensures Row(0)[0] == 'a' && Row(0)[2] == 'á' && Row(0)[5] == 'ạ' && Row(6)[0] == 'o' && Row(6)[2] == 'ó'
  {
  }

  lemma NoVowelKeys()
    ensures Position('h') == -1 && Position('l') == -1 && Position('n') == -1
  {
  }

  lemma HornVowels(cs: Charset)
    requires cs.vowels == Vowels()
    ensures HornsAreVowels(cs)
  {
    hide Position, Row, Vowels, AddToneToChar, CharsetData.Good;
    HornRows();
    Toned(cs, 8, 0);
    Toned(cs, 4, 0);
  }

  lemma HornRows()
    ensures Row(8)[0] == 'ơ' && Row(4)[0] == 'ê'
  {
  }

  lemma KeyOf(c: Config, k: char)
    requires SourceConfig(c) && k in "aohln"
    ensures var cs := c.env.cs;
            && cs.lower(k) == k && !cs.isUpper(k) && AddToneToChar(cs, k, 0) == k
            && (IsVowel(cs, k) <==> k == 'a' || k == 'o')
            && IsAlpha(k) && IsAlpha(BaseLetter(cs, k))
  {
    hide Position, Row, Vowels, MarksMaps, AddToneToChar, CharsetData.Good, IsVowel, Base;
    var cs := c.env.cs;
    VowelsAO(cs);
    NotTonable(cs, 'h');
    NotTonable(cs, 'l');
    NotTonable(cs, 'n');
    assert k == 'a' || k == 'o' || k == 'h' || k == 'l' || k == 'n';
    LowerKeys(c, k);
    BaseIsAlphaOrSelf(cs, k);
    AlphaStays(cs, Base(cs, k));
  }

  lemma LowerKeys(c: Config, k: char)
    requires SourceConfig(c) && k in "aohlnsj"
    ensures c.env.cs.lower(k) == k && !c.env.cs.isUpper(k)
  {
  }

  lemma MethodIsGood(c: Config)
    requires SourceConfig(c)
    ensures GoodMethod(c.env.cs, c.im)
  {
    hide CharsetData.Good, Position, Row, Vowels, MarksMaps, AddToneToChar, BaseLetter, IsVowel;
    VowelsAO(c.env.cs);
    LowerKeys(c, 's');
    LowerKeys(c, 'j');
  }

  lemma RulesOfTyping(c: Config, k: char)
    requires SourceConfig(c) && k in "aohlnsj"
    ensures KeyRules(c, k) == if k == 's' then [ACUTE] else if k == 'j' then [DOT] else []
  {
    hide CharsetData.Good, SourceConfig, ApplicableRules;
    LowerKeys(c, k);
    MethodIs(c);
    RulesByHand(c.env.cs, k);
  }

  lemma RulesByHand(cs: Charset, k: char)
    requires cs.lower(k) == k
    ensures ApplicableRules(cs, TONES.rules, k) == if k == 's' then [ACUTE] else if k == 'j' then [DOT] else []
  {
    hide CharsetData.Good;
    var rules := TONES.rules;
    assert rules[1..] == [DOT] && [DOT][1..] == [];
    assert ApplicableRules(cs, [], k) == [];
    assert ApplicableRules(cs, [DOT], k) == if k == 'j' then [DOT] else [];
  }

  // ----- typing letters -----

  // Letters only.
  predicate AreKeys(comp: Composition) {
    forall t :: t in comp ==> IsAppending(t) && t.target.None? && t.rule.key == t.rule.result
  }

  lemma WordIsKeys(text: string)
    ensures AreKeys(WordOf(text))
  {
  }

  lemma {:induction false} NoToneThere(comp: Composition)
    requires AreKeys(comp)
    ensures LastToneIndex(comp) == 0 && TargetLess(comp) == comp && LastToneEffect(comp) == None
  {
    if comp != [] {
      var n := |comp| - 1;
      assert comp[n] in comp && forall t :: t in comp[..n] ==> t in comp;
      NoToneThere(comp[..n]);
      assert comp == comp[..n] + [comp[n]];
    }
  }

  lemma NoRulesNothing(c: Config, st: State, key: char)
    requires KeyRules(c, key) == []
    ensures NothingFitsKey(c, st, key, []) && NothingRewrites(c, st, key) && !ClearsSomething(c, st, key)
  {
    hide CharsetData.Good, LastSyllable, RulesFor, ToneWorks, MarkWorks, TonePlace, VowelsOf, HasUhO, Canvas;
  }

  lemma LettersWithoutRules(c: Config, key: char, nid: nat, letters: Composition)
    requires AreLetters(c.env.cs, [], key, false, nid, letters)
    ensures letters == [NewAppendingTrans(nid, key, false)]
  {
    hide CharsetData.Good;
  }

  // A key without rules is one more letter.
  lemma TypesLetter(c: Config, text: string, k: char)
    requires SourceConfig(c) && IsWordText(text) && k in "aohln" && Inv(c, StateOf(text))
    ensures ProcessKey(c, StateOf(text), k, false) == StateOf(text + [k]) && Inv(c, StateOf(text + [k]))
  {
    hide CharsetData.Good, Vowels, MarksMaps, Inv, GoodMethod, CanProcessKey, ExtractLastSyllable, ProcessKey,
         NothingFits, NothingRewrites, ClearsSomething, AreLetters, RulesFor, AreKeys, IsValid, SourceConfig;
    var st := StateOf(text);
    MethodIsGood(c);
    KeyOf(c, k);
    Processed(c, k);
    WordIsKeys(text);
    LetterAppears(c, st, k);
    assert WordOf(text) + [NewAppendingTrans(|text|, k, false)] == WordOf(text + [k]);
    ProcessedKey(c, st, k);
    NextState(c, st, k, WordOf(text + [k]));
  }

  lemma LetterAppears(c: Config, st: State, k: char)
    requires SourceConfig(c) && k in "aohln" && IsTyped(c, st, k) && AreKeys(st.comp)
    ensures ProcessKey(c, st, k, false).comp == st.comp + [NewAppendingTrans(st.nextId, k, false)]
  {
    hide CharsetData.Good, Inv, GoodMethod, CanProcessKey, ExtractLastSyllable, ProcessKey, IsTyped,
         NothingFits, NothingRewrites, ClearsSomething, AreLetters, RulesFor, AreKeys, IsValid, SourceConfig;
    LowerKeys(c, k);
    RulesOfTyping(c, k);
    NotDoubled(c, st, k);
    NoRulesNothing(c, st, k);
    var letters, shortcut := LetterAdds(c, st, k);
    LettersWithoutRules(c, k, st.nextId, letters);
    NoShortcut(c, LastSyllable(c, st) + letters, st.nextId + 1, shortcut);
    assert letters + [] == letters;
    OneKey(st.nextId, k);
    AddsPlainly(c, st, k, letters);
  }

  lemma OneKey(id: nat, k: char)
    ensures AreKeys([NewAppendingTrans(id, k, false)])
  {
  }

  lemma Processed(c: Config, k: char)
    requires c.env.cs.lower(k) == k && (IsAlpha(k) || k in c.im.keys)
    ensures IsProcessed(c, k, false)
  {
  }

  lemma NotDoubled(c: Config, st: State, key: char)
    requires AreKeys(st.comp)
    ensures !IsDoubled(c, st, key)
  {
    hide CharsetData.Good, ExtractLastSyllable;
    var (previous, s) := ExtractLastSyllable(c.env, st.comp);
    assert previous + s == st.comp;
    if s != [] {
      assert s[|s| - 1] in st.comp;
    }
  }

  lemma NoShortcut(c: Config, comp: Composition, nid: nat, shortcut: Composition)
    requires SourceConfig(c) && IsShortcut(c, comp, nid, shortcut)
    ensures shortcut == []
  {
  }

  lemma AddsPlainly(c: Config, st: State, key: char, letters: Composition)
    requires AreKeys(st.comp) && Adds(c, st, key, letters) && AreKeys(letters)
    ensures ProcessKey(c, st, key, false).comp == st.comp + letters
  {
    hide CharsetData.Good, ExtractLastSyllable, ProcessKey, IsValid, ExtractCvcTrans, FindToneTarget;
    var (previous, s) := ExtractLastSyllable(c.env, st.comp);
    assert previous + s == st.comp && forall t :: t in s ==> t in st.comp;
    assert AreKeys(s + letters);
    NoToneThere(s + letters);
    assert Refresh(c, s + letters, st.nextId + |letters|) == (s + letters, []);
    assert previous + ((s + letters) + []) == st.comp + letters;
  }

  lemma NextState(c: Config, st: State, key: char, comp: Composition)
    requires ProcessKey(c, st, key, false).comp == comp && |comp| == |st.comp| + 1
    ensures ProcessKey(c, st, key, false) == State(comp, st.nextId + 1)
  {
    hide CharsetData.Good, NewComposition, CanProcessKey;
  }

  // ----- the last syllable -----

  lemma NoBreaks(c: Config, text: string)
    requires SourceConfig(c) && IsWordText(text)
    ensures Decided(c.env.cs, [], WordOf(text))
    ensures forall t :: t in WordOf(text) ==> !IsBreak(c.env.cs, [], t)
  {
    hide CharsetData.Good, SourceConfig, BaseLetter;
    forall t | t in WordOf(text) ensures IsDecided(c.env.cs, [], t) && !IsBreak(c.env.cs, [], t) {
      var i :| 0 <= i < |text| && WordOf(text)[i] == t;
      assert text[i] in text;
      KeyOf(c, text[i]);
    }
  }

  lemma {:induction false} AnchorStays(env: Env, last: Composition, n: nat)
    requires n <= |last| && forall m :: 1 < m <= n ==> IsValid(env, last[..m], false)
    ensures Anchor(env, last, n) == 0
  {
    hide CharsetData.Good, IsValid;
    if n > 0 {
      AnchorStays(env, last, n - 1);
      assert last[0..n] == last[..n];
      if n == 1 {
        Single(env, last[..1]);
      }
    }
  }

  lemma WholeSyllable(c: Config, text: string)
    requires SourceConfig(c) && IsWordText(text)
    requires forall m :: 1 < m <= |text| ==> IsValid(c.env, WordOf(text[..m]), false)
    ensures LastSyllable(c, StateOf(text)) == WordOf(text)
  {
    hide CharsetData.Good, SourceConfig, IsValid, ExtractLastWord, IsBreak;
    var word := WordOf(text);
    NoBreaks(c, text);
    assert [] + word == word;
    LastWordIs(c.env.cs, [], word, []);
    forall m | 1 < m <= |text| ensures IsValid(c.env, word[..m], false) {
      assert word[..m] == WordOf(text[..m]);
    }
    AnchorStays(c.env, word, |word|);
    assert word[0..] == word;
  }

  // ----- the split of a word -----

  // First consonants without g and q, vowels, last consonants.
  predicate IsSplit(text: string, a: nat, b: nat) {
    && a < b <= |text|
    && (forall i :: 0 <= i < |text| ==> if a <= i < b then text[i] in "ao" else text[i] in "hln")
  }

  lemma SplitIsWord(text: string, a: nat, b: nat)
    requires IsSplit(text, a, b)
    ensures IsWordText(text)
  {
  }

  lemma PartVowels(c: Config, text: string, i: nat, j: nat, are: bool)
    requires SourceConfig(c) && IsWordText(text) && i <= j <= |text|
    requires forall k :: i <= k < j ==> (text[k] in "ao" <==> are)
    ensures AllVowels(c.env.cs, WordOf(text)[i..j], are)
  {
    hide CharsetData.Good, SourceConfig, IsVowel;
    forall t | t in WordOf(text)[i..j] ensures t.target.None? && IsVowel(c.env.cs, t.rule.result) == are {
      var k :| i <= k < j && WordOf(text)[k] == t;
      assert text[k] in text;
      KeyOf(c, text[k]);
    }
  }

  lemma NotGiOrQu(text: string, a: nat, b: nat)
    requires IsSplit(text, a, b)
    ensures !IsQualifiedConsonant(WordOf(text)[..a], WordOf(text)[a..b], WordOf(text)[b..])
  {
  }

  lemma SplitMeans(text: string, a: nat, b: nat)
    requires IsSplit(text, a, b)
    ensures forall k :: 0 <= k < a || b <= k < |text| ==> text[k] !in "ao"
    ensures forall k :: a <= k < b ==> text[k] in "ao"
  {
  }

  lemma WordSplits(c: Config, text: string, a: nat, b: nat)
    requires SourceConfig(c) && IsSplit(text, a, b)
    ensures var list := WordOf(text);
            && ExtractCvcAppendingTrans(c.env.cs, TargetLess(list)) == Cvc(list[..a], list[a..b], list[b..], false)
  {
    hide CharsetData.Good, SourceConfig, ExtractCvcAppendingTrans, IsVowel, AllVowels, IsQualifiedConsonant, IsWordText;
    var list := WordOf(text);
    SplitIsWord(text, a, b);
    WordIsKeys(text);
    NoToneThere(list);
    SplitMeans(text, a, b);
    PartVowels(c, text, 0, a, false);
    PartVowels(c, text, a, b, true);
    PartVowels(c, text, b, |text|, false);
    NotGiOrQu(text, a, b);
    assert list[0..a] == list[..a] && list[b..|text|] == list[b..];
    RunsOfList(c.env.cs, list, a, b);
  }

  lemma RunsOfList(cs: Charset, list: Composition, a: nat, b: nat)
    requires a < b <= |list| && AllVowels(cs, list[..a], false) && AllVowels(cs, list[a..b], true)
    requires AllVowels(cs, list[b..], false) && !IsQualifiedConsonant(list[..a], list[a..b], list[b..])
    ensures ExtractCvcAppendingTrans(cs, list) == Cvc(list[..a], list[a..b], list[b..], false)
  {
    hide CharsetData.Good, ExtractCvcAppendingTrans, AllVowels, IsQualifiedConsonant;
    assert list == list[..a] + list[a..b] + list[b..];
    RunsAre(cs, list[..a], list[a..b], list[b..]);
  }

  lemma NothingAttached(text: string, letters: Composition)
    ensures Attached(WordOf(text), letters) == []
  {
    WordIsKeys(text);
    NoneAttached(WordOf(text), letters);
  }

  // Letters read as their keys.
  lemma LettersRead(c: Config, text: string, i: nat, j: nat)
    requires SourceConfig(c) && IsWordText(text) && i <= j <= |text|
    ensures Canvas(c.env.cs, WordOf(text)[i..j], TONELESS_LOWER) == text[i..j]
  {
    hide CharsetData.Good, SourceConfig, AddToneToChar, Canvas, Simple, IsWordText;
    var part := WordOf(text)[i..j];
    PartIsSimple(c, text, i, j);
    AllShown(part);
    SimpleText(c.env.cs, part);
    assert KeysOfLetters(part) == text[i..j];
  }

  lemma PartIsSimple(c: Config, text: string, i: nat, j: nat)
    requires SourceConfig(c) && IsWordText(text) && i <= j <= |text|
    ensures Simple(c.env.cs, WordOf(text)[i..j])
    ensures forall t :: t in WordOf(text)[i..j] ==> IsAppending(t) && t.rule.key != NUL
  {
    hide CharsetData.Good, SourceConfig, AddToneToChar;
    forall t | t in WordOf(text)[i..j]
      ensures IsAppending(t) && IsPlain(c.env.cs, t) && AddToneToChar(c.env.cs, t.rule.key, 0) == t.rule.key
              && !t.isUpperCase
    {
      var k :| 0 <= k < |text| && WordOf(text)[k] == t;
      assert text[k] in text;
      KeyOf(c, text[k]);
    }
  }

  lemma WordParts(c: Config, text: string, a: nat, b: nat)
    requires SourceConfig(c) && IsSplit(text, a, b)
    ensures var list := WordOf(text);
            ExtractCvcTrans(c.env.cs, list) == Cvc(list[..a], list[a..b], list[b..], false)
  {
    hide CharsetData.Good, ExtractCvcAppendingTrans, Attached, SourceConfig;
    var list := WordOf(text);
    WordSplits(c, text, a, b);
    NothingAttached(text, list[..a]);
    NothingAttached(text, list[a..b]);
    NothingAttached(text, list[b..]);
    assert list[..a] + [] == list[..a] && list[a..b] + [] == list[a..b] && list[b..] + [] == list[b..];
  }

  lemma WordIsValid(c: Config, text: string, a: nat, b: nat)
    requires SourceConfig(c) && IsSplit(text, a, b)
    requires IsValidCVC(c.env.cs, c.env.sp, text[..a], text[a..b], text[b..], false)
    ensures IsValid(c.env, WordOf(text), false)
  {
    hide CharsetData.Good, ExtractCvcTrans, IsValidCVC, Canvas, SourceConfig, IsSplit, LastToneEffect, AreKeys;
    var list := WordOf(text);
    SplitIsWord(text, a, b);
    assert a < b <= |text| by { SplitBounds(text, a, b); }
    WordIsKeys(text);
    NoToneThere(list);
    WordParts(c, text, a, b);
    LettersRead(c, text, 0, a);
    LettersRead(c, text, a, b);
    LettersRead(c, text, b, |text|);
    assert list[0..a] == list[..a] && text[0..a] == text[..a];
    assert list[b..|text|] == list[b..] && text[b..|text|] == text[b..];
  }

  lemma SplitBounds(text: string, a: nat, b: nat)
    requires IsSplit(text, a, b)
    ensures a < b <= |text|
  {
  }

  // ----- the seat in a word -----

  lemma NoneBecame(text: string, l: Trans)
    ensures !BecameHorn(WordOf(text), l)
  {
  }

  lemma KeysOA(c: Config, v: Composition)
    requires SourceConfig(c) && |v| == 2 && NoVirtual(v) && IsAppending(v[0]) && IsAppending(v[1])
    requires v[0].rule.key == 'o' && v[1].rule.key == 'a'
    ensures BaseKeys(c.env.cs, v) == "oa"
  {
    hide CharsetData.Good, SourceConfig, Canvas, NoVirtual;
    BaseKeysOf(c.env.cs, v);
    BasesOA(c);
    assert BaseKeys(c.env.cs, v) == [BaseKeys(c.env.cs, v)[0], BaseKeys(c.env.cs, v)[1]];
  }

  lemma BasesOA(c: Config)
    requires SourceConfig(c)
    ensures BaseLetter(c.env.cs, 'o') == 'o' && BaseLetter(c.env.cs, 'a') == 'a'
  {
    hide CharsetData.Good, Position, Row, Vowels, MarksMaps, AddToneToChar, Base;
    var cs := c.env.cs;
    VowelsAO(cs);
    OwnMarks();
    BaseOfToneless(cs, 'o');
    BaseOfToneless(cs, 'a');
    LowerKeys(c, 'o');
    LowerKeys(c, 'a');
  }

  lemma OwnMarks()
    ensures 'o' in MarksMaps() && MarksMaps()['o'][0] == 'o' && 'a' in MarksMaps() && MarksMaps()['a'][0] == 'a'
  {
  }

  // Of one vowel that one; of "oa" in the standard style the second only before a consonant, else always the second.
  lemma SeatInWord(c: Config, text: string, a: nat, b: nat)
    requires SourceConfig(c) && IsSplit(text, a, b) && (b == a + 1 || text[a..b] == "oa")
    ensures SeatOf(c.env.cs, WordOf(text), c.flags.std)
         == Some(if b == a + 1 || (c.flags.std && b == |text|) then a else a + 1)
  {
    hide CharsetData.Good, SourceConfig, ExtractCvcAppendingTrans, BecameHorn, BaseKeys;
    var list := WordOf(text);
    WordSplits(c, text, a, b);
    var v := list[a..b];
    assert forall i :: a <= i < b ==> v[i - a] == list[i];
    assert list[b..] == [] <==> b == |text|;
    if b > a + 1 {
      assert text[a] == text[a..b][0] && text[a + 1] == text[a..b][1];
      NoneBecame(text, v[0]);
      NoneBecame(text, v[1]);
      LettersAreShown(text, a, b);
      KeysOA(c, v);
    }
  }

  lemma LettersAreShown(text: string, i: nat, j: nat)
    requires IsWordText(text) && i <= j <= |text|
    ensures NoVirtual(WordOf(text)[i..j])
  {
    forall t | t in WordOf(text)[i..j] ensures t.rule.key != NUL {
      var k :| i <= k < j && WordOf(text)[k] == t;
      assert text[k] in text;
    }
  }

  // ----- the tone key -----

  lemma LettersOfWord(text: string, e: Trans)
    requires IsWordText(text) && !IsAppending(e)
    ensures Letters(WordOf(text), false) == WordOf(text) && Letters(WordOf(text) + [e], false) == WordOf(text)
  {
    var word := WordOf(text);
    LettersAreShown(text, 0, |text|);
    assert word[0..|text|] == word && word + [] == word;
    AllShown(word);
    LettersConcat(word, [e], false);
    NoLetter(e);
  }

  lemma GlyphOfWord(cs: Charset, text: string, e: Trans, i: nat)
    requires i < |text| && e.rule.effectType == ToneTransformation
    ensures Glyph(cs, WordOf(text), WordOf(text)[i], VIETNAMESE) == text[i]
    ensures Glyph(cs, WordOf(text) + [e], WordOf(text)[i], VIETNAMESE)
         == if e.target == Some(i) then AddToneToChar(cs, text[i], e.rule.effect) else text[i]
  {
    hide CharsetData.Good, AddToneToChar, EffectsOn;
    var l := WordOf(text)[i];
    WordHasNoEffects(text, i);
    EffectsConcat(WordOf(text), [e], i);
    OneEffect(e, i);
    LastEffect(cs, l, [], e);
    assert [] + [e] == [e];
  }

  // The text of a word, and of a word with a tone.
  lemma TonedText(c: Config, text: string, e: Trans, p: nat)
    requires IsWordText(text) && p < |text| && e.target == Some(p) && e.rule.effectType == ToneTransformation
    ensures Canvas(c.env.cs, WordOf(text), VIETNAMESE) == text
    ensures Canvas(c.env.cs, WordOf(text) + [e], VIETNAMESE)
         == text[p := AddToneToChar(c.env.cs, text[p], e.rule.effect)]
  {
    hide CharsetData.Good, AddToneToChar, IsWordText, Letters, Glyph;
    LettersOfWord(text, e);
    forall i | 0 <= i < |text|
      ensures Glyph(c.env.cs, WordOf(text), WordOf(text)[i], VIETNAMESE) == text[i]
      ensures Glyph(c.env.cs, WordOf(text) + [e], WordOf(text)[i], VIETNAMESE)
           == if i == p then AddToneToChar(c.env.cs, text[i], e.rule.effect) else text[i]
    {
      GlyphOfWord(c.env.cs, text, e, i);
    }
  }

  lemma WordHasNoEffects(text: string, id: nat)
    ensures EffectsOn(WordOf(text), id) == []
  {
    NoTargetsNoEffects(WordOf(text), id);
  }

  lemma ToneTyped(c: Config, text: string, p: nat, key: char, rule: Rule)
    requires SourceConfig(c) && IsWordText(text) && Inv(c, StateOf(text)) && p < |text|
    requires LastSyllable(c, StateOf(text)) == WordOf(text)
    requires (key == 's' && rule == ACUTE) || (key == 'j' && rule == DOT)
    requires SeatOf(c.env.cs, WordOf(text), c.flags.std) == Some(p)
    requires AddToneToChar(c.env.cs, text[p], rule.effect) != text[p]
    ensures Canvas(c.env.cs, ProcessKey(c, StateOf(text), key, false).comp, VIETNAMESE)
         == text[p := AddToneToChar(c.env.cs, text[p], rule.effect)]
  {
    hide CharsetData.Good, Inv, ProcessKey, IsTyped, IsDoubled, FitsKey, AreKeys, SourceConfig, Canvas, AddToneToChar,
         SeatOf, IsWordText, LastSyllable, ShowsTone, Letters, Changes, NoRaw;
    var st := StateOf(text);
    ToneKeyIsTyped(c, text, key);
    ToneChanges(c, text, p, rule);
    ToneFitsKey(c, text, p, key, rule);
    HornsOfConfig(c);
    ToneKeyShows(c, st, key, p, rule);
    TonedText(c, text, Entry(c, st, key, p, rule), p);
  }

  lemma ToneChanges(c: Config, text: string, p: nat, rule: Rule)
    requires SourceConfig(c) && IsWordText(text) && p < |text| && (rule == ACUTE || rule == DOT)
    requires AddToneToChar(c.env.cs, text[p], rule.effect) != text[p]
    ensures Changes(c.env.cs, WordOf(text), Candidate(|text|, rule, Some(p)))
  {
    hide CharsetData.Good, SourceConfig, Canvas, AddToneToChar, IsWordText;
    TonedText(c, text, Candidate(|text|, rule, Some(p)), p);
  }

  lemma ToneKeyIsTyped(c: Config, text: string, key: char)
    requires SourceConfig(c) && Inv(c, StateOf(text)) && (key == 's' || key == 'j')
    ensures IsTyped(c, StateOf(text), key) && !IsDoubled(c, StateOf(text), key)
  {
    hide CharsetData.Good, Inv, GoodMethod, CanProcessKey, AreKeys, SourceConfig, ExtractLastSyllable;
    MethodIsGood(c);
    LowerKeys(c, key);
    MethodIs(c);
    Processed(c, key);
    WordIsKeys(text);
    NotDoubled(c, StateOf(text), key);
  }

  lemma ToneFitsKey(c: Config, text: string, p: nat, key: char, rule: Rule)
    requires SourceConfig(c) && LastSyllable(c, StateOf(text)) == WordOf(text)
    requires (key == 's' && rule == ACUTE) || (key == 'j' && rule == DOT)
    requires SeatOf(c.env.cs, WordOf(text), c.flags.std) == Some(p)
    requires Changes(c.env.cs, WordOf(text), Candidate(|text|, rule, Some(p)))
    ensures FitsKey(c, StateOf(text), key, [], p, rule)
  {
    hide CharsetData.Good, SourceConfig, SeatOf, Changes, Fits, RulesFor, LastSyllable;
    var word := WordOf(text);
    assert word + [] == word;
    MethodIs(c);
    assert 's' in "aohlnsj" && 'j' in "aohlnsj";
    RulesOfTyping(c, key);
    ToneFits(c, word, rule, |text|, p);
  }

  lemma MethodIs(c: Config)
    requires SourceConfig(c)
    ensures c.im == TONES && c.flags.free
  {
  }

  lemma HornsOfConfig(c: Config)
    requires SourceConfig(c)
    ensures HornsAreVowels(c.env.cs)
  {
    HornVowels(c.env.cs);
  }

  lemma ToneFits(c: Config, comp: Composition, rule: Rule, nid: nat, p: nat)
    requires c.flags.free && (rule == ACUTE || rule == DOT) && SeatOf(c.env.cs, comp, c.flags.std) == Some(p)
    requires Changes(c.env.cs, comp, Candidate(nid, rule, Some(p)))
    ensures Fits(c.env, comp, [rule], c.flags, nid, p, rule)
  {
    hide CharsetData.Good, SeatOf, Changes, LastKeys;
    assert TonePlace(c.env.cs, comp, rule.effect, c.flags) == Some(p);
    assert IsFirstTone(c.env.cs, comp, [rule], c.flags, nid, 0);
  }

  // ----- the words -----

  lemma {:induction false} WordTyped(c: Config, text: string)
    requires SourceConfig(c) && IsWordText(text)
    ensures TypeAll(c, EMPTY, text, false) == StateOf(text) && Inv(c, StateOf(text))
  {
    hide CharsetData.Good, SourceConfig, Inv, ProcessKey;
    if text == "" {
      EmptyInv(c);
      assert WordOf("") == [];
    } else {
      var n := |text| - 1;
      assert text == text[..n] + [text[n]] && text[n] in text;
      assert forall k :: k in text[..n] ==> k in text;
      WordTyped(c, text[..n]);
      TypesLetter(c, text[..n], text[n]);
    }
  }

  lemma TypedThenTone(c: Config, text: string, a: nat, b: nat, key: char, rule: Rule)
    requires SourceConfig(c) && IsSplit(text, a, b) && (b == a + 1 || text[a..b] == "oa")
    requires (key == 's' && rule == ACUTE) || (key == 'j' && rule == DOT)
    requires forall m :: 1 < m <= |text| ==> IsValid(c.env, WordOf(text[..m]), false)
    ensures var p := if b == a + 1 || (c.flags.std && b == |text|) then a else a + 1;
            AddToneToChar(c.env.cs, text[p], rule.effect) != text[p] ==>
              Canvas(c.env.cs, TypeAll(c, EMPTY, text + [key], false).comp, VIETNAMESE)
              == text[p := AddToneToChar(c.env.cs, text[p], rule.effect)]
  {
    hide CharsetData.Good, SourceConfig, Inv, ProcessKey, IsValid, AddToneToChar, Canvas, LastSyllable, SeatOf;
    SplitIsWord(text, a, b);
    WordTyped(c, text);
    WholeSyllable(c, text);
    SeatInWord(c, text, a, b);
    var p := if b == a + 1 || (c.flags.std && b == |text|) then a else a + 1;
    if AddToneToChar(c.env.cs, text[p], rule.effect) != text[p] {
      ToneTyped(c, text, p, key, rule);
    }
    var all := text + [key];
    assert all[..|all| - 1] == text;
  }

  lemma AsShowsAcute(c: Config)
    requires SourceConfig(c)
    ensures Canvas(c.env.cs, TypeAll(c, EMPTY, "as", false).comp, VIETNAMESE) == "á"
  {
    hide CharsetData.Good, Vowels, MarksMaps, TypeAll, Canvas, AddToneToChar, IsValid;
    VowelsAO(c.env.cs);
    assert IsSplit("a", 0, 1);
    TypedThenTone(c, "a", 0, 1, 's', ACUTE);
    assert "a" + ['s'] == "as" && "a"[0 := 'á'] == "á";
  }

  lemma SpellingsOfWords(cs: Charset)
    ensures IsValidCVC(cs, SOURCE_SPELLING, "l", "oa", "n", false)
    ensures IsValidCVC(cs, SOURCE_SPELLING, "h", "oa", "", false)
  {
    hide RowMatches, IsValidCVC;
    var sp := SOURCE_SPELLING;
    RowOfL(cs);
    RowOfH(cs);
    VowelRowOfWords(cs, true);
    VowelRowOfWords(cs, false);
    var last := "m n p t";
    assert LAST_CONSONANT_SEQS[2] == last && last[2..3] == "n" && last[1] == ' ' && last[3] == ' ';
    WordOfRow(cs, last, 2, 3, "n", false, true);
    assert CV_MATRIX[2] == [0, 1, 2, 3, 5] && CV_MATRIX[1] == [0, 1, 2, 3, 4, 5] && VC_MATRIX[1] == [0, 1, 2];
    assert 1 in CV_MATRIX[2] && 1 in CV_MATRIX[1] && 2 in VC_MATRIX[1];
    assert First(cs, sp, 2, "l", "oa", false) && Vowel(cs, sp, 1, "oa", "n", false) && Last(cs, sp, 2, "n", false);
    assert First(cs, sp, 1, "h", "oa", false) && Vowel(cs, sp, 1, "oa", "", false);
    ValidIff(cs, sp, "l", "oa", "n", false);
    ValidIff(cs, sp, "h", "oa", "", false);
  }

  lemma RowOfL(cs: Charset)
    ensures RowMatches(cs, FIRST_CONSONANT_SEQS[2], "l", true, true)
  {
    hide RowMatches;
    var row := "ch gi l ng ngh x";
    assert FIRST_CONSONANT_SEQS[2] == row && row[6] == 'l' && row[5] == ' ' && row[7] == ' ' && |row| > 7;
    OneLetter(row, 6);
    WordOfRow(cs, row, 6, 7, "l", true, true);
  }

  lemma RowOfH(cs: Charset)
    ensures RowMatches(cs, FIRST_CONSONANT_SEQS[1], "h", true, true)
  {
    hide RowMatches;
    var row := "c h k kh qu th";
    assert FIRST_CONSONANT_SEQS[1] == row && row[2] == 'h' && row[1] == ' ' && row[3] == ' ' && |row| > 3;
    OneLetter(row, 2);
    WordOfRow(cs, row, 2, 3, "h", true, true);
  }

  lemma VowelRowOfWords(cs: Charset, full: bool)
    ensures RowMatches(cs, VOWEL_SEQS[1], "oa", full, false)
  {
    var row := "a iê oa uyê yê";
    assert VOWEL_SEQS[1] == row && row[5..7] == "oa" && row[4] == ' ' && row[7] == ' ';
    WordOfRow(cs, row, 5, 7, "oa", full, false);
  }

  // A valid word of "oa" has valid beginnings.
  lemma ValidBeginnings(c: Config, text: string)
    requires SourceConfig(c) && (text == "loan" || text == "hoa")
    ensures forall m :: 1 < m <= |text| ==> IsValid(c.env, WordOf(text[..m]), false)
  {
    hide CharsetData.Good, IsValid, IsValidCVC, Vowels, MarksMaps;
    var f := text[..1];
    SpellingsOfWords(c.env.cs);
    assert f == "l" || f == "h";
    assert "oa"[..1] == "o" && "oa"[..2] == "oa";
    TypingPrefixesAreValid(c.env.cs, SOURCE_SPELLING, "l", "oa", "n", 1);
    TypingPrefixesAreValid(c.env.cs, SOURCE_SPELLING, "l", "oa", "n", 2);
    TypingPrefixesAreValid(c.env.cs, SOURCE_SPELLING, "h", "oa", "", 1);
    forall m | 1 < m <= |text| ensures IsValid(c.env, WordOf(text[..m]), false) {
      BeginningIsValid(c, text[..m], f);
    }
  }

  lemma BeginningIsValid(c: Config, part: string, f: string)
    requires SourceConfig(c) && (f == "l" || f == "h")
    requires part == f + "o" || part == f + "oa" || part == "loan"
    requires IsValidCVC(c.env.cs, SOURCE_SPELLING, f, "o", "", false)
    requires IsValidCVC(c.env.cs, SOURCE_SPELLING, f, "oa", "", false)
    requires IsValidCVC(c.env.cs, SOURCE_SPELLING, "l", "oa", "n", false)
    ensures IsValid(c.env, WordOf(part), false)
  {
    hide CharsetData.Good, IsValid, IsValidCVC, Vowels, MarksMaps;
    if part == f + "o" {
      assert part[..1] == f && part[1..2] == "o" && part[2..] == "";
      WordIsValid(c, part, 1, 2);
    } else if part == f + "oa" {
      assert part[..1] == f && part[1..3] == "oa" && part[3..] == "";
      WordIsValid(c, part, 1, 3);
    } else {
      assert part[..1] == "l" && part[1..3] == "oa" && part[3..] == "n";
      WordIsValid(c, part, 1, 3);
    }
  }

  lemma LoanjShowsDot(c: Config)
    requires SourceConfig(c)
    ensures Canvas(c.env.cs, TypeAll(c, EMPTY, "loanj", false).comp, VIETNAMESE) == "loạn"
  {
    hide CharsetData.Good, Vowels, MarksMaps, TypeAll, Canvas, AddToneToChar, IsValid;
    VowelsAO(c.env.cs);
    ValidBeginnings(c, "loan");
    assert IsSplit("loan", 1, 3) && "loan"[1..3] == "oa";
    TypedThenTone(c, "loan", 1, 3, 'j', DOT);
    assert "loan" + ['j'] == "loanj" && "loan"[2 := 'ạ'] == "loạn";
  }

  lemma HoasFollowsStyle(c: Config)
    requires SourceConfig(c)
    ensures Canvas(c.env.cs, TypeAll(c, EMPTY, "hoas", false).comp, VIETNAMESE)
         == if c.flags.std then "hóa" else "hoá"
  {
    hide CharsetData.Good, Vowels, MarksMaps, TypeAll, Canvas, AddToneToChar, IsValid;
    VowelsAO(c.env.cs);
    ValidBeginnings(c, "hoa");
    assert IsSplit("hoa", 1, 3) && "hoa"[1..3] == "oa";
    TypedThenTone(c, "hoa", 1, 3, 's', ACUTE);
    assert "hoa" + ['s'] == "hoas" && "hoa"[1 := 'ó'] == "hóa" && "hoa"[2 := 'á'] == "hoá";
  }
}
