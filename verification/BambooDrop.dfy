/**
 A run, on the tables of the source, in which the tone refresh drops a tone and a later backspace pops nothing.
 It needs a method whose super key, which stands for the horn of the uow shortcut, also sets a tone.
 */
module BambooDrop {
  import opened Options
  import opened BambooChars
  import opened BambooTables
  import opened BambooSpelling
  import opened BambooSpellingTables
  import opened BambooFlattener
  import opened BambooUtils
  import opened BambooKeys
  import opened BambooShape
  import opened BambooGenerators
  import opened BambooWords
  import opened BambooRuns
  import opened BambooSplit
  import opened BambooBackspace
  import opened BambooVisible
  import opened BambooOps
  import opened BambooQu

  const TONE := Rule('s', TONE_ACUTE, ToneTransformation, NUL, NUL, [])
  const METHOD := InputMethod([TONE], ['s'], ['s'])

  // The tables of the source, and a case mapping that leaves the keys of the run alone.
  ghost predicate SourceTables(cs: Charset) {
    && cs.vowels == Vowels() && cs.marks == MarksMaps() && cs.isLetter('q')
    && forall k :: k in ",uơqs" ==> cs.lower(k) == k && !cs.isUpper(k)
  }

  ghost predicate DroppingConfig(c: Config) {
    SourceTables(c.env.cs) && c.env.sp == SOURCE_SPELLING && c.im == METHOD && c.flags.free
  }

  const COMMA := NewAppendingTrans(0, ',', false)
  const U1 := NewAppendingTrans(1, 'u', false)
  const O := NewAppendingTrans(2, 'ơ', false)
  const Q := NewAppendingTrans(3, 'q', false)
  const T := Candidate(4, TONE.(key := NUL), Some(2))
  const U2 := NewAppendingTrans(5, 'u', false)
  const LOST := Candidate(4, TONE.(key := NUL), None)
  const RESET := Candidate(6, UNDO_TONE, None)
  const COPY := Candidate(7, TONE.(key := NUL), None)

  // ----- the characters of the run -----

  lemma Characters(cs: Charset)
    requires SourceTables(cs)
    ensures AddToneToChar(cs, 'u', 0) == 'u' && AddToneToChar(cs, 'ơ', 0) == 'ơ'
            && AddToneToChar(cs, 'ơ', TONE_ACUTE) == 'ớ'
    ensures IsVowel(cs, 'u') && IsVowel(cs, 'ơ')
    ensures !IsVowel(cs, 'q') && !IsVowel(cs, ',') && !IsVowel(cs, NUL)
    ensures AddMarkToTonelessChar(cs, 'ơ', 0) == 'o' && 'q' !in cs.marks && ',' !in cs.marks
  {
    hide Position, Row, Vowels, AddToneToChar, MarksMaps;
    RowsOfRun();
    Toned(cs, 8, 0);
    Toned(cs, 8, 2);
    Toned(cs, 9, 0);
    NoVowels();
    Missing(cs, 'q');
    Missing(cs, ',');
    MarksOfRun(cs);
  }

  lemma MarksOfRun(cs: Charset)
    requires cs.marks == MarksMaps()
    ensures AddMarkToTonelessChar(cs, 'ơ', 0) == 'o' && 'q' !in cs.marks && ',' !in cs.marks
  {
    hide MarksMaps, CharsetData.Good;
    MarkRows();
  }

  lemma MarkRows()
    ensures 'ơ' in MarksMaps() && MarksMaps()['ơ'][0] == 'o' && 'q' !in MarksMaps() && ',' !in MarksMaps()
  {
  }

  // A tone picks its place in the row.
  lemma Toned(cs: Charset, b: nat, t: Effect)
    requires cs.vowels == Vowels() && b < 12
    ensures Row(b)[0] in cs.vowels && AddToneToChar(cs, Row(b)[0], t) == Row(b)[t]
  {
    hide Position, Row, Vowels, CharsetData.Good;
    At(cs, Row(b)[0], b, 0);
    VowelAt(b, t);
  }

  lemma VowelAt(b: nat, t: nat)
    requires b < 12 && t < 6
    ensures |Vowels()| == 72 && Vowels()[6 * b + t] == Row(b)[t]
  {
  }

  lemma RowsOfRun()
    ensures Row(8)[0] == 'ơ' && Row(8)[2] == 'ớ' && Row(9)[0] == 'u'
  {
  }

  lemma NoVowels()
    ensures Position('q') == -1 && Position(',') == -1
  {
  }

  lemma At(cs: Charset, k: char, b: nat, t: nat)
    requires cs.vowels == Vowels() && b < 12 && t < 6 && Row(b)[t] == k
    ensures k in cs.vowels && VowelPos(cs, k) == 6 * b + t
  {
    hide Position, Row;
    assert Vowels()[6 * b + t] == k;
    PositionOf(6 * b + t);
    PositionOf(VowelPos(cs, k));
  }

  lemma Missing(cs: Charset, k: char)
    requires cs.vowels == Vowels() && Position(k) == -1
    ensures k !in cs.vowels
  {
    hide Position, Row;
    if k in Vowels() {
      VowelIs(k);
    }
  }

  // ----- syllables of plain letters and tones -----

  // Plain toneless letters, and tones.
  ghost predicate Simple(cs: Charset, comp: Composition) {
    forall t :: t in comp ==>
      if IsAppending(t) then IsPlain(cs, t) && AddToneToChar(cs, t.rule.key, 0) == t.rule.key && !t.isUpperCase
      else t.rule.effectType == ToneTransformation
  }

  function KeysOfLetters(letters: Composition): (r: string)
    ensures |r| == |letters|
    ensures forall i :: 0 <= i < |letters| ==> r[i] == letters[i].rule.key
  {
    seq(|letters|, i requires 0 <= i < |letters| => letters[i].rule.key)
  }

  // Without its tones, the text of such a syllable is its keys.
  lemma SimpleText(cs: Charset, comp: Composition)
    requires Simple(cs, comp)
    ensures Canvas(cs, comp, TONELESS_LOWER) == KeysOfLetters(Letters(comp, false))
  {
    var letters := Letters(comp, false);
    LettersAreMembers(comp, false);
    forall i | 0 <= i < |letters| ensures Glyph(cs, comp, letters[i], TONELESS_LOWER) == letters[i].rule.key {
      assert letters[i] in comp;
      TonesAreSilent(cs, letters[i].rule.key, EffectsOn(comp, letters[i].id));
      EffectsAreMembers(comp, letters[i].id);
    }
  }

  lemma {:induction false} TonesAreSilent(cs: Charset, chr: char, effects: Composition)
    ensures (forall t :: t in effects ==> t.rule.effectType == ToneTransformation) ==>
              AddToneToChar(cs, Fold(cs, chr, chr, effects), 0) == AddToneToChar(cs, chr, 0)
  {
    if effects != [] {
      var n := |effects| - 1;
      assert effects[n] in effects;
      assert forall t :: t in effects[..n] ==> t in effects;
      TonesAreSilent(cs, chr, effects[..n]);
      ToneOverwrites(cs, Fold(cs, chr, chr, effects[..n]), effects[n].rule.effect, 0);
    }
  }

  // ----- what the spelling of the source says -----

  lemma WordMatchesRow(cs: Charset, row: string, i: nat, j: nat, input: string, full: bool, complete: bool)
    requires i <= j <= |row| && IsWord(row, i, j) && input <= row[i..j] && (full ==> |input| == j - i)
    ensures RowMatches(cs, row, input, full, complete)
  {
    assert WordMatches(cs, row[i..j], input, full, complete);
  }

  lemma VowelRow(cs: Charset)
    ensures RowMatches(cs, VOWEL_SEQS[4], "uơ", false, false)
  {
    assert VOWEL_SEQS[4] == "uơ";
    WordMatchesRow(cs, "uơ", 0, 2, "uơ", false, false);
  }

  lemma FirstRow(cs: Charset, input: string)
    requires input == "q" || input == "qu"
    ensures RowMatches(cs, FIRST_CONSONANT_SEQS[1], input, false, true)
  {
    var row := "c h k kh qu th";
    assert FIRST_CONSONANT_SEQS[1] == row;
    assert row[9..11] == "qu" && row[8] == ' ' && row[11] == ' ';
    WordMatchesRow(cs, row, 9, 11, input, false, true);
  }

  lemma MatchIsInRow(cs: Charset, row: string, input: string, full: bool)
    requires input != "" && RowMatches(cs, row, input, full, true)
    ensures input[0] in row
  {
    var i, j :| 0 <= i <= j <= |row| && IsWord(row, i, j) && WordMatches(cs, row[i..j], input, full, true);
    assert row[i..j][0] == row[i];
  }

  lemma NoLastRow(cs: Charset, k: nat)
    requires k < 5
    ensures !RowMatches(cs, LAST_CONSONANT_SEQS[k], "q", false, true)
  {
    hide RowMatches;
    var row := LAST_CONSONANT_SEQS[k];
    assert row == "ch nh" || row == "c ng" || row == "m n p t" || row == "k" || row == "c";
    assert 'q' !in row;
    if RowMatches(cs, row, "q", false, true) {
      MatchIsInRow(cs, row, "q", false);
    }
  }

  lemma Spellings(cs: Charset)
    ensures IsValidCVC(cs, SOURCE_SPELLING, "", "uơ", "", false)
    ensures !IsValidCVC(cs, SOURCE_SPELLING, "", "uơ", "q", false)
    ensures IsValidCVC(cs, SOURCE_SPELLING, "q", "", "", false)
    ensures IsValidCVC(cs, SOURCE_SPELLING, "qu", "", "", false)
  {
    hide Rows, RowMatches;
    VowelRow(cs);
    assert 4 in Rows(cs, VOWEL_SEQS, "uơ", false, false);
    FirstRow(cs, "q");
    FirstRow(cs, "qu");
    assert 1 in Rows(cs, FIRST_CONSONANT_SEQS, "q", false, true);
    assert 1 in Rows(cs, FIRST_CONSONANT_SEQS, "qu", false, true);
    var last := Rows(cs, LAST_CONSONANT_SEQS, "q", false, true);
    if last != [] {
      assert last[0] in last;
      NoLastRow(cs, last[0]);
    }
  }

  // ----- the syllables of the run -----

  lemma {:induction false} NoneAttached(comp: Composition, letters: Composition)
    requires forall t, l :: t in comp && l in letters ==> t.target != Some(l.id)
    ensures Attached(comp, letters) == []
  {
    AttachedMembers(comp, letters);
    if Attached(comp, letters) != [] {
      HasMember(Attached(comp, letters));
    }
  }

  lemma HasMember(comp: Composition)
    requires comp != []
    ensures exists t :: t in comp
  {
    assert comp[0] in comp;
  }

  // The syllables "uơ" and "uơq", and "q" and "qu" behind the misplaced tone.
  lemma SyllableUO(cs: Charset)
    requires SourceTables(cs)
    ensures ExtractCvcTrans(cs, [U1, O]) == Cvc([], [U1, O], [], false)
  {
    hide ExtractCvcAppendingTrans, IsVowel, SourceTables, AddToneToChar, CharsetData.Good;
    Characters(cs);
    Listed2(U1, O);
    RunsAre(cs, [], [U1, O], []);
    assert [] + [U1, O] + [] == [U1, O];
    NoneAttached([U1, O], [U1, O]);
    NoneAttached([U1, O], []);
  }

  lemma Listed2(a: Trans, b: Trans)
    requires a.target.None? && b.target.None?
    ensures TargetLess([a, b]) == [a, b]
  {
    assert [a, b][..1] == [a] && [a][..0] == [];
    assert TargetLess([a]) == [a];
  }

  // A targeted entry is no letter of the split.
  lemma TargetLessSkips(a: Composition, t: Trans, b: Composition)
    requires t.target.Some?
    ensures TargetLess(a + [t] + b) == TargetLess(a + b)
    decreases |b|
  {
    if b == [] {
      assert (a + [t] + b)[..|a|] == a && a + b == a;
    } else {
      var n := |b| - 1;
      assert (a + [t] + b)[..|a| + 1 + n] == a + [t] + b[..n];
      assert (a + b)[..|a| + n] == a + b[..n];
      TargetLessSkips(a, t, b[..n]);
    }
  }

  lemma SyllableUOQ(cs: Charset, t: Composition)
    requires SourceTables(cs) && (t == [] || t == [T])
    ensures ExtractCvcTrans(cs, [U1, O, Q] + t).lc == [Q]
    ensures ExtractCvcTrans(cs, [U1, O, Q] + t).fc == []
    ensures t == [] ==> ExtractCvcTrans(cs, [U1, O, Q] + t).vo == [U1, O]
  {
    hide ExtractCvcAppendingTrans, IsVowel, SourceTables, AddToneToChar, TargetLess, Attached, CharsetData.Good;
    Characters(cs);
    var comp := [U1, O, Q] + t;
    assert [U1, O, Q] + t + [] == comp && [U1, O, Q] + [] == [U1, O, Q];
    if t == [T] { TargetLessSkips([U1, O, Q], T, []); }
    Listed3(U1, O, Q);
    RunsAre(cs, [], [U1, O], [Q]);
    assert [] + [U1, O] + [Q] == [U1, O, Q];
    NoneAttached(comp, [Q]);
    NoneAttached(comp, []);
    if t == [] { NoneAttached(comp, [U1, O]); }
  }

  // "q" and "qu" with the tone that points elsewhere in between.
  lemma SyllableQU(cs: Charset, u: Composition)
    requires SourceTables(cs) && (u == [] || u == [U2])
    ensures var c := ExtractCvcTrans(cs, [Q, T] + u);
            && c.lc == [] && c.vo == [] && c.fc == [Q] + u && c.voIsNil == (u == [])
  {
    hide ExtractCvcAppendingTrans, IsVowel, SourceTables, AddToneToChar, TargetLess, Attached, CharsetData.Good;
    Characters(cs);
    var comp := [Q, T] + u;
    assert [Q] + [T] + u == comp;
    TargetLessSkips([Q], T, u);
    if u == [U2] {
      assert [Q] + u == [Q, U2];
      Listed2(Q, U2);
      RunsAre(cs, [Q], [U2], []);
      assert [Q] + [U2] + [] == [Q, U2];
    } else {
      assert [Q] + u == [Q];
      OneConsonant(cs, Q);
    }
    NoneAttached(comp, [Q] + u);
    NoneAttached(comp, []);
  }

  lemma OneConsonant(cs: Charset, t: Trans)
    requires t.target.None? && !IsVowel(cs, t.rule.result)
    ensures TargetLess([t]) == [t] && ExtractCvcAppendingTrans(cs, [t]) == Cvc([t], [], [], true)
  {
    assert [t][..0] == [];
    AtomicIs(cs, [], [t], [], false);
    assert [] + [t] == [t] && [t] + [] == [t];
  }

  lemma Listed3(a: Trans, b: Trans, c: Trans)
    requires a.target.None? && b.target.None? && c.target.None?
    ensures TargetLess([a, b, c]) == [a, b, c]
  {
    assert [a, b, c][..2] == [a, b];
    Listed2(a, b);
  }

  lemma TextOf(cs: Charset, letters: Composition)
    requires SourceTables(cs) && forall t :: t in letters ==> t in [U1, O, Q, U2]
    ensures Simple(cs, letters) && Canvas(cs, letters, TONELESS_LOWER) == KeysOfLetters(letters)
  {
    Characters(cs);
    hide SourceTables, IsVowel, AddToneToChar, Canvas;
    forall t | t in letters
      ensures IsAppending(t) && IsPlain(cs, t) && AddToneToChar(cs, t.rule.key, 0) == t.rule.key && !t.isUpperCase
    {
      KeyOfRun(cs, t);
    }
    AllShown(letters);
    SimpleText(cs, letters);
  }

  lemma KeyOfRun(cs: Charset, t: Trans)
    requires SourceTables(cs) && t in [U1, O, Q, U2]
    ensures IsAppending(t) && IsPlain(cs, t) && AddToneToChar(cs, t.rule.key, 0) == t.rule.key && !t.isUpperCase
    ensures t.target.None?
  {
    hide SourceTables, AddToneToChar, IsVowel, CharsetData.Good;
    KeyFacts(cs, t.rule.key);
  }

  lemma KeyFacts(cs: Charset, k: char)
    requires SourceTables(cs) && (k == 'u' || k == 'ơ' || k == 'q')
    ensures AddToneToChar(cs, k, 0) == k && cs.lower(k) == k && !cs.isUpper(k)
  {
    hide SourceTables, AddToneToChar, IsVowel, AddMarkToTonelessChar, CharsetData.Good;
    Characters(cs);
    NotTonable(cs, 'q');
    Lowered(cs, k);
  }

  lemma NotTonable(cs: Charset, k: char)
    requires !IsVowel(cs, k)
    ensures AddToneToChar(cs, k, 0) == k
  {
  }

  lemma Lowered(cs: Charset, k: char)
    requires SourceTables(cs)
    ensures k in ",uơqs" ==> cs.lower(k) == k && !cs.isUpper(k)
  {
  }

  lemma ValidUO(env: Env)
    requires SourceTables(env.cs) && env.sp == SOURCE_SPELLING
    ensures IsValid(env, [U1, O], false)
  {
    hide SourceTables, ExtractCvcTrans, Canvas, IsValidCVC;
    SyllableUO(env.cs);
    TextOf(env.cs, []);
    TextOf(env.cs, [U1, O]);
    Spellings(env.cs);
    assert KeysOfLetters([U1, O]) == "uơ" && KeysOfLetters([]) == "";
    assert [U1, O][..1] == [U1] && [U1][..0] == [];
    assert LastToneEffect([U1]) == None;
  }

  lemma InvalidUOQ(env: Env, t: Composition)
    requires SourceTables(env.cs) && env.sp == SOURCE_SPELLING && (t == [] || t == [T])
    ensures !IsValid(env, [U1, O, Q] + t, false)
  {
    hide SourceTables, ExtractCvcTrans, Canvas, HasValidTone, LastToneEffect, Rows;
    SyllableUOQ(env.cs, t);
    TextOf(env.cs, [Q]);
    assert KeysOfLetters([Q]) == "q";
    NoLast(env.cs);
  }

  lemma NoLast(cs: Charset)
    ensures Rows(cs, SOURCE_SPELLING.lastConsonantSeqs, "q", false, true) == []
  {
    var last := Rows(cs, LAST_CONSONANT_SEQS, "q", false, true);
    if last != [] {
      assert last[0] in last;
      NoLastRow(cs, last[0]);
    }
  }

  lemma ValidQU(env: Env, u: Composition)
    requires SourceTables(env.cs) && env.sp == SOURCE_SPELLING && (u == [] || u == [U2])
    ensures IsValid(env, [Q, T] + u, false)
  {
    hide SourceTables, ExtractCvcTrans, Canvas, IsValidCVC;
    SyllableQU(env.cs, u);
    TextOf(env.cs, []);
    TextOf(env.cs, [Q] + u);
    Spellings(env.cs);
    assert KeysOfLetters([Q] + u) == if u == [] then "q" else "qu";
    assert KeysOfLetters([]) == "";
    var comp := [Q, T] + u;
    assert comp[..2] == [Q, T];
    assert LastToneEffect([Q, T]) == Some(TONE_ACUTE);
    assert LastToneEffect(comp) == Some(TONE_ACUTE);
  }

  // ----- words -----

  // The entries of the run behind the comma.
  ghost predicate OfRun(t: Trans) {
    t in [U1, O, Q, T, U2, LOST, RESET, COPY]
  }

  lemma Breaks(cs: Charset, keys: seq<char>)
    requires SourceTables(cs) && (keys == [] || keys == ['s'])
    ensures IsBreak(cs, keys, COMMA)
    ensures forall t :: OfRun(t) ==> !IsBreak(cs, keys, t)
    ensures !CanProcessKey(cs, ',', keys) && CanProcessKey(cs, 'u', keys) && CanProcessKey(cs, 'q', keys)
            && CanProcessKey(cs, 'ơ', keys)
  {
    hide SourceTables, AddToneToChar, CharsetData.Good, Base, CanProcessKey;
    Characters(cs);
    BaseIsAlphaOrSelf(cs, ',');
    Lowered(cs, ',');
    assert BaseLetter(cs, ',') == ',';
    Processable(cs, keys, 'u');
    Processable(cs, keys, 'q');
    Processable(cs, keys, 'ơ');
    ProcessableIffWordChar(cs, ',', keys);
  }

  lemma Processable(cs: Charset, keys: seq<char>, k: char)
    requires SourceTables(cs) && (k == 'u' || k == 'ơ' || k == 'q')
    ensures CanProcessKey(cs, k, keys) && IsWordChar(BaseLetter(cs, k), keys)
  {
    hide SourceTables, AddToneToChar, CharsetData.Good, Base, CanProcessKey;
    Characters(cs);
    BaseIsAlphaOrSelf(cs, k);
    Lowered(cs, k);
    AlphaStays(cs, Base(cs, k));
    ProcessableIffWordChar(cs, k, keys);
  }

  lemma AlphaStays(cs: Charset, k: char)
    ensures IsAlpha(k) ==> IsAlpha(cs.lower(k))
  {
  }

  // Behind the comma, everything is one word.
  lemma WordOfRun(cs: Charset, word: Composition, keys: seq<char>)
    requires SourceTables(cs) && (keys == [] || keys == ['s']) && forall t :: t in word ==> OfRun(t)
    ensures ExtractLastWord(cs, [COMMA] + word, keys) == ([COMMA], word)
  {
    hide SourceTables, IsBreak, CharsetData.Good, ExtractLastWord, Decided, OfRun, CanProcessKey;
    Breaks(cs, keys);
    RunIsDecided(cs, word, keys);
    LastWordIs(cs, [COMMA], word, keys);
  }

  lemma RunIsDecided(cs: Charset, word: Composition, keys: seq<char>)
    requires forall t :: t in word ==> OfRun(t)
    ensures Decided(cs, keys, [COMMA] + word)
  {
    hide BaseLetter, IsWordChar, CharsetData.Good;
  }

  lemma SyllableOfUO(env: Env)
    requires SourceTables(env.cs) && env.sp == SOURCE_SPELLING
    ensures ExtractLastSyllable(env, [COMMA, U1, O]) == ([COMMA], [U1, O])
  {
    hide SourceTables, IsValid, CharsetData.Good, ExtractLastWord;
    assert [COMMA, U1, O] == [COMMA] + [U1, O];
    WordOfRun(env.cs, [U1, O], []);
    ValidUO(env);
    var last := [U1, O];
    Single(env, last[0..1]);
    assert last[0..2] == last;
    assert Anchor(env, last, 1) == 0 && Anchor(env, last, 2) == 0;
    assert [COMMA] + last[..0] == [COMMA] && last[0..] == last;
  }

  lemma Single(env: Env, comp: Composition)
    requires |comp| <= 1
    ensures IsValid(env, comp, false)
  {
  }

  lemma SyllableOfQ(env: Env)
    requires SourceTables(env.cs) && env.sp == SOURCE_SPELLING
    ensures ExtractLastSyllable(env, [COMMA, U1, O, Q, T]) == ([COMMA, U1, O], [Q, T])
  {
    hide SourceTables, IsValid, CharsetData.Good, ExtractLastWord;
    var last := [U1, O, Q, T];
    assert [COMMA, U1, O, Q, T] == [COMMA] + last;
    WordOfRun(env.cs, last, []);
    ValidUO(env);
    InvalidUOQ(env, []);
    ValidQU(env, []);
    Single(env, last[0..1]);
    assert last[0..2] == [U1, O] && last[0..3] == [U1, O, Q] + [] && last[2..4] == [Q, T] + [];
    assert Anchor(env, last, 1) == 0 && Anchor(env, last, 2) == 0;
    assert Anchor(env, last, 3) == 2 && Anchor(env, last, 4) == 2;
    assert [COMMA] + last[..2] == [COMMA, U1, O] && last[2..] == [Q, T];
  }

  // ----- the keys -----

  lemma NoRules(c: Config, key: char)
    requires DroppingConfig(c) && (key == 'q' || key == 'u')
    ensures RulesFor(c, key) == [] && RulesFor(c, 's') == [TONE]
  {
    hide CharsetData.Good, SourceTables;
    var cs := c.env.cs;
    Lowered(cs, key);
    Lowered(cs, 's');
    assert c.im.rules == [TONE] && [TONE][1..] == [];
    assert ApplicableRules(cs, [], key) == [] && ApplicableRules(cs, [], 's') == [];
    assert ApplicableRules(cs, [TONE], key) == [] && ApplicableRules(cs, [TONE], 's') == [TONE];
  }

  lemma {:induction false} NoMarkTarget(env: Env, comp: Composition, i: nat, nid: nat)
    requires i <= |comp|
    ensures FindMarkTarget(env, comp, [], i, nid) == None
  {
    if i > 0 {
      NoMarkTarget(env, comp, i - 1, nid);
    }
  }

  // A key without rules becomes a letter.
  lemma Falls(c: Config, comp: Composition, key: char, nid: nat)
    requires DroppingConfig(c) && (key == 'q' || key == 'u') && !IsRawDouble(comp, key)
    requires !HasUhO(Canvas(c.env.cs, comp, TONELESS_LOWER))
    ensures KeyTransformations(c, comp, key, false, nid)
            == [NewAppendingTrans(nid, key, false)]
              + UowShortcut(c, comp + [NewAppendingTrans(nid, key, false)], nid + 1)
  {
    hide DroppingConfig, UowShortcut, RulesFor, HasUhO, Canvas, IsRawDouble;
    NoRules(c, key);
    NoMarkTarget(c.env, comp, |comp|, nid);
    assert FindTarget(c.env, comp, [], [], c.flags, nid) == None;
    assert GenerateUndo(c.env.cs, comp, [], c.flags, nid) == [];
    assert UoRewrite(c.env, comp, [], c.flags, false, nid) == [];
    assert AppendingRuleFor([], key) == None;
    assert GenerateTransformations(c.env, comp, [], c.flags, key, false, nid) == [];
    assert GenerateFallback(c.env.cs, [], key, false, nid) == [NewAppendingTrans(nid, key, false)];
  }

  // The shortcut puts the tone of the super key behind the 'q', on the 'ơ' before it.
  lemma ShortcutOnQ(c: Config)
    requires DroppingConfig(c)
    ensures UowShortcut(c, [U1, O, Q], 4) == [T]
  {
    hide SourceTables, CharsetData.Good, Canvas, IsVowel, AddToneToChar, FindTarget, RulesFor;
    var cs := c.env.cs;
    var comp := [U1, O, Q];
    TextOf(cs, comp);
    assert KeysOfLetters(comp) == "uơq";
    LetterQ(cs);
    assert PairAt("uơq", 0, 'u', 'ơ');
    assert HasUOhTail(cs, "uơq");
    NoRules(c, 'q');
    ToneGoesToO(c);
  }

  lemma LetterQ(cs: Charset)
    requires SourceTables(cs)
    ensures cs.isLetter('q')
  {
  }

  lemma ToneGoesToO(c: Config)
    requires DroppingConfig(c)
    ensures FindTarget(c.env, [U1, O, Q], [TONE], [TONE], c.flags, 4) == Some((2, TONE))
  {
    hide SourceTables, CharsetData.Good, Canvas, IsVowel, AddToneToChar, ExtractCvcTrans;
    var cs := c.env.cs;
    var comp := [U1, O, Q];
    SyllableUOQ(cs, []);
    assert comp + [] == comp;
    var vo := [U1, O];
    assert vo[..1] == [U1] && [U1][..0] == [];
    assert FilterAppending([U1]) == [U1] && FilterAppending(vo) == vo;
    assert StdVowelTarget(vo) == Some(2);
    assert FindToneTarget(cs, comp, c.flags.std) == Some(2);
    assert ToneTargetFor(cs, comp, TONE_ACUTE, c.flags) == Some(2);
    ToneShows(cs);
  }

  lemma ToneShows(cs: Charset)
    requires SourceTables(cs)
    ensures Canvas(cs, [U1, O, Q], VIETNAMESE) != Canvas(cs, [U1, O, Q] + [Candidate(4, TONE, Some(2))], VIETNAMESE)
  {
    hide SourceTables, CharsetData.Good, IsVowel, AddToneToChar, Letters, EffectsOn;
    Characters(cs);
    var comp := [U1, O, Q];
    var t := Candidate(4, TONE, Some(2));
    AllShown(comp);
    LettersConcat(comp, [t], false);
    EffectAlone(cs, t, VIETNAMESE);
    assert comp + [] == comp;
    GlyphsOfO(cs);
    assert Canvas(cs, comp, VIETNAMESE)[1] == Glyph(cs, comp, O, VIETNAMESE);
    assert Canvas(cs, comp + [t], VIETNAMESE)[1] == Glyph(cs, comp + [t], O, VIETNAMESE);
  }

  lemma GlyphsOfO(cs: Charset)
    requires SourceTables(cs)
    ensures Glyph(cs, [U1, O, Q], O, VIETNAMESE) == 'ơ'
    ensures Glyph(cs, [U1, O, Q] + [Candidate(4, TONE, Some(2))], O, VIETNAMESE) == 'ớ'
  {
    hide SourceTables, CharsetData.Good, IsVowel, AddToneToChar;
    Characters(cs);
    var comp := [U1, O, Q];
    var t := Candidate(4, TONE, Some(2));
    assert !Targets(comp, 2);
    NoTargetsNoEffects(comp, 2);
    EffectsConcat(comp, [t], 2);
    assert [t][..0] == [] && EffectsOn([t], 2) == [t];
    assert [] + [t] == [t];
    assert Fold(cs, 'ơ', 'ơ', []) == 'ơ' && Fold(cs, 'ơ', 'ơ', [t]) == 'ớ';
  }

  lemma TypeQ(c: Config)
    requires DroppingConfig(c)
    ensures ProcessKey(c, State([COMMA, U1, O], 3), 'q', false) == State([COMMA, U1, O, Q, T], 5)
  {
    hide SourceTables, CharsetData.Good, Canvas, IsValid, KeyTransformations, UowShortcut, ExtractLastSyllable,
         CanProcessKey, HasUhO, RefreshLastToneTarget;
    var cs := c.env.cs;
    SyllableOfUO(c.env);
    Lowered(cs, 'q');
    Breaks(cs, ['s']);
    var comp := [U1, O];
    TextOf(cs, comp);
    assert KeysOfLetters(comp) == "uơ";
    NoUhO("uơ");
    Falls(c, comp, 'q', 3);
    assert comp + [Q] == [U1, O, Q];
    ShortcutOnQ(c);
    assert [Q] + [T] == [Q, T];
    assert comp + [Q, T] == [U1, O, Q] + [T];
    InvalidUOQ(c.env, [T]);
    assert [COMMA] + ([U1, O, Q] + [T] + []) == [COMMA, U1, O, Q, T];
  }

  lemma NoUhO(s: string)
    requires 'ư' !in s
    ensures !HasUhO(s)
  {
  }

  // The refresh of "qu" finds no vowel for the tone, and drops it.
  lemma DropOnQU(c: Config)
    requires DroppingConfig(c)
    ensures RefreshDrops(c, [Q, T, U2])
    ensures Refresh(c, [Q, T, U2], 6) == ([Q, LOST, U2], [RESET, COPY])
  {
    hide SourceTables, CharsetData.Good, IsValid, ExtractCvcTrans;
    var comp := [Q, T, U2];
    assert [Q, T] + [U2] == comp;
    ValidQU(c.env, [U2]);
    SyllableQU(c.env.cs, [U2]);
    assert comp[..2] == [Q, T];
    assert LastToneIndex([Q, T]) == 2 && LastToneIndex(comp) == 2;
    assert FilterAppending([]) == [];
    assert FindToneTarget(c.env.cs, comp, c.flags.std) == None;
    assert comp[1 := LOST] == [Q, LOST, U2];
  }

  lemma TypeU(c: Config)
    requires DroppingConfig(c)
    ensures ProcessKey(c, State([COMMA, U1, O, Q, T], 5), 'u', false)
            == State([COMMA, U1, O, Q, LOST, U2, RESET, COPY], 8)
    ensures StepDrops(c, State([COMMA, U1, O, Q, T], 5), Type('u', false))
  {
    hide SourceTables, CharsetData.Good, Canvas, KeyTransformations, UowShortcut, ExtractLastSyllable, CanProcessKey,
         HasUhO, HasUOhTail, Refresh, RefreshDrops;
    var cs := c.env.cs;
    SyllableOfQ(c.env);
    Lowered(cs, 'u');
    Breaks(cs, ['s']);
    var comp := [Q, T];
    TextQ(cs);
    NoUhO("q");
    Falls(c, comp, 'u', 5);
    NoShortcut(c);
    assert [U2] + [] == [U2] && comp + [U2] == [Q, T, U2];
    DropOnQU(c);
    assert [COMMA, U1, O] + ([Q, LOST, U2] + [RESET, COPY]) == [COMMA, U1, O, Q, LOST, U2, RESET, COPY];
  }

  lemma TextQ(cs: Charset)
    requires SourceTables(cs)
    ensures Canvas(cs, [Q, T], TONELESS_LOWER) == "q" && Canvas(cs, [Q, T, U2], TONELESS_LOWER) == "qu"
  {
    hide SourceTables, CharsetData.Good, AddToneToChar, Canvas;
    KeyOfRun(cs, Q);
    KeyOfRun(cs, U2);
    assert [Q, T, U2][..2] == [Q, T] && [Q, T][..1] == [Q] && [Q][..0] == [];
    assert Letters([Q], false) == [Q] && Letters([Q, T], false) == [Q] && Letters([Q, T, U2], false) == [Q, U2];
    SimpleText(cs, [Q, T]);
    SimpleText(cs, [Q, T, U2]);
    assert KeysOfLetters([Q]) == "q" && KeysOfLetters([Q, U2]) == "qu";
  }

  lemma NoShortcut(c: Config)
    requires DroppingConfig(c)
    ensures UowShortcut(c, [Q, T] + [U2], 6) == []
  {
    hide SourceTables, CharsetData.Good, Canvas;
    TextQ(c.env.cs);
    assert [Q, T] + [U2] == [Q, T, U2];
  }

  // ----- the backspaces -----

  lemma Popped(c: Config, word: Composition, letter: Trans, rest: Composition)
    requires DroppingConfig(c) && (forall t :: t in word ==> OfRun(t)) && Without(word, letter) == rest
    requires FindLastAppending([COMMA] + word) == Some(letter) && letter in [U1, O, Q, U2]
    ensures RemoveLastChar(c, State([COMMA] + word, 8), false) == State([COMMA] + rest, 8)
  {
    hide SourceTables, CharsetData.Good, CanProcessKey, ExtractLastWord, OfRun, Without, FindLastAppending;
    Breaks(c.env.cs, ['s']);
    WordOfRun(c.env.cs, word, ['s']);
    assert [COMMA] + rest + [] == [COMMA] + rest;
  }

  lemma Append(c: Config, ops: seq<Op>, op: Op)
    ensures RunOps(c, ops + [op]) == Apply(c, RunOps(c, ops), op)
  {
    assert (ops + [op])[..|ops|] == ops;
  }

  const LETTERS := [] + [Type(',', true)] + [Type('u', true)] + [Type('ơ', true)]
  const KEYS := LETTERS + [Type('q', false)] + [Type('u', false)]
  const RUN := KEYS + [Backspace(false)] + [Backspace(false)] + [Backspace(false)] + [Backspace(false)]

  // A letter typed in English mode.
  lemma English(c: Config, st: State, key: char)
    requires DroppingConfig(c) && key in ",uơ"
    ensures Apply(c, st, Type(key, true)) == State(st.comp + [NewAppendingTrans(st.nextId, key, false)], st.nextId + 1)
  {
    hide SourceTables, CharsetData.Good, NewComposition;
    Lowered(c.env.cs, key);
  }

  lemma FirstKeys(c: Config)
    requires DroppingConfig(c)
    ensures RunOps(c, LETTERS) == State([COMMA, U1, O], 3)
  {
    hide DroppingConfig, Apply;
    assert RunOps(c, []) == EMPTY;
    Append(c, [], Type(',', true));
    English(c, EMPTY, ',');
    assert [] + [COMMA] == [COMMA];
    Append(c, [] + [Type(',', true)], Type('u', true));
    English(c, State([COMMA], 1), 'u');
    assert [COMMA] + [U1] == [COMMA, U1];
    Append(c, [] + [Type(',', true)] + [Type('u', true)], Type('ơ', true));
    English(c, State([COMMA, U1], 2), 'ơ');
    assert [COMMA, U1] + [O] == [COMMA, U1, O];
  }

  lemma Keys(c: Config)
    requires DroppingConfig(c)
    ensures RunOps(c, KEYS) == State([COMMA, U1, O, Q, LOST, U2, RESET, COPY], 8)
    ensures StepDrops(c, RunOps(c, LETTERS + [Type('q', false)]), Type('u', false))
  {
    hide ProcessKey, StepDrops, DroppingConfig, RunOps;
    FirstKeys(c);
    Append(c, LETTERS, Type('q', false));
    TypeQ(c);
    Append(c, LETTERS + [Type('q', false)], Type('u', false));
    TypeU(c);
  }

  lemma WithoutOne(a: Composition, letter: Trans, b: Composition)
    requires forall t :: t in a + b ==> t.target != Some(letter.id) && t.id != letter.id
    ensures Without(a + [letter] + b, letter) == a + b
  {
    assert forall t :: t in a ==> t in a + b;
    assert forall t :: t in b ==> t in a + b;
    WithoutConcat(a + [letter], b, letter);
    WithoutConcat(a, [letter], letter);
    WithoutUnrelated(a, letter);
    WithoutUnrelated(b, letter);
    assert [letter][..0] == [] && Without([letter], letter) == [];
    assert a + [] == a;
  }

  lemma LastOne(a: Composition, letter: Trans, b: Composition)
    requires IsAppending(letter) && forall t :: t in b ==> !IsAppending(t)
    ensures FindLastAppending(a + [letter] + b) == Some(letter)
  {
    LastAppendingOfConcat(a + [letter], b);
    assert (a + [letter])[|a|] == letter;
    var last := FindLastAppending(b);
    LastAppendingMember(b);
  }

  // One backspace of the run.
  lemma PopOne(c: Config, ops: seq<Op>, a: Composition, letter: Trans, b: Composition)
    requires DroppingConfig(c) && RunOps(c, ops) == State([COMMA] + (a + [letter] + b), 8)
    requires letter in [U1, O, Q, U2]
             && (forall t :: t in a + b ==> OfRun(t) && t.target != Some(letter.id) && t.id != letter.id)
    requires forall t :: t in b ==> !IsAppending(t)
    ensures RunOps(c, ops + [Backspace(false)]) == State([COMMA] + (a + b), 8)
  {
    hide DroppingConfig, RunOps, Without, FindLastAppending, OfRun;
    var word := a + [letter] + b;
    WithoutOne(a, letter, b);
    LastOne([COMMA] + a, letter, b);
    assert [COMMA] + word == [COMMA] + a + [letter] + b;
    LetterOfRun(letter);
    forall t | t in word ensures OfRun(t) {
      assert t in a + b || t == letter;
    }
    Popped(c, word, letter, a + b);
    Append(c, ops, Backspace(false));
  }

  lemma LetterOfRun(letter: Trans)
    requires letter in [U1, O, Q, U2]
    ensures OfRun(letter) && IsAppending(letter)
  {
  }

  lemma PopU2(c: Config, ops: seq<Op>)
    requires DroppingConfig(c) && RunOps(c, ops) == State([COMMA, U1, O, Q, LOST, U2, RESET, COPY], 8)
    ensures RunOps(c, ops + [Backspace(false)]) == State([COMMA] + ([U1, O, Q, LOST] + [RESET, COPY]), 8)
  {
    hide DroppingConfig, RunOps, OfRun;
    var a, b := [U1, O, Q, LOST], [RESET, COPY];
    assert [COMMA, U1, O, Q, LOST, U2, RESET, COPY] == [COMMA] + (a + [U2] + b);
    AroundU2();
    PopOne(c, ops, a, U2, b);
  }

  lemma AroundU2()
    ensures forall t :: t in [U1, O, Q, LOST] + [RESET, COPY] ==> OfRun(t) && t.target != Some(U2.id) && t.id != U2.id
    ensures forall t :: t in [RESET, COPY] ==> !IsAppending(t)
  {
  }

  lemma PopQ(c: Config, ops: seq<Op>)
    requires DroppingConfig(c) && RunOps(c, ops) == State([COMMA] + ([U1, O, Q, LOST] + [RESET, COPY]), 8)
    ensures RunOps(c, ops + [Backspace(false)]) == State([COMMA] + ([U1, O] + [LOST, RESET, COPY]), 8)
  {
    hide DroppingConfig, RunOps;
    assert [U1, O, Q, LOST] + [RESET, COPY] == [U1, O] + [Q] + [LOST, RESET, COPY];
    PopOne(c, ops, [U1, O], Q, [LOST, RESET, COPY]);
  }

  lemma PopO(c: Config, ops: seq<Op>)
    requires DroppingConfig(c) && RunOps(c, ops) == State([COMMA] + ([U1, O] + [LOST, RESET, COPY]), 8)
    ensures RunOps(c, ops + [Backspace(false)]) == State([COMMA] + ([U1] + [LOST, RESET, COPY]), 8)
  {
    hide DroppingConfig, RunOps;
    assert [U1, O] + [LOST, RESET, COPY] == [U1] + [O] + [LOST, RESET, COPY];
    PopOne(c, ops, [U1], O, [LOST, RESET, COPY]);
  }

  lemma PopU1(c: Config, ops: seq<Op>)
    requires DroppingConfig(c) && RunOps(c, ops) == State([COMMA] + ([U1] + [LOST, RESET, COPY]), 8)
    ensures RunOps(c, ops + [Backspace(false)]) == State([COMMA] + [LOST, RESET, COPY], 8)
  {
    hide DroppingConfig, RunOps;
    assert [U1] + [LOST, RESET, COPY] == [] + [U1] + [LOST, RESET, COPY];
    PopOne(c, ops, [], U1, [LOST, RESET, COPY]);
    assert [] + [LOST, RESET, COPY] == [LOST, RESET, COPY];
  }

  lemma AllPopped(c: Config)
    requires DroppingConfig(c)
    ensures RunOps(c, RUN) == State([COMMA] + [LOST, RESET, COPY], 8)
  {
    hide DroppingConfig, RunOps;
    var b := [Backspace(false)];
    Keys(c);
    PopU2(c, KEYS);
    PopQ(c, KEYS + b);
    PopO(c, KEYS + b + b);
    PopU1(c, KEYS + b + b + b);
  }

  // The tone that lost its vowel outlives the word, and a backspace behind the comma takes it instead of the comma.
  lemma BackspaceMisses(c: Config)
    requires DroppingConfig(c)
    ensures GoodMethod(c.env.cs, c.im) && NoAppending(c.im)
    ensures !DropsNothing(c, RUN) && !Pops(c, RunOps(c, RUN))
    ensures Letters(RunOps(c, RUN).comp, false) == [COMMA]
    ensures Letters(RunOps(c, RUN + [Backspace(false)]).comp, false) == [COMMA]
  {
    hide DroppingConfig, CharsetData.Good, RemoveLastChar, StepDrops, RunOps, DropsNothing, Pops, GoodMethod,
         NoAppending;
    AllPopped(c);
    Keys(c);
    DroppedInFront(c);
    MethodIsGood(c);
    LastMisses(c);
    Append(c, RUN, Backspace(false));
  }

  lemma MethodIsGood(c: Config)
    requires DroppingConfig(c)
    ensures GoodMethod(c.env.cs, c.im) && NoAppending(c.im)
  {
    hide SourceTables, CharsetData.Good;
    Lowered(c.env.cs, 's');
    Characters(c.env.cs);
  }

  lemma LastMisses(c: Config)
    requires DroppingConfig(c)
    ensures var st := State([COMMA] + [LOST, RESET, COPY], 8);
            && !Pops(c, st) && Letters(st.comp, false) == [COMMA]
            && Letters(RemoveLastChar(c, st, false).comp, false) == [COMMA]
  {
    hide SourceTables, CharsetData.Good, CanProcessKey, Letters, FindLastAppending;
    Breaks(c.env.cs, ['s']);
    LastOne([], COMMA, [LOST, RESET, COPY]);
    var comp := [COMMA] + [LOST, RESET, COPY];
    assert [] + [COMMA] + [LOST, RESET, COPY] == comp;
    assert comp[..3] == [COMMA] + [LOST, RESET];
    AllShown([COMMA]);
    LettersConcat([COMMA], [LOST, RESET, COPY], false);
    LettersConcat([COMMA], [LOST, RESET], false);
    EffectsHaveNoLetters([LOST, RESET, COPY]);
    EffectsHaveNoLetters([LOST, RESET]);
  }

  lemma DroppedInFront(c: Config)
    requires StepDrops(c, RunOps(c, LETTERS + [Type('q', false)]), Type('u', false))
    ensures !DropsNothing(c, RUN)
  {
    hide StepDrops, RunOps, DropsNothing;
    var b := Backspace(false);
    DropStays(c, LETTERS + [Type('q', false)], Type('u', false));
    DropStays(c, KEYS, b);
    DropStays(c, KEYS + [b], b);
    DropStays(c, KEYS + [b] + [b], b);
    DropStays(c, KEYS + [b] + [b] + [b], b);
  }

  lemma DropStays(c: Config, ops: seq<Op>, op: Op)
    ensures DropsNothing(c, ops + [op]) <==> DropsNothing(c, ops) && !StepDrops(c, RunOps(c, ops), op)
  {
    hide StepDrops, RunOps;
    assert (ops + [op])[..|ops|] == ops;
  }
}
