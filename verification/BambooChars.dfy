/**
 Character arithmetic of the Bamboo core: tones and marks as table look-ups.

 The vowel table lists every vowel in blocks of six (one block per toneless
 vowel, one column per tone); the mark table maps each toneless letter of a
 family to the five-slot row of its family ('_' marks an empty slot).  The
 tables and Unicode's case mapping are data: they are fields of a `Charset`,
 and `Good` collects what the code relies on about them.
 */
module BambooChars {

  // Tones are 0..5; marks are 0..4, and 5 is MarkRaw.
  type Effect = n: nat | n < 6
  const MARK_NONE: Effect := 0
  const MARK_RAW: Effect := 5
  const TONE_NONE: Effect := 0
  const TONE_ACUTE: Effect := 2
  const TONE_DOT: Effect := 5

  const NUL := '\0'
  const PUNCTUATION_MARKS := ",;:.\"'!? <>=+-*/\\_~`@#$%^&(){}[]|"

  datatype CharsetData = CharsetData(
    vowels: string,
    marks: map<char, string>,
    lower: char -> char,
    upper: char -> char,
    isUpper: char -> bool,
    isLetter: char -> bool)
  {
    ghost predicate GoodVowels() {
      && |vowels| % 6 == 0
      && (forall i, j :: 0 <= i < j < |vowels| ==> vowels[i] != vowels[j])
      && NUL !in vowels
    }

    // Every row has five slots, the unmarked letter first, and is the row of each of its letters.
    ghost predicate GoodMarks() {
      && (forall k :: k in marks ==> |marks[k]| == 5 && marks[k][0] != '_')
      && (forall k, m :: k in marks && 0 <= m < 5 && marks[k][m] != '_' ==>
            marks[k][m] in marks && marks[marks[k][m]] == marks[k])
    }

    // A family is all vowels or no vowels, and its letters carry no tone.
    ghost predicate GoodFamilies() {
      && (forall k, i :: k in marks && 0 <= i < |vowels| && vowels[i] == k ==> i % 6 == 0)
      && (forall k, m :: k in marks && |marks[k]| == 5 && 0 <= m < 5 && marks[k][m] != '_' ==>
           (marks[k][m] in vowels <==> k in vowels))
    }

    // Stripped of tone and mark, every letter of the tables is a Latin letter.
    ghost predicate GoodBases() {
      && (forall i :: 0 <= i < |vowels| && i % 6 == 0 && vowels[i] !in marks ==> IsAlpha(vowels[i]))
      && (forall k :: k in marks && |marks[k]| == 5 ==> IsAlpha(marks[k][0]))
      && (forall c :: IsWordBreakSymbol(c) ==> c !in vowels && c !in marks)
    }

    ghost predicate GoodCase() {
      && (forall c :: lower(lower(c)) == lower(c))
      && (forall c :: IsAlpha(c) ==> IsAlpha(lower(c)))
    }

    ghost predicate Good() {
      GoodVowels() && GoodMarks() && GoodFamilies() && GoodBases() && GoodCase()
    }
  }

  ghost const NO_TABLES := CharsetData("", map[], c => c, c => c, c => false, c => false)

  type Charset = cs: CharsetData | cs.Good() ghost witness NO_TABLES

  predicate IsAlpha(c: char) {
    'a' <= c <= 'z' || 'A' <= c <= 'Z'
  }

  predicate IsWordBreakSymbol(c: char) {
    c in PUNCTUATION_MARKS || '0' <= c <= '9'
  }

  // ----- table look-ups -----

  function IndexFrom(s: string, c: char, i: nat): (r: int)
    requires i <= |s|
    ensures r == -1 ==> c !in s[i..]
    ensures r != -1 ==> i <= r < |s| && s[r] == c
    decreases |s| - i
  {
    if i == |s| then -1
    else if s[i] == c then i
    else
      assert s[i..] == [s[i]] + s[i + 1..];
      IndexFrom(s, c, i + 1)
  }

  // The loop of the source: first position, or -1.
  method FindVowelPosition(cs: Charset, chr: char) returns (pos: int)
    ensures pos == VowelPos(cs, chr)
  {
    pos := 0;
    while pos < |cs.vowels|
      invariant 0 <= pos <= |cs.vowels|
      invariant VowelPos(cs, chr) == IndexFrom(cs.vowels, chr, pos)
    {
      if cs.vowels[pos] == chr {
        return;
      }
      pos := pos + 1;
    }
    pos := -1;
  }

  function VowelPos(cs: Charset, c: char): (r: int)
    ensures r == -1 <==> c !in cs.vowels
    ensures r != -1 ==> 0 <= r < |cs.vowels| && cs.vowels[r] == c
  {
    IndexFrom(cs.vowels, c, 0)
  }

  predicate IsVowel(cs: Charset, c: char) {
    c in cs.vowels
  }

  function FindToneFromChar(cs: Charset, c: char): (t: Effect)
  {
    var pos := VowelPos(cs, c);
    if pos == -1 then TONE_NONE else pos % 6
  }

  function AddToneToChar(cs: Charset, c: char, tone: Effect): char
  {
    var pos := VowelPos(cs, c);
    if pos > -1 then
      SlotInTable(|cs.vowels|, pos, tone);
      cs.vowels[pos + (tone - pos % 6)]
    else c
  }

  lemma SlotInTable(n: nat, pos: nat, tone: Effect)
    requires n % 6 == 0 && pos < n
    ensures 0 <= pos + (tone - pos % 6) < n
    ensures (pos + (tone - pos % 6)) % 6 == tone
    ensures pos + (tone - pos % 6) - tone == pos - pos % 6
  {
  }

  function AddMarkToTonelessChar(cs: Charset, c: char, mark: Effect): char
    requires mark < 5
  {
    if c in cs.marks && cs.marks[c][mark] != '_' then cs.marks[c][mark] else c
  }

  function AddMarkToChar(cs: Charset, c: char, mark: Effect): char
    requires mark < 5
  {
    var tone := FindToneFromChar(cs, c);
    AddToneToChar(cs, AddMarkToTonelessChar(cs, AddToneToChar(cs, c, 0), mark), tone)
  }

  predicate IsVietnameseRune(cs: Charset, c: char) {
    FindToneFromChar(cs, c) != TONE_NONE || c != AddMarkToTonelessChar(cs, c, 0)
  }

  predicate CanProcessKey(cs: Charset, lowerKey: char, effectKeys: seq<char>) {
    if IsAlpha(lowerKey) || lowerKey in effectKeys then true
    else if IsWordBreakSymbol(lowerKey) then false
    else IsVietnameseRune(cs, lowerKey)
  }

  // ----- the two registers -----

  // The letter without its tone: the mark register together with the base letter.
  function Toneless(cs: Charset, c: char): char {
    AddToneToChar(cs, c, 0)
  }

  // The letter stripped of tone and mark.
  function Base(cs: Charset, c: char): char {
    AddMarkToChar(cs, AddToneToChar(cs, c, 0), 0)
  }

  // Tones overwrite tones.
  lemma ToneOverwrites(cs: Charset, c: char, t: Effect, u: Effect)
    ensures AddToneToChar(cs, AddToneToChar(cs, c, t), u) == AddToneToChar(cs, c, u)
    ensures c in cs.vowels ==>
            AddToneToChar(cs, c, t) in cs.vowels && FindToneFromChar(cs, AddToneToChar(cs, c, t)) == t
    ensures c !in cs.vowels ==> AddToneToChar(cs, c, t) == c
  {
    var pos := VowelPos(cs, c);
    if pos > -1 {
      SlotInTable(|cs.vowels|, pos, t);
      SlotInTable(|cs.vowels|, pos, u);
      var at := pos + (t - pos % 6);
      var d := AddToneToChar(cs, c, t);
      assert d == cs.vowels[at];
      assert VowelPos(cs, d) == at by {
        var p := VowelPos(cs, d);
        assert cs.vowels[p] == cs.vowels[at];
      }
    }
  }

  lemma KeepsOwnTone(cs: Charset, c: char)
    ensures AddToneToChar(cs, c, FindToneFromChar(cs, c)) == c
  {
  }

  // Marking a toneless letter stays in its family and stays toneless.
  lemma MarkStaysInFamily(cs: Charset, c: char, m: Effect)
    requires m < 5 && Toneless(cs, c) == c
    ensures var d := AddMarkToTonelessChar(cs, c, m); Toneless(cs, d) == d && (d in cs.vowels <==> c in cs.vowels)
    ensures var d := AddMarkToTonelessChar(cs, c, m);
            && (c in cs.marks <==> d in cs.marks)
            && (c in cs.marks ==> cs.marks[d] == cs.marks[c])
  {
    var d := AddMarkToTonelessChar(cs, c, m);
    var pos := VowelPos(cs, d);
    if c in cs.marks && pos > -1 {
      assert pos % 6 == 0;
    }
  }

  lemma TonelessIsToneless(cs: Charset, c: char)
    ensures Toneless(cs, Toneless(cs, c)) == Toneless(cs, c)
    ensures FindToneFromChar(cs, Toneless(cs, c)) == TONE_NONE
    ensures c in cs.vowels <==> Toneless(cs, c) in cs.vowels
  {
    ToneOverwrites(cs, c, 0, 0);
  }

  // Marks act on the mark register alone ...
  lemma MarkSetsMarkRegister(cs: Charset, c: char, m: Effect)
    requires m < 5
    ensures Toneless(cs, AddMarkToChar(cs, c, m)) == AddMarkToTonelessChar(cs, Toneless(cs, c), m)
    ensures FindToneFromChar(cs, AddMarkToChar(cs, c, m)) == FindToneFromChar(cs, c)
    ensures AddMarkToChar(cs, c, m) in cs.vowels <==> c in cs.vowels
  {
    TonelessIsToneless(cs, c);
    MarkStaysInFamily(cs, Toneless(cs, c), m);
    var d := AddMarkToTonelessChar(cs, Toneless(cs, c), m);
    ToneOverwrites(cs, d, FindToneFromChar(cs, c), 0);
  }

  // ... and commute with tones.
  lemma MarkAndToneCommute(cs: Charset, c: char, m: Effect, t: Effect)
    requires m < 5
    ensures AddToneToChar(cs, AddMarkToChar(cs, c, m), t) == AddMarkToChar(cs, AddToneToChar(cs, c, t), m)
  {
    var d := AddMarkToTonelessChar(cs, Toneless(cs, c), m);
    ToneOverwrites(cs, d, FindToneFromChar(cs, c), t);
    ToneOverwrites(cs, c, t, 0);
    TonelessIsToneless(cs, c);
    MarkStaysInFamily(cs, Toneless(cs, c), m);
    if c !in cs.vowels {
      ToneOverwrites(cs, d, t, t);
    }
  }

  // A later mark overwrites an earlier one, unless its slot is empty.
  lemma MarkOverwrites(cs: Charset, c: char, m: Effect, n: Effect)
    requires m < 5 && n < 5 && Toneless(cs, c) == c
    ensures c in cs.marks && cs.marks[c][n] != '_' ==>
              AddMarkToTonelessChar(cs, AddMarkToTonelessChar(cs, c, m), n) == AddMarkToTonelessChar(cs, c, n)
    ensures !(c in cs.marks && cs.marks[c][n] != '_') ==>
              AddMarkToTonelessChar(cs, AddMarkToTonelessChar(cs, c, m), n) == AddMarkToTonelessChar(cs, c, m)
  {
  }

  // No tone or mark effect changes the base letter.
  lemma BaseIsStable(cs: Charset, c: char, m: Effect, t: Effect)
    ensures Base(cs, AddToneToChar(cs, c, t)) == Base(cs, c)
    ensures m < 5 ==> Base(cs, AddMarkToChar(cs, c, m)) == Base(cs, c)
  {
    ToneOverwrites(cs, c, t, 0);
    if m < 5 {
      MarkSetsMarkRegister(cs, c, m);
      TonelessIsToneless(cs, c);
      MarkStaysInFamily(cs, Toneless(cs, c), m);
      TonelessIsToneless(cs, AddMarkToChar(cs, c, m));
    }
  }

  lemma BaseOfToneless(cs: Charset, c: char)
    ensures Base(cs, c) == AddMarkToTonelessChar(cs, Toneless(cs, c), 0)
  {
    TonelessIsToneless(cs, c);
    MarkStaysInFamily(cs, Toneless(cs, c), 0);
  }

  // Letters of the tables reduce to Latin letters; everything else is its own base.
  lemma BaseIsAlphaOrSelf(cs: Charset, c: char)
    ensures c in cs.vowels || c in cs.marks ==> IsAlpha(Base(cs, c))
    ensures !(c in cs.vowels || c in cs.marks) ==> Base(cs, c) == c
  {
    BaseOfToneless(cs, c);
    var pos := VowelPos(cs, c);
    if pos > -1 {
      SlotInTable(|cs.vowels|, pos, 0);
    }
  }

  predicate IsWordChar(c: char, keys: seq<char>) {
    IsAlpha(c) || c in keys
  }

  // A key can be processed exactly when its letter does not end a word.
  lemma ProcessableIffWordChar(cs: Charset, c: char, keys: seq<char>)
    requires cs.lower(c) == c
    ensures CanProcessKey(cs, c, keys) <==> IsWordChar(cs.lower(Base(cs, c)), keys)
  {
    BaseIsAlphaOrSelf(cs, c);
    BaseOfToneless(cs, c);
    if !IsAlpha(c) && c !in keys {
      if c in cs.vowels || c in cs.marks {
        assert !IsWordBreakSymbol(c);
        if FindToneFromChar(cs, c) == TONE_NONE {
          assert Toneless(cs, c) == c by { KeepsOwnTone(cs, c); }
        }
      } else {
        assert AddMarkToTonelessChar(cs, c, 0) == c;
      }
    }
  }
}
