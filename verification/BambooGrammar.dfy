/**
 Exactly which syllables the loose grammar accepts, by rows and matrices, and what that says of the shipped tables.
 */
module BambooGrammar {
  import opened BambooChars
  import opened BambooSpelling
  import opened BambooSpellingTables

  // ----- one word -----

  function Unmarked(cs: Charset, word: string): (r: string)
    ensures |r| == |word| && forall k :: 0 <= k < |word| ==> r[k] == AddMarkToTonelessChar(cs, word[k], 0)
  {
    seq(|word|, k requires 0 <= k < |word| => AddMarkToTonelessChar(cs, word[k], 0))
  }

  // A complete input is a word or begins one, as asked for.  An incomplete one may also leave out marks: any
  // part of the unmarked word will do, and whatever will do is the beginning of the word once all marks are gone.
  lemma WordMatchesMeans(cs: Charset, word: string, input: string, full: bool)
    ensures WordMatches(cs, word, input, full, true) <==> if full then input == word else input <= word
    ensures input <= Unmarked(cs, word) && (full ==> |input| == |word|) ==> WordMatches(cs, word, input, full, false)
    ensures WordMatches(cs, word, input, full, false) ==>
              Unmarked(cs, input) <= Unmarked(cs, word) && (full ==> |input| == |word|)
  {
  }

  // ----- the words of a row -----

  // A row without blanks is one word; otherwise its words are the one before the first blank and those behind it.
  lemma WordsOfRow(cs: Charset, row: string, rest: string, input: string, full: bool, complete: bool)
    requires ' ' !in row
    ensures RowMatches(cs, row, input, full, complete) <==> WordMatches(cs, row, input, full, complete)
    ensures RowMatches(cs, row + " " + rest, input, full, complete)
            <==> WordMatches(cs, row, input, full, complete) || RowMatches(cs, rest, input, full, complete)
  {
    hide WordMatches, IsWord;
    var whole, n := row + " " + rest, |row|;
    assert row[0..n] == row && whole[0..n] == row;
    FirstWord(row, rest);
    if WordMatches(cs, row, input, full, complete) {
      assert IsWord(row, 0, n) && IsWord(whole, 0, n);
    }
    if RowMatches(cs, rest, input, full, complete) {
      var i, j :| 0 <= i <= j <= |rest| && IsWord(rest, i, j) && WordMatches(cs, rest[i..j], input, full, complete);
      LaterWord(row, rest, i, j);
      assert whole[n + 1 + i..n + 1 + j] == rest[i..j];
    }
    if RowMatches(cs, row, input, full, complete) {
      var i, j :| 0 <= i <= j <= |row| && IsWord(row, i, j) && WordMatches(cs, row[i..j], input, full, complete);
      WholeRow(row, i, j);
    }
    if RowMatches(cs, whole, input, full, complete) {
      var i, j :| 0 <= i <= j <= |whole| && IsWord(whole, i, j) && WordMatches(cs, whole[i..j], input, full, complete);
      WordInWhole(row, rest, i, j);
      if i != 0 {
        LaterWord(row, rest, i - n - 1, j - n - 1);
        assert whole[i..j] == rest[i - n - 1..j - n - 1];
      }
    }
  }

  lemma FirstWord(row: string, rest: string)
    requires ' ' !in row
    ensures IsWord(row, 0, |row|) && IsWord(row + " " + rest, 0, |row|)
  {
  }

  lemma WholeRow(row: string, i: int, j: int)
    requires ' ' !in row && IsWord(row, i, j)
    ensures i == 0 && j == |row|
  {
  }

  lemma LaterWord(row: string, rest: string, i: int, j: int)
    requires 0 <= i <= j <= |rest|
    ensures IsWord(row + " " + rest, |row| + 1 + i, |row| + 1 + j) <==> IsWord(rest, i, j)
  {
    var whole, n := row + " " + rest, |row| + 1;
    assert forall m :: n <= m < |whole| ==> whole[m] == rest[m - n];
    assert whole[n - 1] == ' ';
    if IsWord(whole, n + i, n + j) {
      assert forall m :: i <= m < j ==> rest[m] == whole[n + m];
    }
  }

  lemma WordInWhole(row: string, rest: string, i: int, j: int)
    requires ' ' !in row && IsWord(row + " " + rest, i, j)
    ensures (i == 0 && j == |row|) || |row| + 1 <= i <= j <= |row| + 1 + |rest|
  {
    var whole, n := row + " " + rest, |row|;
    assert whole[n] == ' ' && forall m :: 0 <= m < n ==> whole[m] == row[m];
  }

  // ----- the accepted syllables -----

  ghost predicate First(cs: Charset, sp: Spelling, f: nat, fc: string, vo: string, full: bool) {
    f < |sp.firstConsonantSeqs| && RowMatches(cs, sp.firstConsonantSeqs[f], fc, full || vo != "", true)
  }

  ghost predicate Vowel(cs: Charset, sp: Spelling, v: nat, vo: string, lc: string, full: bool) {
    v < |sp.vowelSeqs| && RowMatches(cs, sp.vowelSeqs[v], vo, full || lc != "", full)
  }

  ghost predicate Last(cs: Charset, sp: Spelling, l: nat, lc: string, full: bool) {
    l < |sp.lastConsonantSeqs| && RowMatches(cs, sp.lastConsonantSeqs[l], lc, full, true)
  }

  // Some row of first consonants and some row of vowels match and stand in the matrix of both.
  ghost predicate FirstBeforeVowel(cs: Charset, sp: Spelling, fc: string, vo: string, lc: string, full: bool) {
    exists f: nat, v: nat :: First(cs, sp, f, fc, vo, full) && Vowel(cs, sp, v, vo, lc, full) && v in sp.cvMatrix[f]
  }

  ghost predicate VowelBeforeLast(cs: Charset, sp: Spelling, vo: string, lc: string, full: bool) {
    exists v: nat, l: nat :: Vowel(cs, sp, v, vo, lc, full) && Last(cs, sp, l, lc, full) && l in sp.vcMatrix[v]
  }

  // Every part that is there must be in some row, and every two that meet must stand in their matrix.
  lemma ValidIff(cs: Charset, sp: Spelling, fc: string, vo: string, lc: string, full: bool)
    ensures IsValidCVC(cs, sp, fc, vo, lc, full) <==>
            if vo == "" then
              && fc != "" && (exists f: nat :: First(cs, sp, f, fc, vo, full))
              && (lc != "" ==> exists l: nat :: Last(cs, sp, l, lc, full))
            else if fc == "" && lc == "" then exists v: nat :: Vowel(cs, sp, v, vo, lc, full)
            else
              && (fc != "" ==> FirstBeforeVowel(cs, sp, fc, vo, lc, full))
              && (lc != "" ==> VowelBeforeLast(cs, sp, vo, lc, full))
  {
    hide RowMatches;
    var f, v, l := FcRows(cs, sp, fc, vo, full), VoRows(cs, sp, vo, lc, full), LcRows(cs, sp, lc, full);
    FirstRows(cs, sp, fc, vo, full);
    VowelRows(cs, sp, vo, lc, full);
    LastRows(cs, sp, lc, full);
    CvRows(cs, sp, fc, vo, lc, full);
    VcRows(cs, sp, vo, lc, full);
  }

  lemma FirstRows(cs: Charset, sp: Spelling, fc: string, vo: string, full: bool)
    ensures FcRows(cs, sp, fc, vo, full) != [] <==> exists f: nat :: First(cs, sp, f, fc, vo, full)
  {
    hide RowMatches;
    var rows := FcRows(cs, sp, fc, vo, full);
    if rows != [] {
      assert rows[0] in rows;
      assert First(cs, sp, rows[0], fc, vo, full);
    }
    if f: nat :| First(cs, sp, f, fc, vo, full) {
      assert f in rows;
    }
  }

  lemma VowelRows(cs: Charset, sp: Spelling, vo: string, lc: string, full: bool)
    ensures VoRows(cs, sp, vo, lc, full) != [] <==> exists v: nat :: Vowel(cs, sp, v, vo, lc, full)
  {
    hide RowMatches;
    var rows := VoRows(cs, sp, vo, lc, full);
    if rows != [] {
      assert rows[0] in rows;
      assert Vowel(cs, sp, rows[0], vo, lc, full);
    }
    if v: nat :| Vowel(cs, sp, v, vo, lc, full) {
      assert v in rows;
    }
  }

  lemma LastRows(cs: Charset, sp: Spelling, lc: string, full: bool)
    ensures LcRows(cs, sp, lc, full) != [] <==> exists l: nat :: Last(cs, sp, l, lc, full)
  {
    hide RowMatches;
    var rows := LcRows(cs, sp, lc, full);
    if rows != [] {
      assert rows[0] in rows;
      assert Last(cs, sp, rows[0], lc, full);
    }
    if l: nat :| Last(cs, sp, l, lc, full) {
      assert l in rows;
    }
  }

  lemma CvRows(cs: Charset, sp: Spelling, fc: string, vo: string, lc: string, full: bool)
    ensures Adjacent(sp.cvMatrix, FcRows(cs, sp, fc, vo, full), VoRows(cs, sp, vo, lc, full))
            <==> FirstBeforeVowel(cs, sp, fc, vo, lc, full)
  {
    hide RowMatches;
    var left, right := FcRows(cs, sp, fc, vo, full), VoRows(cs, sp, vo, lc, full);
    if Adjacent(sp.cvMatrix, left, right) {
      var f :| f in left && exists v | v in sp.cvMatrix[f] :: v in right;
      var v :| v in sp.cvMatrix[f] && v in right;
      assert First(cs, sp, f, fc, vo, full) && Vowel(cs, sp, v, vo, lc, full);
    }
    if f: nat, v: nat :|
      First(cs, sp, f, fc, vo, full) && Vowel(cs, sp, v, vo, lc, full) && v in sp.cvMatrix[f]
    {
      assert f in left && v in right;
    }
  }

  lemma VcRows(cs: Charset, sp: Spelling, vo: string, lc: string, full: bool)
    ensures Adjacent(sp.vcMatrix, VoRows(cs, sp, vo, lc, full), LcRows(cs, sp, lc, full))
            <==> VowelBeforeLast(cs, sp, vo, lc, full)
  {
    hide RowMatches;
    var left, right := VoRows(cs, sp, vo, lc, full), LcRows(cs, sp, lc, full);
    if Adjacent(sp.vcMatrix, left, right) {
      var v :| v in left && exists l | l in sp.vcMatrix[v] :: l in right;
      var l :| l in sp.vcMatrix[v] && l in right;
      assert Vowel(cs, sp, v, vo, lc, full) && Last(cs, sp, l, lc, full);
    }
    if v: nat, l: nat :| Vowel(cs, sp, v, vo, lc, full) && Last(cs, sp, l, lc, full) && l in sp.vcMatrix[v] {
      assert v in left && l in right;
    }
  }

  // ----- the shipped tables -----

  // The first letter of an input that matches in a row stands in the row, or is the base of a letter that does.
  lemma FirstLetterInRow(cs: Charset, row: string, input: string, full: bool, complete: bool)
    requires input != "" && RowMatches(cs, row, input, full, complete)
    ensures exists k :: 0 <= k < |row| && (row[k] == input[0] || AddMarkToTonelessChar(cs, row[k], 0) == input[0])
  {
    var i, j :| 0 <= i <= j <= |row| && IsWord(row, i, j) && WordMatches(cs, row[i..j], input, full, complete);
    assert row[i..j][0] == row[i];
  }

  // A letter that is no Latin one is nobody's base but its own.
  lemma MarkedIsNoBase(cs: Charset, row: string, d: char)
    requires !IsAlpha(d)
    ensures forall k :: 0 <= k < |row| && AddMarkToTonelessChar(cs, row[k], 0) == d ==> row[k] == d
  {
  }

  lemma NotInRow(cs: Charset, row: string, input: string, full: bool, complete: bool)
    requires input != "" && input[0] !in row && !IsAlpha(input[0])
    ensures !RowMatches(cs, row, input, full, complete)
  {
    hide RowMatches;
    if RowMatches(cs, row, input, full, complete) {
      FirstLetterInRow(cs, row, input, full, complete);
      MarkedIsNoBase(cs, row, input[0]);
    }
  }

  lemma WordOfRow(cs: Charset, row: string, i: nat, j: nat, input: string, full: bool, complete: bool)
    requires i <= j <= |row| && IsWord(row, i, j) && input == row[i..j]
    ensures RowMatches(cs, row, input, full, complete)
  {
    assert WordMatches(cs, row[i..j], input, full, complete);
  }

  // All letters of a match stand in the row.
  lemma LettersInRow(cs: Charset, row: string, input: string, full: bool, k: nat)
    requires k < |input| && RowMatches(cs, row, input, full, true)
    ensures input[k] in row
  {
    var i, j :| 0 <= i <= j <= |row| && IsWord(row, i, j) && WordMatches(cs, row[i..j], input, full, true);
    assert row[i..j][k] == row[i + k];
  }

  // The rows of last consonants that have "ch", whether it must be complete or not.
  lemma ChRows(cs: Charset, l: nat, full: bool)
    ensures Last(cs, SOURCE_SPELLING, l, "ch", full) <==> l == 0
  {
    hide RowMatches;
    var row := "ch nh";
    assert LAST_CONSONANT_SEQS[0] == row && row[0..2] == "ch" && row[2] == ' ';
    WordOfRow(cs, row, 0, 2, "ch", full, true);
    if l != 0 && Last(cs, SOURCE_SPELLING, l, "ch", full) {
      LettersInRow(cs, LAST_CONSONANT_SEQS[l], "ch", full, 1);
      OnlyRowWithH(l);
    }
  }

  lemma OnlyRowWithH(l: nat)
    requires 0 < l < |LAST_CONSONANT_SEQS|
    ensures 'h' !in LAST_CONSONANT_SEQS[l]
  {
    var other := LAST_CONSONANT_SEQS[l];
    assert other == "c ng" || other == "m n p t" || other == "k" || other == "c";
  }

  // Before "ch" stand exactly the vowels of the first two rows.
  lemma BeforeCh(cs: Charset, vo: string, full: bool)
    requires vo != ""
    ensures IsValidCVC(cs, SOURCE_SPELLING, "", vo, "ch", full) <==>
            || RowMatches(cs, VOWEL_SEQS[0], vo, true, full)
            || RowMatches(cs, VOWEL_SEQS[1], vo, true, full)
  {
    hide RowMatches, IsValidCVC;
    var sp := SOURCE_SPELLING;
    ValidIff(cs, sp, "", vo, "ch", full);
    ChRows(cs, 0, full);
    assert VC_MATRIX[0] == [0, 2] && VC_MATRIX[1] == [0, 1, 2];
    assert 0 in VC_MATRIX[0] && 0 in VC_MATRIX[1];
    if VowelBeforeLast(cs, sp, vo, "ch", full) {
      var v: nat, l: nat :| Vowel(cs, sp, v, vo, "ch", full) && Last(cs, sp, l, "ch", full) && l in sp.vcMatrix[v];
      ChRows(cs, l, full);
      ZeroInMatrix(v);
    }
    if RowMatches(cs, VOWEL_SEQS[0], vo, true, full) {
      assert Vowel(cs, sp, 0, vo, "ch", full);
    }
    if RowMatches(cs, VOWEL_SEQS[1], vo, true, full) {
      assert Vowel(cs, sp, 1, vo, "ch", full);
    }
  }

  lemma ZeroInMatrix(v: nat)
    requires v < |VOWEL_SEQS|
    ensures 0 in VC_MATRIX[v] ==> v == 0 || v == 1
  {
    if v > 1 {
      var row := VC_MATRIX[v];
      assert row == [1, 2] || row == [] || row == [3] || row == [4];
    }
  }

  // "âch" is no syllable, finished or not.
  lemma AchIsRejected(cs: Charset, full: bool)
    ensures !IsValidCVC(cs, SOURCE_SPELLING, "", "â", "ch", full)
  {
    hide RowMatches, IsValidCVC;
    BeforeCh(cs, "â", full);
    var a, b := "ê i ua uê uy y", "a iê oa uyê yê";
    assert VOWEL_SEQS[0] == a && VOWEL_SEQS[1] == b;
    assert 'â' !in a && 'â' !in b;
    NotInRow(cs, a, "â", true, full);
    NotInRow(cs, b, "â", true, full);
  }

  // "anh" is one.
  lemma AnhIsAccepted(cs: Charset, full: bool)
    ensures IsValidCVC(cs, SOURCE_SPELLING, "", "a", "nh", full)
  {
    hide RowMatches, IsValidCVC;
    var sp := SOURCE_SPELLING;
    var vowels, last := "a iê oa uyê yê", "ch nh";
    assert VOWEL_SEQS[1] == vowels && LAST_CONSONANT_SEQS[0] == last;
    assert vowels[0..1] == "a" && vowels[1] == ' ' && last[3..5] == "nh" && last[2] == ' ';
    WordOfRow(cs, vowels, 0, 1, "a", true, full);
    WordOfRow(cs, last, 3, 5, "nh", full, true);
    assert VC_MATRIX[1] == [0, 1, 2] && 0 in VC_MATRIX[1];
    assert Vowel(cs, sp, 1, "a", "nh", full) && Last(cs, sp, 0, "nh", full);
    ValidIff(cs, sp, "", "a", "nh", full);
  }

  // ----- the two matrices are consulted one at a time -----

  lemma OnlyWord(cs: Charset, row: string, input: string, complete: bool)
    requires ' ' !in row && RowMatches(cs, row, input, true, complete)
    ensures |input| == |row| && (complete ==> input == row)
  {
    var i, j :| 0 <= i <= j <= |row| && IsWord(row, i, j) && WordMatches(cs, row[i..j], input, true, complete);
    assert i == 0 && j == |row| && row[0..|row|] == row;
  }

  lemma LetterK(cs: Charset, l: nat)
    ensures Last(cs, SOURCE_SPELLING, l, "k", true) <==> l == 3
  {
    hide RowMatches;
    assert LAST_CONSONANT_SEQS[3] == "k" && "k"[0..1] == "k";
    WordOfRow(cs, "k", 0, 1, "k", true, true);
    if l != 3 && Last(cs, SOURCE_SPELLING, l, "k", true) {
      LettersInRow(cs, LAST_CONSONANT_SEQS[l], "k", true, 0);
      OnlyRowWithK(l);
    }
  }

  lemma OnlyRowWithK(l: nat)
    requires l < |LAST_CONSONANT_SEQS| && l != 3
    ensures 'k' !in LAST_CONSONANT_SEQS[l]
  {
    var other := LAST_CONSONANT_SEQS[l];
    assert other == "ch nh" || other == "c ng" || other == "m n p t" || other == "c";
  }

  // Only "ă" stands before a finished "k".
  lemma BeforeK(cs: Charset, vo: string)
    requires vo != ""
    ensures IsValidCVC(cs, SOURCE_SPELLING, "", vo, "k", true) <==> vo == "ă"
  {
    hide RowMatches, IsValidCVC;
    var sp := SOURCE_SPELLING;
    ValidIff(cs, sp, "", vo, "k", true);
    LetterK(cs, 3);
    assert VOWEL_SEQS[6] == "ă" && VC_MATRIX[6] == [3] && 3 in VC_MATRIX[6];
    if VowelBeforeLast(cs, sp, vo, "k", true) {
      var v: nat, l: nat :| Vowel(cs, sp, v, vo, "k", true) && Last(cs, sp, l, "k", true) && l in sp.vcMatrix[v];
      LetterK(cs, l);
      ThreeInMatrix(v);
      OnlyWord(cs, "ă", vo, true);
    }
    if vo == "ă" {
      assert "ă"[0..1] == "ă";
      WordOfRow(cs, "ă", 0, 1, "ă", true, true);
      assert Vowel(cs, sp, 6, vo, "k", true);
    }
  }

  lemma ThreeInMatrix(v: nat)
    requires v < |VOWEL_SEQS|
    ensures 3 in VC_MATRIX[v] ==> v == 6
  {
    if v != 6 {
      var row := VC_MATRIX[v];
      assert row == [0, 2] || row == [0, 1, 2] || row == [1, 2] || row == [] || row == [4];
    }
  }

  // "băk" is accepted, although no row of vowels may stand both behind a row of "b" and before a row of "k":
  // one row lets "b" precede "ă", another lets "k" follow it.
  lemma RowsMayDiffer(cs: Charset)
    ensures IsValidCVC(cs, SOURCE_SPELLING, "b", "ă", "k", true)
    ensures forall f: nat, v: nat, l: nat ::
              First(cs, SOURCE_SPELLING, f, "b", "ă", true) && Vowel(cs, SOURCE_SPELLING, v, "ă", "k", true)
              && Last(cs, SOURCE_SPELLING, l, "k", true)
              ==> !(v in SOURCE_SPELLING.cvMatrix[f] && l in SOURCE_SPELLING.vcMatrix[v])
  {
    hide RowMatches, IsValidCVC;
    var sp := SOURCE_SPELLING;
    ValidIff(cs, sp, "b", "ă", "k", true);
    ValidIff(cs, sp, "", "ă", "k", true);
    BeforeK(cs, "ă");
    LetterB(cs, 0);
    ShortA(cs);
    assert CV_MATRIX[0] == [0, 1, 2, 5] && 2 in CV_MATRIX[0] && 6 !in CV_MATRIX[0];
    assert FirstBeforeVowel(cs, sp, "b", "ă", "k", true);
    forall f: nat, v: nat, l: nat |
      First(cs, sp, f, "b", "ă", true) && Vowel(cs, sp, v, "ă", "k", true) && Last(cs, sp, l, "k", true)
      ensures !(v in sp.cvMatrix[f] && l in sp.vcMatrix[v])
    {
      LetterB(cs, f);
      LetterK(cs, l);
      if l in sp.vcMatrix[v] {
        ThreeInMatrix(v);
      }
    }
  }

  lemma LetterB(cs: Charset, f: nat)
    ensures First(cs, SOURCE_SPELLING, f, "b", "ă", true) <==> f == 0
  {
    hide RowMatches;
    var row := "b d đ g gh m n nh p ph r s t tr v z";
    assert FIRST_CONSONANT_SEQS[0] == row && row[0] == 'b' && row[1] == ' ' && |row| > 1;
    OneLetter(row, 0);
    WordOfRow(cs, row, 0, 1, "b", true, true);
    if f != 0 && First(cs, SOURCE_SPELLING, f, "b", "ă", true) {
      LettersInRow(cs, FIRST_CONSONANT_SEQS[f], "b", true, 0);
      OnlyRowWithB(f);
    }
  }

  lemma OneLetter(row: string, i: nat)
    requires i < |row|
    ensures row[i..i + 1] == [row[i]]
  {
  }

  lemma OnlyRowWithB(f: nat)
    requires 0 < f < |FIRST_CONSONANT_SEQS|
    ensures 'b' !in FIRST_CONSONANT_SEQS[f]
  {
    var other := FIRST_CONSONANT_SEQS[f];
    assert other == "c h k kh qu th" || other == "ch gi l ng ngh x" || other == "đ l" || other == "h";
  }

  lemma ShortA(cs: Charset)
    ensures Vowel(cs, SOURCE_SPELLING, 2, "ă", "k", true)
  {
    hide RowMatches;
    var row := "â ă e o oo ô ơ " + "oe u ư uâ uô ươ";
    assert VOWEL_SEQS[2] == row;
    assert row[2..3] == "ă" && row[1] == ' ' && row[3] == ' ';
    WordOfRow(cs, row, 2, 3, "ă", true, true);
  }
}
