/**
 The loose syllable grammar.  A spelling is three lists of rows of words (first
 consonants, vowels, last consonants) and two matrices that say which rows may
 stand next to each other.
 */
module BambooSpelling {
  import opened BambooChars

  datatype SpellingData = SpellingData(
    firstConsonantSeqs: seq<string>,
    vowelSeqs: seq<string>,
    lastConsonantSeqs: seq<string>,
    cvMatrix: seq<seq<nat>>,
    vcMatrix: seq<seq<nat>>)
  {
    predicate Good() {
      |cvMatrix| >= |firstConsonantSeqs| && |vcMatrix| >= |vowelSeqs|
    }
  }

  type Spelling = sp: SpellingData | sp.Good() witness SpellingData([], [], [], [], [])

  // `row[i..j]` is one of the blank-separated words of the row.
  predicate IsWord(row: string, i: int, j: int) {
    && 0 <= i <= j <= |row|
    && (forall m :: i <= m < j ==> row[m] != ' ')
    && (i == 0 || row[i - 1] == ' ')
    && (j == |row| || row[j] == ' ')
  }

  // An incomplete input may leave out the marks of the word's letters, and the rest of the word.
  predicate WordMatches(cs: Charset, word: string, input: string, inputIsFull: bool, inputIsComplete: bool) {
    && |input| <= |word|
    && (inputIsFull ==> |word| == |input|)
    && forall k :: 0 <= k < |input| ==>
         input[k] == word[k] || (!inputIsComplete && AddMarkToTonelessChar(cs, word[k], 0) == input[k])
  }

  predicate RowMatches(cs: Charset, row: string, input: string, inputIsFull: bool, inputIsComplete: bool) {
    exists i, j :: 0 <= i <= j <= |row| && IsWord(row, i, j)
      && WordMatches(cs, row[i..j], input, inputIsFull, inputIsComplete)
  }

  // The rows containing a matching word, in order.
  function Rows(cs: Charset, rows: seq<string>, input: string, inputIsFull: bool, inputIsComplete: bool): (r: seq<nat>)
    ensures forall k :: k in r <==> 0 <= k < |rows| && RowMatches(cs, rows[k], input, inputIsFull, inputIsComplete)
  {
    if rows == [] then []
    else
      var n := |rows| - 1;
      Rows(cs, rows[..n], input, inputIsFull, inputIsComplete)
      + (if RowMatches(cs, rows[n], input, inputIsFull, inputIsComplete) then [n] else [])
  }

  // ----- the scanning loops of the source -----

  method MatchWord(cs: Charset, canvas: string, input: string, inputIsFull: bool, inputIsComplete: bool)
    returns (isMatch: bool)
    ensures isMatch == WordMatches(cs, canvas, input, inputIsFull, inputIsComplete)
  {
    if |canvas| < |input| || (inputIsFull && |canvas| > |input|) {
      return false;
    }
    for k := 0 to |input|
      invariant forall m :: 0 <= m < k ==>
                  input[m] == canvas[m] || (!inputIsComplete && AddMarkToTonelessChar(cs, canvas[m], 0) == input[m])
    {
      if input[k] != canvas[k] && !(!inputIsComplete && AddMarkToTonelessChar(cs, canvas[k], 0) == input[k]) {
        return false;
      }
    }
    return true;
  }

  // One row: words end at the blanks of `row + ' '`, and `i` is where the current word starts.
  method MatchRow(cs: Charset, row: string, input: string, inputIsFull: bool, inputIsComplete: bool)
    returns (found: bool)
    ensures found == RowMatches(cs, row, input, inputIsFull, inputIsComplete)
  {
    var rows := row + [' '];
    var i := 0;
    for j := 0 to |rows|
      invariant 0 <= i <= j
      invariant forall m :: i <= m < j ==> m < |row| && row[m] != ' '
      invariant (i == 0 || rows[i - 1] == ' ') && (j == |rows| ==> i == j)
      invariant forall p, q :: q < i && IsWord(row, p, q) ==>
                !WordMatches(cs, row[p..q], input, inputIsFull, inputIsComplete)
    {
      if rows[j] == ' ' {
        assert rows[i..j] == row[i..j];
        assert IsWord(row, i, j);
        var isMatch := MatchWord(cs, rows[i..j], input, inputIsFull, inputIsComplete);
        if isMatch {
          return true;
        }
        forall p, q | q < j + 1 && IsWord(row, p, q)
          ensures !WordMatches(cs, row[p..q], input, inputIsFull, inputIsComplete)
        {
          WordsEndAtBlanks(row, i, j, p, q);
        }
        i := j + 1;
      }
    }
    return false;
  }

  lemma WordsEndAtBlanks(row: string, i: int, j: int, p: int, q: int)
    requires IsWord(row, i, j) && IsWord(row, p, q) && q <= j
    ensures q < i || (p == i && q == j)
  {
  }

  method Lookup(cs: Charset, rows: seq<string>, input: string, inputIsFull: bool, inputIsComplete: bool)
    returns (ret: seq<nat>)
    ensures ret == Rows(cs, rows, input, inputIsFull, inputIsComplete)
  {
    ret := [];
    for index := 0 to |rows|
      invariant ret == Rows(cs, rows[..index], input, inputIsFull, inputIsComplete)
    {
      assert rows[..index + 1][..index] == rows[..index];
      var found := MatchRow(cs, rows[index], input, inputIsFull, inputIsComplete);
      if found {
        ret := ret + [index];
      }
    }
    assert rows[..|rows|] == rows;
  }

  // Some chosen row of the left part may stand before some chosen row of the right part.
  predicate Adjacent(matrix: seq<seq<nat>>, left: seq<nat>, right: seq<nat>)
    requires forall l :: l in left ==> l < |matrix|
  {
    exists l | l in left :: exists c | c in matrix[l] :: c in right
  }

  // The nested search loops of isValidCV and isValidVC.
  method SearchAdjacent(matrix: seq<seq<nat>>, left: seq<nat>, right: seq<nat>) returns (found: bool)
    requires forall l :: l in left ==> l < |matrix|
    ensures found == Adjacent(matrix, left, right)
  {
    for i := 0 to |left|
      invariant forall m :: 0 <= m < i ==> left[m] in left && forall c | c in matrix[left[m]] :: c !in right
    {
      assert left[i] in left;
      var row := matrix[left[i]];
      for j := 0 to |row|
        invariant forall m :: 0 <= m < j ==> row[m] !in right
      {
        for k := 0 to |right|
          invariant forall m :: 0 <= m < k ==> right[m] != row[j]
        {
          if row[j] == right[k] {
            assert row[j] in matrix[left[i]];
            return true;
          }
        }
      }
    }
    return false;
  }

  function FcRows(cs: Charset, sp: Spelling, fc: string, vo: string, full: bool): seq<nat> {
    Rows(cs, sp.firstConsonantSeqs, fc, full || vo != "", true)
  }

  function VoRows(cs: Charset, sp: Spelling, vo: string, lc: string, full: bool): seq<nat> {
    Rows(cs, sp.vowelSeqs, vo, full || lc != "", full)
  }

  function LcRows(cs: Charset, sp: Spelling, lc: string, full: bool): seq<nat> {
    Rows(cs, sp.lastConsonantSeqs, lc, full, true)
  }

  predicate IsValidCVC(cs: Charset, sp: Spelling, fc: string, vo: string, lc: string, full: bool) {
    var fcIndexes := if fc != "" then FcRows(cs, sp, fc, vo, full) else [];
    var voIndexes := if vo != "" then VoRows(cs, sp, vo, lc, full) else [];
    var lcIndexes := if lc != "" then LcRows(cs, sp, lc, full) else [];
    if (fc != "" && fcIndexes == []) || (vo != "" && voIndexes == []) || (lc != "" && lcIndexes == []) then false
    else if voIndexes == [] then fcIndexes != []
    else if fcIndexes != [] && (!Adjacent(sp.cvMatrix, fcIndexes, voIndexes) || lcIndexes == [])
    then Adjacent(sp.cvMatrix, fcIndexes, voIndexes)
    else lcIndexes != [] ==> Adjacent(sp.vcMatrix, voIndexes, lcIndexes)
  }

  method CheckCVC(cs: Charset, sp: Spelling, fc: string, vo: string, lc: string, full: bool) returns (ret: bool)
    ensures ret == IsValidCVC(cs, sp, fc, vo, lc, full)
  {
    var fcIndexes, voIndexes, lcIndexes: seq<nat> := [], [], [];
    if fc != "" {
      fcIndexes := Lookup(cs, sp.firstConsonantSeqs, fc, full || vo != "", true);
      if fcIndexes == [] {
        return false;
      }
    }
    if vo != "" {
      voIndexes := Lookup(cs, sp.vowelSeqs, vo, full || lc != "", full);
      if voIndexes == [] {
        return false;
      }
    }
    if lc != "" {
      lcIndexes := Lookup(cs, sp.lastConsonantSeqs, lc, full, true);
      if lcIndexes == [] {
        return false;
      }
    }
    if voIndexes == [] {
      return fcIndexes != [];
    }
    if fcIndexes != [] {
      ret := SearchAdjacent(sp.cvMatrix, fcIndexes, voIndexes);
      if !ret || lcIndexes == [] {
        return;
      }
    }
    if lcIndexes != [] {
      ret := SearchAdjacent(sp.vcMatrix, voIndexes, lcIndexes);
    } else {
      ret := true;
    }
  }

  // ----- the grammar is monotone and prefix-closed -----

  // A laxer look-up of a prefix finds every row the stricter look-up found.
  lemma LaxerPrefixFindsMore(cs: Charset, rows: seq<string>, input: string, full: bool, complete: bool,
                             n: nat, full': bool, complete': bool)
    requires n <= |input| && (complete' ==> complete) && (full' ==> full && n == |input|)
    ensures forall k :: k in Rows(cs, rows, input, full, complete) ==> k in Rows(cs, rows, input[..n], full', complete')
  {
    forall k | 0 <= k < |rows| && RowMatches(cs, rows[k], input, full, complete)
      ensures RowMatches(cs, rows[k], input[..n], full', complete')
    {
      var i, j :| 0 <= i <= j <= |rows[k]| && IsWord(rows[k], i, j)
          && WordMatches(cs, rows[k][i..j], input, full, complete);
      assert WordMatches(cs, rows[k][i..j], input[..n], full', complete');
    }
  }

  lemma AdjacencyGrows(matrix: seq<seq<nat>>, left: seq<nat>, right: seq<nat>, left': seq<nat>, right': seq<nat>)
    requires forall l :: l in left' ==> l < |matrix|
    requires forall l :: l in left ==> l in left'
    requires forall c :: c in right ==> c in right'
    requires Adjacent(matrix, left, right)
    ensures Adjacent(matrix, left', right')
  {
    var l :| l in left && exists c | c in matrix[l] :: c in right;
    assert l in left';
  }

  // A complete syllable is also a valid syllable under construction.
  lemma CompleteIsValid(cs: Charset, sp: Spelling, fc: string, vo: string, lc: string)
    requires IsValidCVC(cs, sp, fc, vo, lc, true)
    ensures IsValidCVC(cs, sp, fc, vo, lc, false)
  {
    assert fc[..|fc|] == fc && vo[..|vo|] == vo && lc[..|lc|] == lc;
    LaxerPrefixFindsMore(cs, sp.firstConsonantSeqs, fc, true, true, |fc|, vo != "", true);
    LaxerPrefixFindsMore(cs, sp.vowelSeqs, vo, true, true, |vo|, lc != "", false);
    LaxerPrefixFindsMore(cs, sp.lastConsonantSeqs, lc, true, true, |lc|, false, true);
    var f, v, l := FcRows(cs, sp, fc, vo, true), VoRows(cs, sp, vo, lc, true), LcRows(cs, sp, lc, true);
    if fc != "" && vo != "" {
      AdjacencyGrows(sp.cvMatrix, f, v, FcRows(cs, sp, fc, vo, false), VoRows(cs, sp, vo, lc, false));
    }
    if vo != "" && lc != "" {
      AdjacencyGrows(sp.vcMatrix, v, l, VoRows(cs, sp, vo, lc, false), LcRows(cs, sp, lc, false));
    }
    assert fc != "" ==> f[0] in f;
    assert vo != "" ==> v[0] in v;
    assert lc != "" ==> l[0] in l;
  }

  // Every nonempty typing prefix of a valid syllable under construction is valid:
  // a part of the first consonant, the first consonant and a part of the vowels,
  // or everything but a part of the last consonant.
  lemma TypingPrefixesAreValid(cs: Charset, sp: Spelling, fc: string, vo: string, lc: string, n: nat)
    requires IsValidCVC(cs, sp, fc, vo, lc, false)
    ensures 0 < n <= |fc| ==> IsValidCVC(cs, sp, fc[..n], "", "", false)
    ensures 0 < n <= |vo| ==> IsValidCVC(cs, sp, fc, vo[..n], "", false)
    ensures n <= |lc| ==> IsValidCVC(cs, sp, fc, vo, lc[..n], false)
  {
    if 0 < n <= |fc| {
      FirstConsonantPrefix(cs, sp, fc, vo, lc, n);
    }
    if 0 < n <= |vo| {
      VowelPrefix(cs, sp, fc, vo, lc, n);
    }
    if n <= |lc| {
      if n == 0 && vo != "" {
        assert vo[..|vo|] == vo;
        VowelPrefix(cs, sp, fc, vo, lc, |vo|);
      } else {
        LastConsonantPrefix(cs, sp, fc, vo, lc, n);
      }
    }
  }

  lemma FirstConsonantPrefix(cs: Charset, sp: Spelling, fc: string, vo: string, lc: string, n: nat)
    requires IsValidCVC(cs, sp, fc, vo, lc, false) && 0 < n <= |fc|
    ensures IsValidCVC(cs, sp, fc[..n], "", "", false)
  {
    LaxerPrefixFindsMore(cs, sp.firstConsonantSeqs, fc, vo != "", true, n, false, true);
    assert FcRows(cs, sp, fc, vo, false)[0] in FcRows(cs, sp, fc[..n], "", false);
  }

  lemma VowelPrefix(cs: Charset, sp: Spelling, fc: string, vo: string, lc: string, n: nat)
    requires IsValidCVC(cs, sp, fc, vo, lc, false) && 0 < n <= |vo|
    ensures IsValidCVC(cs, sp, fc, vo[..n], "", false)
  {
    LaxerPrefixFindsMore(cs, sp.vowelSeqs, vo, lc != "", false, n, false, false);
    var v := VoRows(cs, sp, vo, lc, false);
    assert v[0] in VoRows(cs, sp, vo[..n], "", false);
    if fc != "" {
      var f := FcRows(cs, sp, fc, vo, false);
      AdjacencyGrows(sp.cvMatrix, f, v, f, VoRows(cs, sp, vo[..n], "", false));
    }
  }

  lemma LastConsonantPrefix(cs: Charset, sp: Spelling, fc: string, vo: string, lc: string, n: nat)
    requires IsValidCVC(cs, sp, fc, vo, lc, false) && n <= |lc| && (n == 0 ==> vo == "")
    ensures IsValidCVC(cs, sp, fc, vo, lc[..n], false)
  {
    if n > 0 {
      LaxerPrefixFindsMore(cs, sp.lastConsonantSeqs, lc, false, true, n, false, true);
      var l := LcRows(cs, sp, lc, false);
      assert l[0] in LcRows(cs, sp, lc[..n], false);
      if vo != "" {
        var v := VoRows(cs, sp, vo, lc, false);
        AdjacencyGrows(sp.vcMatrix, v, l, v, LcRows(cs, sp, lc[..n], false));
      }
    }
  }
}
