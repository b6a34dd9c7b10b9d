/**
 RestoreLastWord(false): the last word is replaced by the keys it was typed with.
 */
module BambooRestore {
  import opened Options
  import opened BambooChars
  import opened BambooSpelling
  import opened BambooFlattener
  import opened BambooUtils
  import opened BambooKeys
  import opened BambooShape
  import opened BambooGenerators
  import opened BambooSteps
  import opened BambooWords
  import opened BambooRuns

  // A non-virtual key of a well-formed entry is a lower-case key; in a word, it does not break the word.
  lemma KeyOfEntry(c: Config, t: Trans, id: nat)
    requires GoodMethod(c.env.cs, c.im) && EntryOk(c.env.cs, c.im.keys, t) && t.rule.key != NUL
    requires !IsBreak(c.env.cs, c.im.keys, t)
    ensures var b := NewAppendingTrans(id, t.rule.key, t.isUpperCase);
            EntryOk(c.env.cs, c.im.keys, b) && !IsBreak(c.env.cs, c.im.keys, b)
  {
    var cs, keys := c.env.cs, c.im.keys;
    if t.rule.key in keys {
      ProcessableIffWordChar(cs, t.rule.key, keys);
    }
  }

  // Plain letters with consecutive identities, no break among them.
  ghost predicate WordLetters(cs: Charset, keys: seq<char>, letters: Composition, nid: nat) {
    forall i :: 0 <= i < |letters| ==>
      && letters[i].id == nid + i && IsAppending(letters[i])
      && EntryOk(cs, keys, letters[i]) && !IsBreak(cs, keys, letters[i])
  }

  lemma {:induction false} BrokenWord(c: Config, word: Composition, nid: nat)
    requires GoodMethod(c.env.cs, c.im)
    requires forall t :: t in word ==> EntryOk(c.env.cs, c.im.keys, t) && !IsBreak(c.env.cs, c.im.keys, t)
    ensures WordLetters(c.env.cs, c.im.keys, BreakComposition(word, nid), nid)
  {
    hide EntryOk, IsBreak, GoodMethod;
    if word != [] {
      var n := |word| - 1;
      assert word[n] in word;
      BrokenWord(c, word[..n], nid);
      if word[n].rule.key != NUL {
        KeyOfEntry(c, word[n], nid + |BreakComposition(word[..n], nid)|);
      }
    }
  }

  lemma OneLetterShown(cs: Charset, id: nat, key: char, isUpperCase: bool)
    requires key != NUL
    ensures Canvas(cs, [NewAppendingTrans(id, key, isUpperCase)], VIETNAMESE) == [CasedKey(cs, key, isUpperCase)]
  {
    hide CharsetData.Good, Letters, EffectsOn, AddToneToChar, AddMarkToChar;
    var t := NewAppendingTrans(id, key, isUpperCase);
    OneEntry(cs, t);
    NoTargetsNoEffects([t], id);
    assert Canvas(cs, [t], VIETNAMESE) == [Glyph(cs, [t], t, VIETNAMESE)];
  }

  // The last entry shows its key.
  lemma BrokenLast(cs: Charset, word: Composition, t: Trans, broken: Composition, nid: nat)
    requires Canvas(cs, broken, VIETNAMESE) == Canvas(cs, word, ENGLISH)
    requires forall b :: b in broken ==> IsAppending(b)
    ensures var letter := NewAppendingTrans(nid + |broken|, t.rule.key, t.isUpperCase);
            Canvas(cs, if t.rule.key == NUL then broken else broken + [letter], VIETNAMESE)
              == Canvas(cs, word + [t], ENGLISH)
  {
    hide CharsetData.Good, Canvas, CasedKey;
    CanvasConcat(cs, word, [t], ENGLISH);
    if t.rule.key == NUL {
      VirtualIsSilent(cs, [t]);
    } else {
      var letter := NewAppendingTrans(nid + |broken|, t.rule.key, t.isUpperCase);
      OneEntry(cs, t);
      OneLetterShown(cs, letter.id, t.rule.key, t.isUpperCase);
      CanvasConcat(cs, broken, [letter], VIETNAMESE);
    }
  }

  lemma NothingShown(cs: Charset)
    ensures Canvas(cs, [], VIETNAMESE) == Canvas(cs, [], ENGLISH) == ""
  {
  }

  // Broken into letters, a word shows in Vietnamese mode what it showed in English mode.
  lemma {:induction false} BrokenText(cs: Charset, word: Composition, nid: nat)
    ensures Canvas(cs, BreakComposition(word, nid), VIETNAMESE) == Canvas(cs, word, ENGLISH)
    ensures forall t :: t in BreakComposition(word, nid) ==> IsAppending(t)
  {
    hide CharsetData.Good, Canvas;
    if word == [] {
      NothingShown(cs);
    } else {
      var n := |word| - 1;
      BrokenText(cs, word[..n], nid);
      var broken := BreakComposition(word[..n], nid);
      BrokenLast(cs, word[..n], word[n], broken, nid);
      assert BreakComposition(word, nid)
          == if word[n].rule.key == NUL then broken
             else broken + [NewAppendingTrans(nid + |broken|, word[n].rule.key, word[n].isUpperCase)];
      assert word == word[..n] + [word[n]];
    }
  }

  lemma {:induction false} PushLetters(cs: Charset, keys: seq<char>, comp: Composition, letters: Composition, nid: nat)
    requires Shape(cs, keys, comp, nid) && Separated(cs, keys, comp)
    requires WordLetters(cs, keys, letters, nid)
    ensures Shape(cs, keys, comp + letters, nid + |letters|) && Separated(cs, keys, comp + letters)
  {
    hide EntryOk, IsBreak, Shape, Separated;
    if letters == [] {
      assert comp + letters == comp;
    } else {
      var n := |letters| - 1;
      PushLetters(cs, keys, comp, letters[..n], nid);
      PushLetter(cs, keys, comp + letters[..n], letters[n], nid + n);
      assert comp + letters == comp + letters[..n] + [letters[n]];
    }
  }

  // The entries before the last word are self-contained.
  lemma BeforeLastWord(c: Config, st: State)
    requires GoodMethod(c.env.cs, c.im) && Inv(c, st)
    ensures var (previous, word) := ExtractLastWord(c.env.cs, st.comp, c.im.keys);
            && Shape(c.env.cs, c.im.keys, previous, st.nextId) && Separated(c.env.cs, c.im.keys, previous)
            && TargetsIn(word, word)
            && (previous != [] ==> IsBreak(c.env.cs, c.im.keys, previous[|previous| - 1]))
  {
    hide EntryOk, IsBreak, IsDecided, GoodMethod, StartsWithBreak;
    var cs, keys := c.env.cs, c.im.keys;
    var (previous, word) := ExtractLastWord(cs, st.comp, keys);
    var r := LastBreak(cs, st.comp, keys, |st.comp|);
    EntriesAreDecided(cs, c.im, st.comp);
    LastWord(cs, st.comp, keys);
    if r > 0 {
      assert previous[r - 1] == st.comp[r - 1] && st.comp[r - 1] in st.comp;
      BreakHasNoTarget(cs, keys, st.comp[r - 1]);
    }
    HalvesAreClosed(cs, keys, st.comp, r);
    WellFormedParts(cs, keys, previous, word, st.nextId);
    PrefixIsSeparated(cs, keys, previous, word, st.nextId);
  }

  lemma BreakHasNoTarget(cs: Charset, keys: seq<char>, t: Trans)
    requires EntryOk(cs, keys, t) && IsBreak(cs, keys, t)
    ensures t.target.None? && IsAppending(t)
  {
  }

  // After a restore the Vietnamese text of the last word is its English text before, and the invariant holds.
  lemma RestoreExposesKeys(c: Config, st: State)
    requires GoodMethod(c.env.cs, c.im) && Inv(c, st)
    ensures var next := RestoreLastWord(c, st, false);
            && Inv(c, next)
            && ProcessedString(c, next, VIETNAMESE, LastWordOnly) == ProcessedString(c, st, ENGLISH, LastWordOnly)
            && ExtractLastWord(c.env.cs, next.comp, c.im.keys).0 == ExtractLastWord(c.env.cs, st.comp, c.im.keys).0
  {
    hide EntryOk, IsBreak, GoodMethod, ExtractLastWord, Separated, Canvas, Inv, BreakComposition;
    var (previous, word) := ExtractLastWord(c.env.cs, st.comp, c.im.keys);
    NoText(c.env.cs);
    if word != [] {
      RestoredWord(c, st, previous, word);
    }
  }

  lemma RestoredWord(c: Config, st: State, previous: Composition, word: Composition)
    requires GoodMethod(c.env.cs, c.im) && Inv(c, st)
    requires ExtractLastWord(c.env.cs, st.comp, c.im.keys) == (previous, word)
    ensures var broken := BreakComposition(word, st.nextId);
            && Inv(c, State(previous + broken, st.nextId + |broken|))
            && ExtractLastWord(c.env.cs, previous + broken, c.im.keys) == (previous, broken)
            && Canvas(c.env.cs, broken, VIETNAMESE) == Canvas(c.env.cs, word, ENGLISH)
  {
    hide EntryOk, IsBreak, GoodMethod, ExtractLastWord, Separated, Canvas, BreakComposition, Decided;
    var cs, keys := c.env.cs, c.im.keys;
    assert previous + word == st.comp by { CutIsLossless(cs, st.comp, keys); }
    LastWord(cs, st.comp, keys);
    assert forall t :: t in word ==> t in st.comp;
    var broken := BreakComposition(word, st.nextId);
    BrokenWord(c, word, st.nextId);
    BrokenText(cs, word, st.nextId);
    BeforeLastWord(c, st);
    PushLetters(cs, keys, previous, broken, st.nextId);
    forall t | t in broken ensures !IsBreak(cs, keys, t) {
      var i :| 0 <= i < |broken| && broken[i] == t;
    }
    EntriesAreDecided(cs, c.im, previous + broken);
    LastWordIs(cs, previous, broken, keys);
  }

  lemma CutIsLossless(cs: Charset, comp: Composition, keys: seq<char>)
    ensures var r := ExtractLastWord(cs, comp, keys); r.0 + r.1 == comp
  {
  }

  lemma NoText(cs: Charset)
    ensures Canvas(cs, [], VIETNAMESE) == "" && Canvas(cs, [], ENGLISH) == ""
  {
  }

  // ----- the extents of the text -----

  // The text of the last word ends the whole text, in every mode.
  lemma LastWordEndsText(c: Config, st: State, mode: Mode)
    requires GoodMethod(c.env.cs, c.im) && Inv(c, st)
    ensures var (previous, word) := ExtractLastWord(c.env.cs, st.comp, c.im.keys);
            ProcessedString(c, st, mode, FullText)
            == Canvas(c.env.cs, previous, mode) + ProcessedString(c, st, mode, LastWordOnly)
  {
    hide CharsetData.Good, EntryOk, IsBreak, GoodMethod, ExtractLastWord, Separated, Canvas;
    var (previous, word) := ExtractLastWord(c.env.cs, st.comp, c.im.keys);
    CutIsLossless(c.env.cs, st.comp, c.im.keys);
    BeforeLastWord(c, st);
    ClosedAreApart(previous, word, st.nextId);
    CanvasConcat(c.env.cs, previous, word, mode);
  }

  // And where no effect reaches over the last space, the text asked for behind it ends the Vietnamese text.
  lemma BehindSpaceEndsText(c: Config, st: State, mode: Mode)
    requires Distinct(st.comp, st.nextId)
    requires var (previous, behind) := ExtractBehindSpace(c.env.cs, st.comp);
             TargetsIn(previous, previous) && TargetsIn(behind, behind)
    ensures var (previous, behind) := ExtractBehindSpace(c.env.cs, st.comp);
            ProcessedString(c, st, VIETNAMESE, FullText)
            == Canvas(c.env.cs, previous, VIETNAMESE) + ProcessedString(c, st, mode, BehindSpace)
  {
    hide CharsetData.Good, ExtractBehindSpace, Canvas;
    var (previous, behind) := ExtractBehindSpace(c.env.cs, st.comp);
    assert previous + behind == st.comp;
    ClosedAreApart(previous, behind, st.nextId);
    CanvasConcat(c.env.cs, previous, behind, VIETNAMESE);
  }

  lemma ClosedAreApart(a: Composition, b: Composition, nid: nat)
    requires Distinct(a + b, nid) && TargetsIn(a, a) && TargetsIn(b, b)
    ensures Apart(a, b)
  {
    LettersAreMembers(a, false);
    LettersAreMembers(b, false);
    forall x, y | x in a && y in b ensures x.id != y.id {
      var i :| 0 <= i < |a| && a[i] == x;
      var j :| 0 <= j < |b| && b[j] == y;
      assert (a + b)[i] == x && (a + b)[|a| + j] == y;
    }
  }
}
