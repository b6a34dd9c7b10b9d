/**
 RemoveLastChar: the last letter and its effects go, everything else stays.
 */
module BambooBackspace {
  import opened Options
  import opened BambooChars
  import opened BambooSpelling
  import opened BambooFlattener
  import opened BambooUtils
  import opened BambooKeys
  import opened BambooShape
  import opened BambooGenerators
  import opened BambooSteps
  import opened BambooWords
  import opened BambooRuns
  import opened BambooRestore
  import opened BambooStack

  ghost predicate NoVirtual(comp: Composition) {
    forall t :: t in comp && IsAppending(t) ==> t.rule.key != NUL
  }

  // Letters point nowhere.
  ghost predicate LettersAreRoots(comp: Composition) {
    forall t :: t in comp && IsAppending(t) ==> t.target.None?
  }

  // ----- removing a letter and its effects from a list -----

  lemma {:induction false} WithoutMembers(comp: Composition, letter: Trans)
    ensures forall t :: t in Without(comp, letter) <==> t in comp && t.target != Some(letter.id) && t.id != letter.id
  {
    if comp != [] {
      WithoutMembers(comp[..|comp| - 1], letter);
      assert comp == comp[..|comp| - 1] + [comp[|comp| - 1]];
    }
  }

  lemma {:induction false} WithoutConcat(a: Composition, b: Composition, letter: Trans)
    ensures Without(a + b, letter) == Without(a, letter) + Without(b, letter)
  {
    if b == [] {
      assert a + b == a;
    } else {
      var n := |b| - 1;
      assert (a + b)[..|a + b| - 1] == a + b[..n];
      WithoutConcat(a, b[..n], letter);
    }
  }

  lemma {:induction false} WithoutUnrelated(comp: Composition, letter: Trans)
    requires forall t :: t in comp ==> t.target != Some(letter.id) && t.id != letter.id
    ensures Without(comp, letter) == comp
  {
    if comp != [] {
      assert comp[|comp| - 1] in comp;
      WithoutUnrelated(comp[..|comp| - 1], letter);
    }
  }

  lemma {:induction false} WithoutDistinct(comp: Composition, letter: Trans, nid: nat)
    requires Distinct(comp, nid)
    ensures Distinct(Without(comp, letter), nid)
  {
    if comp != [] {
      var n := |comp| - 1;
      WithoutDistinct(comp[..n], letter, nid);
      WithoutMembers(comp[..n], letter);
      var w := Without(comp[..n], letter);
      forall i | 0 <= i < |w| ensures w[i].id != comp[n].id {
        assert w[i] in w;
        var j :| 0 <= j < n && comp[..n][j] == w[i];
        assert comp[j].id != comp[n].id;
      }
    }
  }

  lemma WithoutStep(comp: Composition, letter: Trans)
    requires comp != []
    ensures var n := |comp| - 1;
            Without(comp, letter) == if comp[n].target == Some(letter.id) || comp[n].id == letter.id
                                     then Without(comp[..n], letter) else Without(comp[..n], letter) + [comp[n]]
  {
  }

  lemma WithoutTargets(comp: Composition, home: Composition, letter: Trans)
    requires TargetsIn(comp, home) && LettersAreRoots(home)
    ensures TargetsIn(Without(comp, letter), Without(home, letter))
  {
    WithoutMembers(comp, letter);
    WithoutMembers(home, letter);
    forall t | t in Without(comp, letter) && t.target.Some? ensures HasLetter(Without(home, letter), t.target.value) {
      var x :| x in home && x.id == t.target.value && IsAppending(x);
      assert x in Without(home, letter);
    }
  }

  // The last letter of the text is the last Appending entry.
  lemma {:induction false} LastLetter(comp: Composition)
    requires NoVirtual(comp)
    ensures var last := FindLastAppending(comp);
            var letters := Letters(comp, false);
            if last.None? then letters == [] else letters != [] && letters[|letters| - 1] == last.value
  {
    if comp != [] {
      assert comp[|comp| - 1] in comp;
      if !IsAppending(comp[|comp| - 1]) {
        LastLetter(comp[..|comp| - 1]);
      }
    }
  }

  lemma {:induction false} LettersUntouched(comp: Composition, letter: Trans)
    requires LettersAreRoots(comp) && forall t :: t in comp && IsAppending(t) ==> t.id != letter.id
    ensures Letters(Without(comp, letter), false) == Letters(comp, false)
  {
    if comp != [] {
      var n := |comp| - 1;
      assert comp[n] in comp;
      LettersUntouched(comp[..n], letter);
      WithoutStep(comp, letter);
      LettersConcat(Without(comp[..n], letter), [comp[n]], false);
      assert [comp[n]][..0] == [];
    }
  }

  lemma {:induction false} LettersPopped(comp: Composition, letter: Trans, nid: nat)
    requires LettersAreRoots(comp) && Distinct(comp, nid) && NoVirtual(comp)
    requires FindLastAppending(comp) == Some(letter)
    ensures Letters(comp, false) != []
    ensures Letters(Without(comp, letter), false) == Letters(comp, false)[..|Letters(comp, false)| - 1]
  {
    hide IsRendered, Letters, Without;
    var n := |comp| - 1;
    assert comp == comp[..n] + [comp[n]];
    WithoutStep(comp, letter);
    LettersConcat(comp[..n], [comp[n]], false);
    if comp[n] == letter {
      OnlyLast(comp, nid);
      LettersUntouched(comp[..n], letter);
      RenderedLast(comp[n]);
    } else {
      LettersPopped(comp[..n], letter, nid);
      LettersOfInit(comp[..n], comp[n]);
      LettersOfInit(Without(comp[..n], letter), comp[n]);
    }
  }

  lemma OnlyLast(comp: Composition, nid: nat)
    requires comp != [] && Distinct(comp, nid)
    ensures forall t :: t in comp[..|comp| - 1] ==> t.id != comp[|comp| - 1].id
  {
    var n := |comp| - 1;
    forall t | t in comp[..n] ensures t.id != comp[n].id {
      var i :| 0 <= i < n && comp[..n][i] == t;
      assert comp[i].id != comp[n].id;
    }
  }

  lemma RenderedLast(t: Trans)
    requires IsAppending(t) && t.rule.key != NUL
    ensures Letters([t], false) == [t]
  {
    assert [t][..0] == [];
  }

  lemma {:induction false} EffectsUntouched(comp: Composition, letter: Trans, id: nat)
    requires id != letter.id && forall t :: t in comp && !IsAppending(t) ==> t.id != letter.id
    ensures EffectsOn(Without(comp, letter), id) == EffectsOn(comp, id)
  {
    if comp != [] {
      var n := |comp| - 1;
      assert comp[n] in comp;
      EffectsUntouched(comp[..n], letter, id);
      WithoutStep(comp, letter);
      EffectsConcat(Without(comp[..n], letter), [comp[n]], id);
      assert [comp[n]][..0] == [];
    }
  }

  // Every other letter keeps its marks, tones and case.
  lemma TextPopped(cs: Charset, comp: Composition, letter: Trans, mode: Mode, nid: nat)
    requires LettersAreRoots(comp) && Distinct(comp, nid) && NoVirtual(comp) && !mode.english
    requires FindLastAppending(comp) == Some(letter)
    ensures Canvas(cs, comp, mode) != ""
    ensures Canvas(cs, Without(comp, letter), mode) == Canvas(cs, comp, mode)[..|Canvas(cs, comp, mode)| - 1]
  {
    hide Glyph;
    LettersPopped(comp, letter, nid);
    LastLetter(comp);
    var rest := Without(comp, letter);
    var letters := Letters(comp, false);
    forall i | 0 <= i < |letters| - 1 ensures Glyph(cs, rest, letters[i], mode) == Glyph(cs, comp, letters[i], mode) {
      GlyphUntouched(cs, comp, letter, letters, i, mode, nid);
    }
  }

  lemma GlyphUntouched(cs: Charset, comp: Composition, letter: Trans, letters: Composition, i: nat, mode: Mode,
                       nid: nat)
    requires Distinct(comp, nid) && letter in comp && IsAppending(letter)
    requires letters == Letters(comp, false) && i < |letters| - 1 && letters[|letters| - 1] == letter
    ensures Glyph(cs, Without(comp, letter), letters[i], mode) == Glyph(cs, comp, letters[i], mode)
  {
    LettersDistinct(comp, nid);
    forall t | t in comp && !IsAppending(t) ensures t.id != letter.id {
      var a :| 0 <= a < |comp| && comp[a] == t;
      var b :| 0 <= b < |comp| && comp[b] == letter;
      assert a != b;
    }
    EffectsUntouched(comp, letter, letters[i].id);
  }

  lemma {:induction false} LettersDistinct(comp: Composition, nid: nat)
    requires Distinct(comp, nid)
    ensures Distinct(Letters(comp, false), nid)
  {
    if comp != [] {
      var n := |comp| - 1;
      LettersDistinct(comp[..n], nid);
      LettersAreMembers(comp[..n], false);
      var ls := Letters(comp[..n], false);
      forall i | 0 <= i < |ls| ensures ls[i].id != comp[n].id {
        assert ls[i] in ls;
        var j :| 0 <= j < n && comp[..n][j] == ls[i];
        assert comp[j].id != comp[n].id;
      }
    }
  }

  // ----- the invariant survives -----

  lemma WithoutShape(cs: Charset, keys: seq<char>, comp: Composition, letter: Trans, nid: nat)
    requires Shape(cs, keys, comp, nid)
    ensures LettersAreRoots(comp) && Shape(cs, keys, Without(comp, letter), nid)
  {
    hide IsPlain, BaseLetter;
    WithoutMembers(comp, letter);
    WithoutDistinct(comp, letter, nid);
    forall t | t in comp && IsAppending(t) ensures t.target.None? {
      assert EntryOk(cs, keys, t);
    }
    WithoutTargets(comp, comp, letter);
  }

  // An index of the shorter list corresponds to a split of the longer one.
  lemma {:induction false} WithoutIndex(comp: Composition, letter: Trans, k: nat) returns (j: nat)
    requires k < |Without(comp, letter)|
    ensures j < |comp| && comp[j] == Without(comp, letter)[k]
    ensures Without(comp, letter)[..k] == Without(comp[..j], letter)
    ensures Without(comp, letter)[k + 1..] == Without(comp[j + 1..], letter)
  {
    var n := |comp| - 1;
    var w := Without(comp[..n], letter);
    if k < |w| {
      j := WithoutIndex(comp[..n], letter, k);
      assert comp[..n][..j] == comp[..j];
      assert comp[j + 1..] == comp[..n][j + 1..] + [comp[n]];
      WithoutConcat(comp[..n][j + 1..], [comp[n]], letter);
      assert [comp[n]][..0] == [];
      assert Without(comp, letter)[k + 1..] == w[k + 1..] + Without([comp[n]], letter);
      assert Without(comp, letter)[..k] == w[..k];
    } else {
      j := n;
      assert comp[j + 1..] == [];
      assert Without(comp, letter)[..k] == w;
    }
  }

  lemma WithoutSeparated(cs: Charset, keys: seq<char>, comp: Composition, letter: Trans)
    requires Separated(cs, keys, comp) && LettersAreRoots(comp)
    ensures Separated(cs, keys, Without(comp, letter))
  {
    hide IsBreak, TargetsIn;
    var w := Without(comp, letter);
    forall k | 0 <= k < |w| && IsBreak(cs, keys, w[k])
      ensures TargetsIn(w[..k], w[..k]) && TargetsIn(w[k + 1..], w[k + 1..])
    {
      var j := WithoutIndex(comp, letter, k);
      WithoutTargets(comp[..j], comp[..j], letter);
      WithoutTargets(comp[j + 1..], comp[j + 1..], letter);
    }
  }

  // ----- RemoveLastChar on a letter that is part of a word -----

  lemma LastAppendingMember(comp: Composition)
    ensures var last := FindLastAppending(comp); last.Some? ==> last.value in comp && IsAppending(last.value)
  {
  }

  lemma {:induction false} LastAppendingOfConcat(a: Composition, b: Composition)
    ensures FindLastAppending(a + b) == if FindLastAppending(b).Some? then FindLastAppending(b)
            else FindLastAppending(a)
  {
    if b == [] {
      assert a + b == a;
    } else {
      var n := |b| - 1;
      assert (a + b)[..|a + b| - 1] == a + b[..n];
      LastAppendingOfConcat(a, b[..n]);
    }
  }

  // A processable last letter lies in the last word.
  lemma LastLetterIsInLastWord(c: Config, st: State, letter: Trans)
    requires GoodMethod(c.env.cs, c.im) && Inv(c, st) && NoVirtual(st.comp)
    requires FindLastAppending(st.comp) == Some(letter) && CanProcessKey(c.env.cs, letter.rule.key, c.im.keys)
    ensures FindLastAppending(ExtractLastWord(c.env.cs, st.comp, c.im.keys).1) == Some(letter)
  {
    hide ExtractLastWord, CanProcessKey, GoodMethod, Shape, Separated;
    var cs, keys := c.env.cs, c.im.keys;
    var (previous, word) := ExtractLastWord(cs, st.comp, keys);
    assert previous + word == st.comp by { CutIsLossless(cs, st.comp, keys); }
    LastAppendingOfConcat(previous, word);
    ProcessableIsNoBreak(c, st, letter);
    BeforeLastWord(c, st);
    if previous != [] {
      var b := previous[|previous| - 1];
      BreakIsLetter(cs, keys, b);
      assert FindLastAppending(previous) == Some(b);
    }
  }

  lemma BreakIsLetter(cs: Charset, keys: seq<char>, t: Trans)
    requires IsBreak(cs, keys, t)
    ensures IsAppending(t)
  {
  }

  lemma ProcessableIsNoBreak(c: Config, st: State, letter: Trans)
    requires GoodMethod(c.env.cs, c.im) && Shape(c.env.cs, c.im.keys, st.comp, st.nextId) && NoVirtual(st.comp)
    requires letter in st.comp && IsAppending(letter)
    ensures CanProcessKey(c.env.cs, letter.rule.key, c.im.keys) <==> !IsBreak(c.env.cs, c.im.keys, letter)
  {
    assert EntryOk(c.env.cs, c.im.keys, letter);
    ProcessableIffWordChar(c.env.cs, letter.rule.key, c.im.keys);
  }

  // Removing it from the last word is removing it from the whole composition.
  lemma RemovedFromWord(c: Config, st: State, letter: Trans)
    requires GoodMethod(c.env.cs, c.im) && Inv(c, st) && NoVirtual(st.comp)
    requires FindLastAppending(st.comp) == Some(letter) && CanProcessKey(c.env.cs, letter.rule.key, c.im.keys)
    ensures var (previous, word) := ExtractLastWord(c.env.cs, st.comp, c.im.keys);
            previous + Without(word, letter) == Without(st.comp, letter)
  {
    hide ExtractLastWord, CanProcessKey, GoodMethod, Separated, EntryOk;
    var cs, keys := c.env.cs, c.im.keys;
    var (previous, word) := ExtractLastWord(cs, st.comp, keys);
    assert previous + word == st.comp by { CutIsLossless(cs, st.comp, keys); }
    LastLetterIsInLastWord(c, st, letter);
    BeforeLastWord(c, st);
    LastAppendingMember(word);
    UnrelatedPrefix(previous, word, letter, st.nextId);
    WithoutUnrelated(previous, letter);
    WithoutConcat(previous, word, letter);
  }

  lemma UnrelatedPrefix(previous: Composition, word: Composition, letter: Trans, nid: nat)
    requires Distinct(previous + word, nid) && letter in word && TargetsIn(previous, previous)
    ensures forall t :: t in previous ==> t.target != Some(letter.id) && t.id != letter.id
  {
    var all := previous + word;
    var j :| 0 <= j < |word| && word[j] == letter;
    forall t | t in previous ensures t.id != letter.id {
      var i :| 0 <= i < |previous| && previous[i] == t;
      assert all[i].id != all[|previous| + j].id;
    }
  }

  // The new composition before and after the optional tone refresh.
  lemma RemoveFromWord(c: Config, st: State, refresh: bool, letter: Trans)
    requires GoodMethod(c.env.cs, c.im) && Inv(c, st) && NoVirtual(st.comp)
    requires FindLastAppending(st.comp) == Some(letter) && CanProcessKey(c.env.cs, letter.rule.key, c.im.keys)
    ensures var next := RemoveLastChar(c, st, refresh);
            && Inv(c, next) && Letters(next.comp, false) == Letters(Without(st.comp, letter), false)
            && (!refresh ==> next.comp == Without(st.comp, letter))
            && (Plain(c.env.cs, st.comp) ==> Plain(c.env.cs, next.comp))
  {
    hide ExtractLastWord, CanProcessKey, GoodMethod, Separated, Shape, Refresh, Without, IsBreak, Letters, Plain;
    var cs, keys := c.env.cs, c.im.keys;
    var (previous, word) := ExtractLastWord(cs, st.comp, keys);
    var rest := Without(word, letter);
    RemovedFromWord(c, st, letter);
    WithoutShape(cs, keys, st.comp, letter, st.nextId);
    WithoutSeparated(cs, keys, st.comp, letter);
    if Plain(cs, st.comp) {
      WithoutStaysPlain(cs, st.comp, letter);
    }
    RestHasNoBreak(cs, keys, st.comp, letter);
    if refresh {
      RefreshInPlace(c, previous, rest, st.nextId);
    } else {
      assert previous + rest + [] == previous + rest;
    }
  }

  lemma WithoutStaysPlain(cs: Charset, comp: Composition, letter: Trans)
    requires Plain(cs, comp)
    ensures Plain(cs, Without(comp, letter))
  {
    WithoutMembers(comp, letter);
  }

  lemma RestHasNoBreak(cs: Charset, keys: seq<char>, comp: Composition, letter: Trans)
    ensures forall t :: t in Without(ExtractLastWord(cs, comp, keys).1, letter) ==> !IsBreak(cs, keys, t)
  {
    hide IsBreak, ExtractLastWord;
    LastWord(cs, comp, keys);
    WithoutMembers(ExtractLastWord(cs, comp, keys).1, letter);
  }

  // A refresh of the last word keeps the invariant and the letters.
  lemma RefreshInPlace(c: Config, previous: Composition, word: Composition, nid: nat)
    requires Shape(c.env.cs, c.im.keys, previous + word, nid) && Separated(c.env.cs, c.im.keys, previous + word)
    requires forall t :: t in word ==> !IsBreak(c.env.cs, c.im.keys, t)
    ensures var (refreshed, extra) := Refresh(c, word, nid);
            && Inv(c, State(previous + refreshed + extra, nid + |extra|))
            && Letters(previous + refreshed + extra, false) == Letters(previous + word, false)
            && (Plain(c.env.cs, previous + word) ==> Plain(c.env.cs, previous + refreshed + extra))
  {
    hide Refresh, IsBreak, SameButTargets, Grows, Letters, WellFormed, TargetsIn, Plain, Separated;
    var cs, keys := c.env.cs, c.im.keys;
    var (refreshed, extra) := Refresh(c, word, nid);
    WellFormedParts(cs, keys, previous, word, nid);
    RefreshShape(c, word, nid);
    SameLength(refreshed, word);
    GrowsBehind(cs, keys, previous, word, refreshed + extra, nid);
    RetargetingKeepsBreaks(cs, keys, refreshed, word);
    VirtualHasNoBreak(cs, keys, extra);
    GrowthStaysSeparated(cs, keys, previous, word, refreshed + extra, nid);
    assert previous + (refreshed + extra) == previous + refreshed + extra;
    RetargetingKeepsLetters(refreshed, word);
    TonesAreNoLetters(extra);
    LettersConcat(previous + refreshed, extra, false);
    LettersConcat(previous, refreshed, false);
    LettersConcat(previous, word, false);
    PlainConcat(cs, previous, word);
    if Plain(cs, word) {
      RetargetingKeepsPlain(cs, refreshed, word);
    }
    QuietIsPlain(cs, extra);
    PlainConcat(cs, previous, refreshed);
    PlainConcat(cs, previous + refreshed, extra);
  }

  lemma SameLength(a: Composition, b: Composition)
    requires SameButTargets(a, b)
    ensures |a| == |b|
  {
  }

  lemma {:induction false} TonesAreNoLetters(extra: Composition)
    requires forall t :: t in extra ==> t.rule.key == NUL && t.rule.effectType == ToneTransformation
    ensures Letters(extra, false) == []
  {
    if extra != [] {
      assert extra[|extra| - 1] in extra;
      TonesAreNoLetters(extra[..|extra| - 1]);
    }
  }

  // ----- RemoveLastChar on a letter that ends a word -----

  // Only the last entry is cut; if that entry is the letter, everything else is untouched.
  lemma CutLast(c: Config, st: State, letter: Trans)
    requires GoodMethod(c.env.cs, c.im) && Inv(c, st) && NoVirtual(st.comp)
    requires FindLastAppending(st.comp) == Some(letter) && !CanProcessKey(c.env.cs, letter.rule.key, c.im.keys)
    ensures var n := |st.comp| - 1;
            && Inv(c, State(st.comp[..n], st.nextId))
            && (st.comp[n] == letter ==> st.comp[..n] == Without(st.comp, letter))
            && (st.comp[n] != letter ==> Letters(st.comp[..n], false) == Letters(st.comp, false))
  {
    hide CanProcessKey, GoodMethod, EntryOk, IsBreak, Letters, Separated;
    var cs, keys := c.env.cs, c.im.keys;
    var n := |st.comp| - 1;
    var init := st.comp[..n];
    assert st.comp == init + [st.comp[n]];
    ProcessableIsNoBreak(c, st, letter);
    WellFormedParts(cs, keys, init, [st.comp[n]], st.nextId);
    if st.comp[n] == letter {
      BreakIsClosed(cs, keys, st.comp, n);
      UnrelatedPrefix(init, [letter], letter, st.nextId);
      WithoutUnrelated(init, letter);
    } else {
      InitIsClosed(init, st.comp[n]);
      LettersOfInit(init, st.comp[n]);
    }
    PrefixIsSeparated(cs, keys, init, [st.comp[n]], st.nextId);
  }

  lemma BreakIsClosed(cs: Charset, keys: seq<char>, comp: Composition, k: nat)
    requires Separated(cs, keys, comp) && k < |comp| && IsBreak(cs, keys, comp[k])
    ensures TargetsIn(comp[..k], comp[..k])
  {
  }

  lemma InitIsClosed(init: Composition, t: Trans)
    requires TargetsIn(init + [t], init + [t]) && !IsAppending(t)
    ensures TargetsIn(init, init)
  {
    forall x | x in init && x.target.Some? ensures HasLetter(init, x.target.value) {
      assert x in init + [t];
      NoNewLetter(init, t, x.target.value);
    }
  }

  lemma LettersOfInit(init: Composition, t: Trans)
    requires !IsAppending(t)
    ensures Letters(init, false) == Letters(init + [t], false)
  {
    LettersConcat(init, [t], false);
    assert [t][..0] == [];
  }

  // ----- the stack -----

  // Whether a backspace pops: always inside a word; behind a word only if nothing follows the letter.
  predicate Pops(c: Config, st: State) {
    var last := FindLastAppending(st.comp);
    last.Some?
    && (CanProcessKey(c.env.cs, last.value.rule.key, c.im.keys) || st.comp[|st.comp| - 1] == last.value)
  }

  // A backspace pops exactly one letter, or (exactly when Pops is false) none; the invariant stays.
  // Without tone refresh, the marked text loses its last letter and nothing else.
  lemma BackspacePops(c: Config, st: State, refresh: bool)
    requires GoodMethod(c.env.cs, c.im) && Inv(c, st) && NoVirtual(st.comp)
    ensures var next := RemoveLastChar(c, st, refresh);
            var before := Letters(st.comp, false);
            && Inv(c, next)
            && (Pops(c, st) ==> before != [] && Letters(next.comp, false) == before[..|before| - 1])
            && (!Pops(c, st) ==> Letters(next.comp, false) == before)
            && (Pops(c, st) && !refresh ==>
                  var text := Canvas(c.env.cs, st.comp, VIETNAMESE);
                  text != "" && Canvas(c.env.cs, next.comp, VIETNAMESE) == text[..|text| - 1])
  {
    hide GoodMethod, Shape, Separated, Letters, CanProcessKey, Without, Canvas, ExtractLastWord, Refresh,
         FindLastAppending;
    var last := FindLastAppending(st.comp);
    if last.Some? {
      var letter := last.value;
      ShapeFacts(c, st, letter);
      LettersPopped(st.comp, letter, st.nextId);
      TextPopped(c.env.cs, st.comp, letter, VIETNAMESE, st.nextId);
      if CanProcessKey(c.env.cs, letter.rule.key, c.im.keys) {
        RemoveFromWord(c, st, refresh, letter);
      } else {
        CutLast(c, st, letter);
      }
    }
  }

  lemma ShapeFacts(c: Config, st: State, letter: Trans)
    requires Shape(c.env.cs, c.im.keys, st.comp, st.nextId)
    ensures LettersAreRoots(st.comp) && Distinct(st.comp, st.nextId)
  {
    hide EntryOk;
    WithoutShape(c.env.cs, c.im.keys, st.comp, letter, st.nextId);
  }

  lemma PlainHasNoVirtual(cs: Charset, comp: Composition)
    requires Plain(cs, comp)
    ensures NoVirtual(comp)
  {
  }

  lemma BackspaceStaysPlain(c: Config, st: State, refresh: bool)
    requires GoodMethod(c.env.cs, c.im) && PlainInv(c, st)
    ensures Plain(c.env.cs, RemoveLastChar(c, st, refresh).comp)
  {
    hide GoodMethod, Shape, Separated, CanProcessKey, ExtractLastWord, Refresh, Plain;
    PlainHasNoVirtual(c.env.cs, st.comp);
    var last := FindLastAppending(st.comp);
    if last.Some? {
      if CanProcessKey(c.env.cs, last.value.rule.key, c.im.keys) {
        RemoveFromWord(c, st, refresh, last.value);
      } else {
        var n := |st.comp| - 1;
        assert st.comp == st.comp[..n] + [st.comp[n]];
        PlainConcat(c.env.cs, st.comp[..n], [st.comp[n]]);
      }
    }
  }
}
