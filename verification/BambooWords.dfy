/**
 Word boundaries: where the last word starts, and why no effect reaches across a
 boundary.
 */
module BambooWords {
  import opened Options
  import opened BambooChars
  import opened BambooSpelling
  import opened BambooFlattener
  import opened BambooUtils
  import opened BambooKeys
  import opened BambooShape
  import opened BambooGenerators
  import opened BambooSteps

  // Effects cannot decide whether the letter ends a word.
  predicate IsDecided(cs: Charset, keys: seq<char>, t: Trans) {
    IsRendered(t, false) ==>
      (IsWordChar(BaseLetter(cs, t.rule.effectOn), keys) <==> IsWordChar(BaseLetter(cs, t.rule.key), keys))
  }

  ghost predicate Decided(cs: Charset, keys: seq<char>, comp: Composition) {
    forall t :: t in comp ==> IsDecided(cs, keys, t)
  }

  lemma FirstLetter(comp: Composition, i: nat)
    requires i < |comp|
    ensures Letters(comp[i..], false)
            == (if IsRendered(comp[i], false) then [comp[i]] else []) + Letters(comp[i + 1..], false)
  {
    assert comp[i..] == [comp[i]] + comp[i + 1..];
    LettersConcat([comp[i]], comp[i + 1..], false);
    assert [comp[i]][..0] == [];
  }

  lemma BreakStartsWord(cs: Charset, comp: Composition, keys: seq<char>, i: nat)
    requires i < |comp| && IsBreak(cs, keys, comp[i])
    ensures StartsWithBreak(cs, comp[i..], keys)
  {
    FirstLetter(comp, i);
    GlyphBase(cs, comp[i..], comp[i]);
    assert Letters(comp[i..], false)[0] == comp[i];
  }

  // What comes before the first letter does not matter.
  lemma StartIsTheFirstLetter(cs: Charset, comp: Composition, keys: seq<char>, i: nat)
    requires i < |comp| && Decided(cs, keys, comp) && StartsWithBreak(cs, comp[i..], keys)
    ensures IsBreak(cs, keys, comp[i]) || StartsWithBreak(cs, comp[i + 1..], keys)
  {
    FirstLetter(comp, i);
    LettersAreMembers(comp[i..], false);
    var first := Letters(comp[i..], false)[0];
    assert first in Letters(comp[i..], false);
    assert first in comp;
    GlyphBase(cs, comp[i..], first);
    GlyphBase(cs, comp[i + 1..], first);
  }

  // The cut leaves no break behind it ...
  lemma {:induction false} NoBreakAfterCut(cs: Charset, comp: Composition, keys: seq<char>, i: nat)
    requires i <= |comp|
    ensures forall j :: LastBreak(cs, comp, keys, i) <= j < i ==> !IsBreak(cs, keys, comp[j])
  {
    hide IsBreak, StartsWithBreak;
    if i > 0 {
      NoBreakAfterCut(cs, comp, keys, i - 1);
      if IsBreak(cs, keys, comp[i - 1]) {
        BreakStartsWord(cs, comp, keys, i - 1);
      }
    }
  }

  // ... and is made right behind a break.
  lemma {:induction false} CutIsBehindBreak(cs: Charset, comp: Composition, keys: seq<char>, i: nat)
    requires i <= |comp| && Decided(cs, keys, comp) && !StartsWithBreak(cs, comp[i..], keys)
    ensures var r := LastBreak(cs, comp, keys, i); r > 0 ==> IsBreak(cs, keys, comp[r - 1])
  {
    hide IsBreak, StartsWithBreak, Decided;
    if i > 0 {
      if StartsWithBreak(cs, comp[i - 1..], keys) {
        StartIsTheFirstLetter(cs, comp, keys, i - 1);
      } else {
        CutIsBehindBreak(cs, comp, keys, i - 1);
      }
    }
  }

  // The last word: everything behind the last break.
  lemma LastWord(cs: Charset, comp: Composition, keys: seq<char>)
    ensures forall t :: t in ExtractLastWord(cs, comp, keys).1 ==> !IsBreak(cs, keys, t)
    ensures var previous := ExtractLastWord(cs, comp, keys).0;
            Decided(cs, keys, comp) && previous != [] ==> IsBreak(cs, keys, previous[|previous| - 1])
  {
    hide IsBreak, StartsWithBreak, IsDecided, LastBreak;
    NoBreakAfterCut(cs, comp, keys, |comp|);
    var r := LastBreak(cs, comp, keys, |comp|);
    forall t | t in comp[r..] ensures !IsBreak(cs, keys, t) {
      var j :| r <= j < |comp| && comp[j] == t;
    }
    if Decided(cs, keys, comp) {
      assert comp[|comp|..] == [];
      NothingStarts(cs, keys);
      CutIsBehindBreak(cs, comp, keys, |comp|);
    }
  }

  lemma NothingStarts(cs: Charset, keys: seq<char>)
    ensures !StartsWithBreak(cs, [], keys)
  {
  }

  // The only way to cut: the last word is determined by where the last break is.
  lemma LastWordIs(cs: Charset, previous: Composition, word: Composition, keys: seq<char>)
    requires Decided(cs, keys, previous + word)
    requires forall t :: t in word ==> !IsBreak(cs, keys, t)
    requires previous != [] ==> IsBreak(cs, keys, previous[|previous| - 1])
    ensures ExtractLastWord(cs, previous + word, keys) == (previous, word)
  {
    hide IsBreak, Decided;
    var comp := previous + word;
    var r := LastBreak(cs, comp, keys, |comp|);
    assert ExtractLastWord(cs, comp, keys) == (comp[..r], comp[r..]);
    LastWord(cs, comp, keys);
    NoBreakAfterCut(cs, comp, keys, |comp|);
    assert previous != [] ==> comp[|previous| - 1] == previous[|previous| - 1];
    assert r > 0 ==> comp[..r][r - 1] == comp[r - 1];
    forall j | |previous| <= j < |comp| ensures !IsBreak(cs, keys, comp[j]) {
      assert comp[j] == word[j - |previous|];
    }
    assert r == |previous|;
    assert comp[..|previous|] == previous && comp[|previous|..] == word;
  }

  lemma EmptyKeysBreakMore(cs: Charset, keys: seq<char>, t: Trans)
    requires IsBreak(cs, keys, t)
    ensures IsBreak(cs, [], t)
  {
  }

  // Entries of a good method are decided, with respect to the method's keys.
  lemma EntriesAreDecided(cs: Charset, im: InputMethod, comp: Composition)
    requires GoodMethod(cs, im) && forall t :: t in comp ==> EntryOk(cs, im.keys, t)
    ensures Decided(cs, im.keys, comp)
  {
    forall t | t in comp && IsRendered(t, false) && t.rule.key in im.keys
      ensures IsWordChar(BaseLetter(cs, t.rule.key), im.keys)
    {
      ProcessableIffWordChar(cs, t.rule.key, im.keys);
    }
  }

  // ----- effects do not reach across breaks -----

  ghost predicate Separated(cs: Charset, keys: seq<char>, comp: Composition) {
    forall k :: 0 <= k < |comp| && IsBreak(cs, keys, comp[k]) ==>
      TargetsIn(comp[..k], comp[..k]) && TargetsIn(comp[k + 1..], comp[k + 1..])
  }

  // A growing syllable that contains no break keeps everything separated.
  lemma GrowthStaysSeparated(cs: Charset, keys: seq<char>, previous: Composition, syllable: Composition,
                             next: Composition, nid: nat)
    requires Separated(cs, keys, previous + syllable) && Grows(cs, keys, syllable, next, nid)
    requires forall t :: t in next ==> !IsBreak(cs, keys, t)
    ensures Separated(cs, keys, previous + next)
  {
    hide Grows, IsBreak, WellFormed;
    var old', new' := previous + syllable, previous + next;
    forall k | |previous| <= k < |new'| ensures !IsBreak(cs, keys, new'[k]) {
      assert new'[k] == next[k - |previous|];
    }
    forall k | 0 <= k < |new'| && IsBreak(cs, keys, new'[k])
      ensures TargetsIn(new'[..k], new'[..k]) && TargetsIn(new'[k + 1..], new'[k + 1..])
    {
      assert k < |previous|;
      assert old'[k] == new'[k] && old'[..k] == new'[..k];
      assert old'[k + 1..] == previous[k + 1..] + syllable && new'[k + 1..] == previous[k + 1..] + next;
      TargetsBehindBreak(cs, keys, previous[k + 1..], syllable, next, nid);
    }
  }

  lemma TargetsBehindBreak(cs: Charset, keys: seq<char>, previous: Composition, syllable: Composition,
                           next: Composition, nid: nat)
    requires TargetsIn(previous + syllable, previous + syllable) && Grows(cs, keys, syllable, next, nid)
    ensures TargetsIn(previous + next, previous + next)
  {
    hide Grows;
    forall t | t in previous + next && t.target.Some? ensures HasLetter(previous + next, t.target.value) {
      var i :| 0 <= i < |previous + next| && (previous + next)[i] == t;
      TargetBehind(cs, keys, previous, syllable, next, nid, i);
    }
  }

  // Cutting at a break leaves two self-contained halves.
  lemma HalvesAreClosed(cs: Charset, keys: seq<char>, comp: Composition, r: nat)
    requires Separated(cs, keys, comp) && TargetsIn(comp, comp)
    requires r <= |comp| && (r > 0 ==> IsBreak(cs, keys, comp[r - 1])) && (r > 0 ==> comp[r - 1].target.None?)
    ensures TargetsIn(comp[..r], comp[..r]) && TargetsIn(comp[r..], comp[r..])
  {
    hide IsBreak;
    if r == 0 {
      assert comp[..0] == [] && comp[0..] == comp;
    } else {
      assert comp[..r] == comp[..r - 1] + [comp[r - 1]];
      forall t | t in comp[..r] && t.target.Some? ensures HasLetter(comp[..r], t.target.value) {
        HasLetterGrows(comp[..r - 1], [comp[r - 1]], t.target.value);
      }
    }
  }

  // A self-contained prefix stays separated.
  lemma PrefixIsSeparated(cs: Charset, keys: seq<char>, a: Composition, b: Composition, nid: nat)
    requires Separated(cs, keys, a + b) && Distinct(a + b, nid)
    requires TargetsIn(a, a)
    ensures Separated(cs, keys, a)
  {
    hide IsBreak;
    var ab := a + b;
    forall k | 0 <= k < |a| && IsBreak(cs, keys, a[k])
      ensures TargetsIn(a[..k], a[..k]) && TargetsIn(a[k + 1..], a[k + 1..])
    {
      assert ab[k] == a[k] && ab[..k] == a[..k] && ab[k + 1..] == a[k + 1..] + b;
      forall t | t in a[k + 1..] && t.target.Some? ensures HasLetter(a[k + 1..], t.target.value) {
        LetterIsBehind(a, b, k, t, nid);
      }
    }
  }

  // The target of an entry behind a break is behind the break as well.
  lemma LetterIsBehind(a: Composition, b: Composition, k: nat, t: Trans, nid: nat)
    requires k < |a| && t in a[k + 1..] && t.target.Some?
    requires TargetsIn(a, a) && TargetsIn(a[k + 1..] + b, a[k + 1..] + b)
    requires Distinct(a + b, nid)
    ensures HasLetter(a[k + 1..], t.target.value)
  {
    var x :| x in a && x.id == t.target.value && IsAppending(x);
    var y :| y in a[k + 1..] + b && y.id == t.target.value && IsAppending(y);
    var i :| 0 <= i < |a| && a[i] == x;
    var j :| 0 <= j < |a[k + 1..] + b| && (a[k + 1..] + b)[j] == y;
    assert (a + b)[i] == x && (a + b)[k + 1 + j] == y;
    assert i == k + 1 + j;
    assert x == a[k + 1..][i - k - 1];
  }
}
