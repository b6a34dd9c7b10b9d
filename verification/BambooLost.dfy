/**
 A run that loses a key: with a method that makes ư of w, typing w twice leaves one w.
 */
module BambooLost {
  import opened Options
  import opened BambooChars
  import opened BambooFlattener
  import opened BambooUtils
  import opened BambooKeys
  import opened BambooShape
  import opened BambooGenerators
  import opened BambooWords
  import opened BambooRuns
  import opened BambooVisible

  const MAKES_U := Rule('w', MARK_NONE, Appending, 'ư', 'ư', [])
  const METHOD := InputMethod([MAKES_U], [], ['w'])
  const W := Trans(0, MAKES_U, None, false)
  const TWICE := [Press('w', false), Press('w', false)]

  // A character table that has ư, and keeps the letters of the run small.
  ghost predicate KnowsU(cs: Charset) {
    'ư' in cs.vowels && forall k :: k in "wư" ==> cs.lower(k) == k && !cs.isUpper(k)
  }

  lemma Small(cs: Charset)
    requires KnowsU(cs)
    ensures cs.lower('w') == 'w' && !cs.isUpper('w') && cs.lower('ư') == 'ư' && !cs.isUpper('ư')
    ensures IsAlpha(BaseLetter(cs, 'ư'))
  {
    BaseIsAlphaOrSelf(cs, 'ư');
    assert 'w' in "wư" && 'ư' in "wư";
  }

  lemma MethodIsGood(cs: Charset)
    requires KnowsU(cs)
    ensures GoodMethod(cs, METHOD) && NoAppended(METHOD)
  {
    hide CharsetData.Good, BaseLetter;
    Small(cs);
  }

  lemma FirstW(c: Config)
    requires KnowsU(c.env.cs) && c.im == METHOD
    ensures ProcessKey(c, EMPTY, 'w', false) == State([W], 1)
  {
    hide CharsetData.Good, KnowsU, IsValid, Canvas, ExtractCvcTrans;
    var cs := c.env.cs;
    Small(cs);
    assert [MAKES_U][1..] == [];
    assert ApplicableRules(cs, [], 'w') == [] && ApplicableRules(cs, [MAKES_U], 'w') == [MAKES_U];
    assert FindTarget(c.env, [], [MAKES_U], [], c.flags, 0) == None;
    assert FindTarget(c.env, [], [MAKES_U], [MAKES_U], c.flags, 0) == None;
    NothingShown(cs);
    assert GenerateUndo(cs, [], [], c.flags, 0) == [] && GenerateUndo(cs, [], [MAKES_U], c.flags, 0) == [];
    assert VirtualLetters(cs, [], false, 1) == [];
    assert GenerateFallback(cs, [MAKES_U], 'w', false, 0) == [W];
    assert KeyTransformations(c, [], 'w', false, 0) == [W];
    assert [W][..0] == [];
    assert LastToneIndex([W]) == 0;
    assert Refresh(c, [W], 1) == ([W], []);
    assert NewSyllable(c, [], 'w', false, 0) == [W];
    assert ExtractLastSyllable(c.env, []) == ([], []);
  }

  lemma NothingShown(cs: Charset)
    ensures !HasUhO(Canvas(cs, [], TONELESS_LOWER))
  {
  }

  lemma WordOfW(c: Config)
    requires KnowsU(c.env.cs) && c.im == METHOD
    ensures ExtractLastSyllable(c.env, [W]) == ([], [W])
  {
    hide CharsetData.Good, KnowsU, ExtractLastWord, IsValid;
    WIsNoBreak(c.env.cs);
    LastWordIs(c.env.cs, [], [W], []);
    assert [] + [W] == [W];
    Alone(c.env);
    assert [W][0..1] == [W];
    assert Anchor(c.env, [W], 1) == 0;
    assert [] + [W][..0] == [] && [W][0..] == [W];
  }

  lemma Alone(env: Env)
    ensures IsValid(env, [W], false)
  {
  }

  lemma WIsNoBreak(cs: Charset)
    requires KnowsU(cs)
    ensures Decided(cs, [], [W]) && !IsBreak(cs, [], W)
  {
    hide CharsetData.Good, KnowsU, Base;
    Small(cs);
    BaseIsAlphaOrSelf(cs, 'w');
    AlphaStaysAlpha(cs, Base(cs, 'w'));
  }

  lemma AlphaStaysAlpha(cs: Charset, k: char)
    requires IsAlpha(k)
    ensures IsAlpha(cs.lower(k))
  {
  }

  lemma DoubleW(c: Config)
    requires KnowsU(c.env.cs) && c.im == METHOD
    ensures LosesKey(c, State([W], 1), 'w', false)
  {
    hide CharsetData.Good, KnowsU, ExtractLastSyllable;
    Small(c.env.cs);
    WordOfW(c);
  }

  // Of the two keys one is lost: the text recorded is one w.
  lemma TwiceLosesOne(c: Config)
    requires KnowsU(c.env.cs) && c.im == METHOD
    ensures GoodMethod(c.env.cs, c.im) && NoAppended(c.im)
    ensures Lost(c, TWICE) == 1 && |Typed(c.env.cs, RunKeys(c, TWICE).comp)| == 1
  {
    hide CharsetData.Good, KnowsU, LosesKey, ProcessKey, GoodMethod, Typed;
    MethodIsGood(c.env.cs);
    FirstW(c);
    DoubleW(c);
    assert TWICE[..1] == [Press('w', false)] && [Press('w', false)][..0] == [];
    assert RunKeys(c, TWICE[..1]) == State([W], 1);
    NothingLostAtFirst(c);
    assert Lost(c, TWICE[..1]) == 0;
    Ordinary(c.env.cs);
    KeystrokesRecorded(c, TWICE);
  }

  lemma NothingLostAtFirst(c: Config)
    ensures !LosesKey(c, EMPTY, 'w', false)
  {
  }

  lemma Ordinary(cs: Charset)
    requires KnowsU(cs)
    ensures IsOrdinaryKey(cs, 'w')
  {
    hide CharsetData.Good;
    assert 'w' in "wư";
  }
}
