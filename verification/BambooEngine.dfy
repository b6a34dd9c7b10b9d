/**
 The mutable engine: each operation reassigns the composition to what the
 functions of BambooKeys say.
 */
module BambooEngine {
  import opened Options
  import opened BambooChars
  import opened BambooFlattener
  import opened BambooUtils
  import opened BambooKeys
  import opened BambooLoops
  import opened BambooShape
  import opened BambooGenerators
  import opened BambooRuns
  import opened BambooStack
  import opened BambooBackspace
  import opened BambooRestore
  import opened BambooRetype
  import opened BambooWords

  class BambooEngine {
    var composition: Composition
    var nextId: nat
    const env: Env
    const inputMethod: InputMethod
    var flags: Flags

    constructor (env: Env, inputMethod: InputMethod, flags: Flags)
      ensures this.env == env && this.inputMethod == inputMethod && this.flags == flags
      ensures State() == EMPTY
    {
      this.env, this.inputMethod, this.flags := env, inputMethod, flags;
      composition, nextId := [], 0;
    }

    ghost function Config(): Config
      reads this
    {
      BambooKeys.Config(env, inputMethod, flags)
    }

    ghost function State(): State
      reads this
    {
      BambooKeys.State(composition, nextId)
    }

    // The text recorded so far: the keys in the order they were typed.
    ghost function Recorded(): string
      reads this
    {
      Typed(env.cs, composition)
    }

    method SetFlag(flags: Flags)
      modifies this`flags
      ensures this.flags == flags
    {
      this.flags := flags;
    }

    method NewSyllableOf(syllable: Composition, lowerKey: char, isUpperCase: bool) returns (next: Composition)
      ensures next == NewSyllable(Config(), syllable, lowerKey, isUpperCase, nextId)
    {
      hide KeyTransformations, Refresh;
      var c := BambooKeys.Config(env, inputMethod, flags);
      var transformations := KeyTransformations(c, syllable, lowerKey, isUpperCase, nextId);
      var full := syllable + transformations;
      var (refreshed, extra) := Refresh(c, full, nextId + |full| - |syllable|);
      next := refreshed + extra;
    }

    // The engine moves to the state ProcessKey describes; under the invariant it records the key.
    method ProcessKey(key: char, english: bool)
      modifies this`composition, this`nextId
      ensures State() == BambooKeys.ProcessKey(Config(), old(State()), key, english)
      ensures GoodMethod(env.cs, inputMethod) && old(Inv(Config(), State())) && IsOrdinaryKey(env.cs, key) ==>
                && Inv(Config(), State())
                && Recorded() == old(Recorded()) + if old(LosesKey(Config(), State(), key, english)) then "" else [key]
    {
      hide Inv, GoodMethod, Typed, ExtractLastSyllable, NewSyllable, CanProcessKey, LosesKey;
      ghost var c, before := Config(), State();
      var lowerKey := env.cs.lower(key);
      var isUpperCase := env.cs.isUpper(key);
      if english || !CanProcessKey(env.cs, lowerKey, inputMethod.keys) {
        composition := composition + [NewAppendingTrans(nextId, lowerKey, isUpperCase)];
        nextId := nextId + 1;
      } else {
        var previous, syllable := ExtractLastSyllableLoop(env, composition);
        var next := NewSyllableOf(syllable, lowerKey, isUpperCase);
        var newComposition := previous + next;
        if |newComposition| > |composition| {
          nextId := nextId + |newComposition| - |composition|;
        }
        composition := newComposition;
      }
      assert State() == BambooKeys.ProcessKey(c, before, key, english);
      if GoodMethod(env.cs, inputMethod) && Inv(c, before) && IsOrdinaryKey(env.cs, key) {
        KeyIsRecorded(c, before, key, english);
      }
    }

    // The keys one after the other; what is recorded of them is appended, all of it without Appending rules.
    method ProcessString(str: string, english: bool)
      modifies this`composition, this`nextId
      ensures State() == TypeAll(Config(), old(State()), str, english)
      ensures GoodMethod(env.cs, inputMethod) && old(Inv(Config(), State()))
              && (forall k :: k in str ==> IsOrdinaryKey(env.cs, k)) ==>
                && Inv(Config(), State())
                && Recorded() == old(Recorded()) + Kept(Config(), old(State()), str, english)
                && (NoAppending(inputMethod) && old(PlainInv(Config(), State())) ==>
                     Recorded() == old(Recorded()) + str)
    {
      hide Inv, GoodMethod, NoAppending, Plain, LosesKey, BambooKeys.ProcessKey, Typed, IsOrdinaryKey;
      ghost var c, before := Config(), State();
      for i := 0 to |str|
        invariant State() == TypeAll(c, before, str[..i], english)
      {
        assert str[..i + 1][..i] == str[..i];
        ProcessKey(str[i], english);
      }
      assert str[..|str|] == str;
      if GoodMethod(env.cs, inputMethod) && Inv(c, before) && forall k :: k in str ==> IsOrdinaryKey(env.cs, k) {
        TypingRecords(c, before, str, english);
        if NoAppending(inputMethod) && PlainInv(c, before) {
          OrdinaryIsTyped(env.cs, str);
          TypingKeepsAll(c, before, str, english);
        }
      }
    }

    // The word is broken into its keys, or typed again from them.
    method RestoreLastWord(toVietnamese: bool)
      modifies this`composition, this`nextId
      ensures State() == BambooKeys.RestoreLastWord(Config(), old(State()), toVietnamese)
      ensures GoodMethod(env.cs, inputMethod) && old(Inv(Config(), State())) && !toVietnamese ==>
                && Inv(Config(), State())
                && ProcessedString(Config(), State(), VIETNAMESE, LastWordOnly)
                   == old(ProcessedString(Config(), State(), ENGLISH, LastWordOnly))
      ensures GoodMethod(env.cs, inputMethod) && NoAppending(inputMethod) && old(LowerKeys(env.cs, composition))
              && toVietnamese ==>
                Recorded() == old(Recorded())
      ensures GoodMethod(env.cs, inputMethod) && NoAppending(inputMethod) && env.cs.lower(NUL) == NUL
              && old(PlainInv(Config(), State())) && toVietnamese ==>
                (PlainInv(Config(), State()) <==>
                   forall t :: t in ExtractLastWord(env.cs, old(composition), inputMethod.keys).1 ==> t.rule.key != NUL)
    {
      hide Inv, GoodMethod, NoAppending, LowerKeys, Plain, ExtractLastWord, Canvas, BreakComposition, Retyped, Typed;
      ghost var c, before := Config(), State();
      var previous, lastComb := ExtractLastWordLoop(env.cs, composition, inputMethod.keys);
      if lastComb != [] {
        if !toVietnamese {
          var broken := BreakCompositionLoop(lastComb, nextId);
          composition := previous + broken;
          nextId := nextId + |broken|;
        } else {
          var retyped := Retype(lastComb);
          composition := previous + retyped.comp;
          nextId := retyped.nextId;
        }
      }
      if GoodMethod(env.cs, inputMethod) {
        if !toVietnamese && Inv(c, before) {
          RestoreExposesKeys(c, before);
        } else if toVietnamese && NoAppending(inputMethod) {
          if LowerKeys(env.cs, before.comp) {
            RetypeKeepsKeys(c, before);
          }
          if PlainInv(c, before) && env.cs.lower(NUL) == NUL {
            RetypeKeepsInvIff(c, before);
          }
        }
      }
    }

    method Retype(word: Composition) returns (st: BambooKeys.State)
      ensures st == Retyped(Config(), word, nextId)
    {
      hide NewComposition;
      st := BambooKeys.State([], nextId);
      var c := BambooKeys.Config(env, inputMethod, flags);
      for i := 0 to |word|
        invariant st == Retyped(Config(), word[..i], nextId)
      {
        assert word[..i + 1][..i] == word[..i];
        st := Advance(st, NewComposition(c, st.comp, word[i].rule.key, word[i].isUpperCase, st.nextId));
      }
      assert word[..|word|] == word;
    }

    method RemoveLastChar(refreshLastToneTarget: bool)
      modifies this`composition, this`nextId
      ensures State() == BambooKeys.RemoveLastChar(Config(), old(State()), refreshLastToneTarget)
      ensures GoodMethod(env.cs, inputMethod) && old(Inv(Config(), State()) && NoVirtual(composition)) ==>
                && Inv(Config(), State())
                && (old(Pops(Config(), State())) ==>
                      old(Letters(composition, false)) != []
                      && Letters(composition, false)
                           == old(Letters(composition, false)[..|Letters(composition, false)| - 1]))
    {
      hide Inv, GoodMethod, Letters, Refresh, CanProcessKey, ExtractLastWord;
      ghost var c, before := Config(), State();
      var lastAppending := FindLastAppendingTrans(composition);
      if lastAppending.Some? {
        if !CanProcessKey(env.cs, lastAppending.value.rule.key, inputMethod.keys) {
          composition := composition[..|composition| - 1];
        } else {
          var previous, lastComb := ExtractLastWordLoop(env.cs, composition, inputMethod.keys);
          var newComb := RemoveFrom(lastComb, lastAppending.value);
          var (refreshed, extra) := if refreshLastToneTarget
                                    then Refresh(BambooKeys.Config(env, inputMethod, flags), newComb, nextId)
                                      else (newComb, []);
          composition := previous + refreshed + extra;
          nextId := nextId + |extra|;
        }
      }
      assert State() == BambooKeys.RemoveLastChar(c, before, refreshLastToneTarget);
      if GoodMethod(env.cs, inputMethod) && Inv(c, before) && NoVirtual(before.comp) {
        BackspacePops(c, before, refreshLastToneTarget);
      }
    }

    method RemoveFrom(comp: Composition, letter: Trans) returns (r: Composition)
      ensures r == Without(comp, letter)
    {
      r := [];
      for i := 0 to |comp|
        invariant r == Without(comp[..i], letter)
      {
        assert comp[..i + 1][..i] == comp[..i];
        if comp[i].target != Some(letter.id) && comp[i].id != letter.id {
          r := r + [comp[i]];
        }
      }
      assert comp[..|comp|] == comp;
    }

    method Reset()
      modifies this`composition
      ensures composition == []
    {
      composition := [];
    }

    method GetProcessedString(mode: Mode, extent: Extent) returns (text: string)
      ensures text == ProcessedString(Config(), State(), mode, extent)
    {
      match extent {
        case FullText =>
          text := Flatten(env.cs, composition, mode);
        case BehindSpace =>
          var _, behind := ExtractBehindSpaceLoop(env.cs, composition);
          text := Flatten(env.cs, behind, VIETNAMESE);
        case LastWordOnly =>
          var _, last := ExtractLastWordLoop(env.cs, composition, inputMethod.keys);
          text := Flatten(env.cs, last, mode);
      }
    }
  }

  lemma OrdinaryIsTyped(cs: Charset, str: string)
    requires forall k :: k in str ==> IsOrdinaryKey(cs, k)
    ensures forall k :: k in str ==> cs.lower(k) != NUL
  {
  }
}
