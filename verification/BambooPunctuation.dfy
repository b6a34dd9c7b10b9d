/**
 The text behind the last space, as the punctuation mode of the engine asks for it.
 */
module BambooPunctuation {
  import opened Options
  import opened BambooChars
  import opened BambooFlattener
  import opened BambooUtils
  import opened BambooGenerators

  lemma FirstRecorded(comp: Composition, i: nat)
    requires i < |comp|
    ensures Letters(comp[i..], true)
            == (if IsRendered(comp[i], true) then [comp[i]] else []) + Letters(comp[i + 1..], true)
  {
    assert comp[i..] == [comp[i]] + comp[i + 1..];
    LettersConcat([comp[i]], comp[i + 1..], true);
    assert [comp[i]][..0] == [];
  }

  // An entry that records a space.
  predicate IsSpaceEntry(cs: Charset, t: Trans) {
    t.rule.key != NUL && CasedKey(cs, t.rule.key, t.isUpperCase) == ' '
  }

  // Once entries that record nothing are skipped, the first one decides.
  lemma StartIsEntry(cs: Charset, comp: Composition, i: nat)
    requires i < |comp|
    ensures IsSpaceEntry(cs, comp[i]) ==> StartsWithSpace(cs, comp[i..])
    ensures StartsWithSpace(cs, comp[i..]) ==> IsSpaceEntry(cs, comp[i]) || StartsWithSpace(cs, comp[i + 1..])
  {
    FirstRecorded(comp, i);
  }

  lemma {:induction false} NoSpaceBehind(cs: Charset, comp: Composition, i: nat)
    requires i <= |comp| && !StartsWithSpace(cs, comp[i..])
    ensures var r := LastSpace(cs, comp, i);
            && (forall j :: r <= j < i ==> !IsSpaceEntry(cs, comp[j]))
            && (r > 0 ==> IsSpaceEntry(cs, comp[r - 1]))
  {
    hide StartsWithSpace, IsSpaceEntry;
    if i > 0 {
      StartIsEntry(cs, comp, i - 1);
      if !StartsWithSpace(cs, comp[i - 1..]) {
        NoSpaceBehind(cs, comp, i - 1);
      }
    }
  }

  lemma {:induction false} RecordedText(cs: Charset, comp: Composition)
    ensures ' ' in Typed(cs, comp) <==> exists i :: 0 <= i < |comp| && IsSpaceEntry(cs, comp[i])
  {
    hide IsSpaceEntry, Typed;
    if comp == [] {
      NothingTyped(cs);
    } else {
      var n := |comp| - 1;
      RecordedText(cs, comp[..n]);
      assert comp == comp[..n] + [comp[n]];
      TypedConcat(cs, comp[..n], [comp[n]]);
      OneRecorded(cs, comp[n]);
      assert forall i :: 0 <= i < n ==> comp[..n][i] == comp[i];
      if i :| 0 <= i < |comp| && IsSpaceEntry(cs, comp[i]) {
        if i == n {
          SpaceIsShown(cs, comp[n]);
        } else {
          assert IsSpaceEntry(cs, comp[..n][i]);
        }
      }
      if ' ' in Typed(cs, comp) {
        if ' ' in Typed(cs, comp[..n]) {
          var i :| 0 <= i < n && IsSpaceEntry(cs, comp[..n][i]);
        } else {
          SpaceIsShown(cs, comp[n]);
        }
      }
    }
  }

  lemma SpaceIsShown(cs: Charset, t: Trans)
    ensures ' ' in Typed(cs, [t]) <==> IsSpaceEntry(cs, t)
  {
    OneRecorded(cs, t);
  }

  lemma NothingTyped(cs: Charset)
    ensures Typed(cs, []) == ""
  {
  }

  lemma OneRecorded(cs: Charset, t: Trans)
    ensures Typed(cs, [t]) == if t.rule.key == NUL then "" else [CasedKey(cs, t.rule.key, t.isUpperCase)]
  {
    assert [t][..0] == [];
    if t.rule.key != NUL {
      OneEntry(cs, t);
    } else {
      assert Letters([t], true) == [];
    }
  }

  // The cut is behind the last recorded space: no key behind it is a space, and the keys before it end with one.
  lemma BehindSpaceIsLastField(cs: Charset, comp: Composition)
    ensures var (previous, last) := ExtractBehindSpace(cs, comp);
            && Typed(cs, comp) == Typed(cs, previous) + Typed(cs, last)
            && ' ' !in Typed(cs, last)
            && (previous != [] ==> var text := Typed(cs, previous); text != "" && text[|text| - 1] == ' ')
  {
    hide StartsWithSpace, IsSpaceEntry, Typed;
    var (previous, last) := ExtractBehindSpace(cs, comp);
    var r := |previous|;
    assert comp[|comp|..] == [];
    NothingIsNoSpace(cs);
    NoSpaceBehind(cs, comp, |comp|);
    TypedConcat(cs, previous, last);
    RecordedText(cs, last);
    assert forall j :: 0 <= j < |last| ==> last[j] == comp[r + j];
    if previous != [] {
      EndsWithSpace(cs, previous);
    }
  }

  lemma EndsWithSpace(cs: Charset, comp: Composition)
    requires comp != [] && IsSpaceEntry(cs, comp[|comp| - 1])
    ensures var text := Typed(cs, comp); text != "" && text[|text| - 1] == ' '
  {
    hide Typed;
    var n := |comp| - 1;
    assert comp == comp[..n] + [comp[n]];
    TypedConcat(cs, comp[..n], [comp[n]]);
    OneRecorded(cs, comp[n]);
  }

  lemma NothingIsNoSpace(cs: Charset)
    ensures !StartsWithSpace(cs, [])
  {
  }
}
