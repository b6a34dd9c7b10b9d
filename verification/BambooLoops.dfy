/**
 The loops of the composition utilities, proved to compute the functions of
 BambooUtils.
 */
module BambooLoops {
  import opened Options
  import opened BambooChars
  import opened BambooSpelling
  import opened BambooFlattener
  import opened BambooUtils

  method FilterAppendingComposition(comp: Composition) returns (r: Composition)
    ensures r == FilterAppending(comp)
  {
    r := [];
    for i := 0 to |comp|
      invariant r == FilterAppending(comp[..i])
    {
      assert comp[..i + 1][..i] == comp[..i];
      if comp[i].rule.effectType == Appending {
        r := r + [comp[i]];
      }
    }
    assert comp[..|comp|] == comp;
  }

  method FindLastAppendingTrans(comp: Composition) returns (r: Option<Trans>)
    ensures r == FindLastAppending(comp)
  {
    var i := |comp|;
    assert comp[..|comp|] == comp;
    while i > 0
      invariant 0 <= i <= |comp|
      invariant FindLastAppending(comp) == FindLastAppending(comp[..i])
    {
      assert comp[..i][..i - 1] == comp[..i - 1];
      if comp[i - 1].rule.effectType == Appending {
        return Some(comp[i - 1]);
      }
      i := i - 1;
    }
    return None;
  }

  // Appends to a part the effects of each of its letters.
  method AttachEffects(comp: Composition, transMap: map<nat, Composition>, letters: Composition)
    returns (part: Composition)
    requires forall id :: TargetedAt(comp, id) == if id in transMap then transMap[id] else []
    ensures part == letters + Attached(comp, letters)
  {
    part := letters;
    for i := 0 to |letters|
      invariant part == letters + Attached(comp, letters[..i])
    {
      assert letters[..i + 1][..i] == letters[..i];
      var id := letters[i].id;
      part := part + (if id in transMap then transMap[id] else []);
    }
    assert letters[..|letters|] == letters;
  }

  method ExtractCvc(cs: Charset, comp: Composition)
    returns (fc: Composition, vo: Composition, lc: Composition, voIsNil: bool)
    ensures Cvc(fc, vo, lc, voIsNil) == ExtractCvcTrans(cs, comp)
  {
    var transMap: map<nat, Composition> := map[];
    var appendingList: Composition := [];
    for i := 0 to |comp|
      invariant appendingList == TargetLess(comp[..i])
      invariant forall id :: TargetedAt(comp[..i], id) == if id in transMap then transMap[id] else []
    {
      assert comp[..i + 1][..i] == comp[..i];
      match comp[i].target
      case None => appendingList := appendingList + [comp[i]];
      case Some(id) => transMap := transMap[id := (if id in transMap then transMap[id] else []) + [comp[i]]];
    }
    assert comp[..|comp|] == comp;
    var c := ExtractCvcAppendingTrans(cs, appendingList);
    fc := AttachEffects(comp, transMap, c.fc);
    vo := AttachEffects(comp, transMap, c.vo);
    lc := AttachEffects(comp, transMap, c.lc);
    voIsNil := c.voIsNil;
  }

  method ExtractLastWordLoop(cs: Charset, comp: Composition, keys: seq<char>)
    returns (previous: Composition, last: Composition)
    ensures (previous, last) == ExtractLastWord(cs, comp, keys)
  {
    var i := |comp|;
    while i > 0
      invariant 0 <= i <= |comp|
      invariant LastBreak(cs, comp, keys, |comp|) == LastBreak(cs, comp, keys, i)
    {
      var canvas := Flatten(cs, comp[i - 1..], BASE_LETTERS);
      if canvas != [] && !IsAlpha(canvas[0]) && canvas[0] !in keys {
        return comp[..i], comp[i..];
      }
      i := i - 1;
    }
    return [], comp;
  }

  method ExtractBehindSpaceLoop(cs: Charset, comp: Composition) returns (previous: Composition, last: Composition)
    ensures (previous, last) == ExtractBehindSpace(cs, comp)
  {
    var i := |comp|;
    while i > 0
      invariant 0 <= i <= |comp|
      invariant LastSpace(cs, comp, |comp|) == LastSpace(cs, comp, i)
    {
      var canvas := Flatten(cs, comp[i - 1..], ENGLISH);
      if canvas != [] && canvas[0] == ' ' {
        return comp[..i], comp[i..];
      }
      i := i - 1;
    }
    return [], comp;
  }

  method ExtractLastSyllableLoop(env: Env, comp: Composition) returns (previous: Composition, syllable: Composition)
    ensures (previous, syllable) == ExtractLastSyllable(env, comp)
  {
    hide IsValid, ExtractLastWord;
    var last;
    previous, last := ExtractLastWordLoop(env.cs, comp, []);
    var anchor := 0;
    for i := 0 to |last|
      invariant 0 <= anchor <= i
      invariant anchor == Anchor(env, last, i)
    {
      if !IsValid(env, last[anchor..i + 1], false) {
        anchor := i;
      }
    }
    assert previous + last[..0] == previous;
    if anchor > 0 {
      previous := previous + last[..anchor];
    }
    syllable := last[anchor..];
  }

  method FindMarkTargetLoop(env: Env, comp: Composition, rules: seq<Rule>, nid: nat) returns (r: Option<(nat, Rule)>)
    ensures r == FindMarkTarget(env, comp, rules, |comp|, nid)
  {
    var str := Flatten(env.cs, comp, VIETNAMESE);
    var i := |comp|;
    while i > 0
      invariant 0 <= i <= |comp|
      invariant FindMarkTarget(env, comp, rules, |comp|, nid) == FindMarkTarget(env, comp, rules, i, nid)
    {
      var trans := comp[i - 1];
      var k := 0;
      while k < |rules|
        invariant 0 <= k <= |rules|
        invariant MarkRuleFor(env, comp, trans, rules, nid) == MarkRuleFor(env, comp, trans, rules[k..], nid)
      {
        var rule := rules[k];
        assert rules[k..][1..] == rules[k + 1..];
        if rule.effectType == MarkTransformation && trans.rule.result == rule.effectOn && rule.effect > 0 {
          var candidate := Candidate(nid, rule, Some(RootTarget(trans)));
          var marked := Flatten(env.cs, comp + [candidate], VIETNAMESE);
          if str != marked && IsValid(env, comp + [candidate], false) {
            return Some((RootTarget(trans), rule));
          }
        }
        k := k + 1;
      }
      i := i - 1;
    }
    return None;
  }

  // Undoes the marks a rule could have set, from the last entry to the first.
  method UndoMarksLoop(cs: Charset, comp: Composition, rule: Rule, nid: nat) returns (r: Composition)
    ensures r == UndoMarks(cs, comp, rule, |comp|, nid)
  {
    hide Canvas;
    r := [];
    var str := Flatten(cs, comp, TONELESS_LOWER);
    var i := |comp|;
    while i > 0
      invariant 0 <= i <= |comp|
      invariant r + UndoMarks(cs, comp, rule, i, nid + |r|) == UndoMarks(cs, comp, rule, |comp|, nid)
    {
      var trans := comp[i - 1];
      if trans.rule.result == rule.effectOn {
        var candidate := Candidate(nid + |r|, UNDO_MARK, Some(RootTarget(trans)));
        var undone := Flatten(cs, comp + [candidate], TONELESS_LOWER);
        if str != undone {
          ghost var rest := UndoMarks(cs, comp, rule, i - 1, nid + |r| + 1);
          assert UndoMarks(cs, comp, rule, i, nid + |r|) == [candidate] + rest;
          assert r + ([candidate] + rest) == (r + [candidate]) + rest;
          r := r + [candidate];
        }
      }
      i := i - 1;
    }
  }

  method UndoRuleLoop(cs: Charset, comp: Composition, rule: Rule, flags: Flags, nid: nat) returns (undone: Composition)
    ensures undone == UndoRule(cs, comp, rule, flags, nid)
  {
    hide UndoMarks, ToneTargetFor;
    undone := [];
    if rule.effectType == ToneTransformation {
      var target := ToneTargetFor(cs, comp, rule.effect, flags);
      if target.Some? {
        undone := [Candidate(nid, UNDO_TONE, target)];
      }
    } else if rule.effectType == MarkTransformation {
      undone := UndoMarksLoop(cs, comp, rule, nid);
    }
  }

  method GenerateUndoLoop(cs: Charset, comp: Composition, rules: seq<Rule>, flags: Flags, nid: nat)
    returns (r: Composition)
    ensures r == GenerateUndo(cs, comp, rules, flags, nid)
  {
    hide UndoRule;
    r := [];
    var k := 0;
    while k < |rules|
      invariant 0 <= k <= |rules|
      invariant GenerateUndo(cs, comp, rules, flags, nid) == r + GenerateUndo(cs, comp, rules[k..], flags, nid + |r|)
    {
      assert rules[k..][1..] == rules[k + 1..];
      var undone := UndoRuleLoop(cs, comp, rules[k], flags, nid + |r|);
      ghost var rest := GenerateUndo(cs, comp, rules[k + 1..], flags, nid + |r| + |undone|);
      assert r + (undone + rest) == (r + undone) + rest;
      r := r + undone;
      k := k + 1;
    }
  }

  method BreakCompositionLoop(comp: Composition, nid: nat) returns (result: Composition)
    ensures result == BreakComposition(comp, nid)
  {
    result := [];
    for i := 0 to |comp|
      invariant result == BreakComposition(comp[..i], nid)
    {
      assert comp[..i + 1][..i] == comp[..i];
      if comp[i].rule.key != NUL {
        result := result + [NewAppendingTrans(nid + |result|, comp[i].rule.key, comp[i].isUpperCase)];
      }
    }
    assert comp[..|comp|] == comp;
  }
}
