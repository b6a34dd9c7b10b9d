/**
 The one place where the engine writes to a node it has already linked: the tone refresh retargets
 the last tone through its pointer.  Proved, on heap nodes, against the value model of BambooUtils.
 */
module BambooHeap {
  import opened Options
  import opened BambooChars
  import opened BambooFlattener
  import opened BambooUtils
  import opened BambooShape

  class Transformation {
    const id: nat
    const rule: Rule
    const isUpperCase: bool
    var target: Transformation?

    constructor (id: nat, rule: Rule, target: Transformation?, isUpperCase: bool)
      ensures this.id == id && this.rule == rule && this.target == target && this.isUpperCase == isUpperCase
    {
      this.id, this.rule, this.target, this.isUpperCase := id, rule, target, isUpperCase;
    }
  }

  function IdOf(o: Transformation?): Option<nat> {
    if o == null then None else Some(o.id)
  }

  function View(o: Transformation): Trans
    reads o
  {
    Trans(o.id, o.rule, IdOf(o.target), o.isUpperCase)
  }

  function Views(comp: seq<Transformation>): (r: Composition)
    reads comp
    ensures |r| == |comp|
  {
    seq(|comp|, i requires 0 <= i < |comp| reads comp => View(comp[i]))
  }

  // Every pointer stays inside the list.
  ghost predicate Closed(comp: seq<Transformation>)
    reads comp
  {
    forall i :: 0 <= i < |comp| && comp[i].target != null ==> comp[i].target in comp
  }

  lemma IdsAreIdentities(comp: seq<Transformation>, nid: nat)
    requires Distinct(Views(comp), nid)
    ensures forall i, j :: 0 <= i < |comp| && 0 <= j < |comp| && comp[i].id == comp[j].id ==> i == j
  {
    forall i, j | 0 <= i < j < |comp| ensures comp[i].id != comp[j].id {
      assert Views(comp)[i].id != Views(comp)[j].id;
    }
  }

  method GetLastToneTransformation(comp: seq<Transformation>) returns (t: Transformation?)
    ensures t == if LastToneIndex(Views(comp)) == 0 then null else comp[LastToneIndex(Views(comp)) - 1]
  {
    var i := |comp|;
    assert Views(comp)[..|comp|] == Views(comp);
    while i > 0
      invariant 0 <= i <= |comp|
      invariant LastToneIndex(Views(comp)) == LastToneIndex(Views(comp)[..i])
    {
      assert Views(comp)[..i][..i - 1] == Views(comp)[..i - 1];
      if comp[i - 1].rule.effectType == ToneTransformation && comp[i - 1].target != null {
        return comp[i - 1];
      }
      i := i - 1;
    }
    return null;
  }

  // The node a target stands for.
  method NodeOf(comp: seq<Transformation>, id: Option<nat>) returns (o: Transformation?)
    requires id.Some? ==> HasLetter(Views(comp), id.value)
    ensures IdOf(o) == id && (o != null ==> o in comp)
  {
    o := null;
    if id.Some? {
      ghost var x :| x in Views(comp) && x.id == id.value && IsAppending(x);
      ghost var k :| 0 <= k < |comp| && Views(comp)[k] == x;
      for i := 0 to |comp|
        invariant o == null ==> forall j :: 0 <= j < i ==> comp[j].id != id.value
        invariant o != null ==> o in comp && o.id == id.value
      {
        if comp[i].id == id.value {
          o := comp[i];
        }
      }
      assert comp[k].id == id.value;
    }
  }

  // Points one node elsewhere, and makes a virtual reset and a virtual copy that point there too.
  method Retarget(comp: seq<Transformation>, ghost i: nat, node: Transformation, target: Transformation?, nid: nat)
    returns (extra: seq<Transformation>)
    requires i < |comp| && comp[i] == node && Distinct(Views(comp), nid)
    modifies node
    ensures fresh(extra) && |extra| == 2
    ensures Views(comp) == old(Views(comp))[i := old(View(node)).(target := IdOf(target))]
    ensures View(extra[0]) == Candidate(nid, UNDO_TONE, IdOf(target))
    ensures View(extra[1]) == Candidate(nid + 1, node.rule.(key := NUL), IdOf(target))
    ensures node.target == target && extra[0].target == target && extra[1].target == target
  {
    IdsAreIdentities(comp, nid);
    node.target := target;
    var reset := new Transformation(nid, UNDO_TONE, target, false);
    var copy := new Transformation(nid + 1, node.rule.(key := NUL), target, false);
    extra := [reset, copy];
  }

  lemma TwoViews(extra: seq<Transformation>)
    requires |extra| == 2
    ensures Views(extra) == [View(extra[0]), View(extra[1])]
  {
  }

  // Retargets the last tone in place; no other node changes, and the two new nodes point where it points.
  method RefreshLastToneTarget(cs: Charset, keys: seq<char>, comp: seq<Transformation>, std: bool, nid: nat)
    returns (extra: seq<Transformation>)
    requires WellFormed(cs, keys, Views(comp), nid) && Closed(comp)
    modifies comp
    ensures fresh(extra)
    ensures (Views(comp), Views(extra)) == BambooUtils.RefreshLastToneTarget(cs, old(Views(comp)), std, nid)
    ensures Closed(comp) && forall i :: 0 <= i < |extra| && extra[i].target != null ==> extra[i].target in comp
    ensures forall i :: 0 <= i < |comp| && i + 1 != LastToneIndex(old(Views(comp))) ==> unchanged(comp[i])
  {
    hide ExtractCvcTrans, FindToneTarget, EntryOk, View, Distinct, LastToneIndex, Views;
    extra := [];
    assert Views(extra) == [] by { NoViews(); }
    ghost var was := Views(comp);
    var lastTone := GetLastToneTransformation(comp);
    if ExtractCvcTrans(cs, Views(comp)).voIsNil || lastTone == null {
      return;
    }
    ghost var i := LastToneIndex(was) - 1;
    ViewAt(comp, i);
    ToneTargetIsLetter(cs, keys, was, std, nid);
    var newToneTarget := NodeOf(comp, FindToneTarget(cs, Views(comp), std));
    SameNode(comp, lastTone.target, newToneTarget, nid);
    if lastTone.target != newToneTarget {
      OtherNodes(comp, i, nid);
      extra := Retarget(comp, i, lastTone, newToneTarget, nid);
      TwoViews(extra);
    }
  }

  lemma NoViews()
    ensures Views([]) == []
  {
  }

  lemma ViewAt(comp: seq<Transformation>, i: nat)
    requires i < |comp|
    ensures |Views(comp)| == |comp| && Views(comp)[i] == View(comp[i])
    ensures View(comp[i]).rule == comp[i].rule && View(comp[i]).target == IdOf(comp[i].target)
  {
  }

  lemma OtherNodes(comp: seq<Transformation>, i: nat, nid: nat)
    requires Distinct(Views(comp), nid) && i < |comp|
    ensures forall j :: 0 <= j < |comp| && j != i ==> comp[j] != comp[i]
  {
    IdsAreIdentities(comp, nid);
  }

  // Within a list, pointers are equal when the identities are.
  lemma SameNode(comp: seq<Transformation>, a: Transformation?, b: Transformation?, nid: nat)
    requires Distinct(Views(comp), nid) && (a != null ==> a in comp) && (b != null ==> b in comp)
    ensures a == b <==> IdOf(a) == IdOf(b)
  {
    IdsAreIdentities(comp, nid);
  }
}
