/**
 Decision forests: a SUM of weighted masks and of SELECTs, optionally plus a constant
 (the metadata extraction of set_expression in src/api/engine.cpp).
 */
module Forest {
  import opened Words
  import opened Ir
  import opened Table

  /** The SUM behind an optional `+ constant`. */
  function SumNode(p: Dag, root: nat): nat
    requires root < |p|
  {
    var op := p[root].op;
    if op.Add? && op.left < root && op.right < root && p[op.left].op.Sum? && p[op.right].op.Const? then op.left
    else root
  }

  predicate IsForest(p: Dag, root: nat)
    requires root < |p|
  {
    SumNode(p, root) < |p| && p[SumNode(p, root)].op.Sum?
  }

  function Trees(p: Dag, root: nat): seq<nat>
    requires root < |p| && IsForest(p, root)
  {
    p[SumNode(p, root)].op.operands
  }

  /** Nodes that the engine evaluates itself. */
  function ForestSkip(p: Dag, root: nat): set<nat>
    requires root < |p|
  {
    if !IsForest(p, root) then {}
    else
      {root, SumNode(p, root)} + (if SumNode(p, root) != root then {p[root].op.right} else {})
      + (set o | o in Trees(p, root) && o < |p| && p[o].op.Select?)
  }

  predicate ConstNode(p: Dag, n: nat) {
    n < |p| && p[n].op.Const?
  }

  /** The value of a tree when its mask holds: its left constant, or the node's weight. */
  function TrueLeaf(p: Dag, o: nat): int
    requires o < |p|
  {
    if p[o].op.Select? && ConstNode(p, p[o].op.left) then p[p[o].op.left].op.value else p[o].weight
  }

  /** The value of a tree when its mask does not hold: its right constant, or 0. */
  function FalseLeaf(p: Dag, o: nat): int
    requires o < |p|
  {
    if p[o].op.Select? && ConstNode(p, p[o].op.right) then p[p[o].op.right].op.value else 0
  }

  /** The node whose mask decides a tree. */
  function TreeMask(p: Dag, o: nat): nat
    requires o < |p|
  {
    if p[o].op.Select? then p[o].op.cond else o
  }

  predicate TreesInPool(p: Dag, trees: seq<nat>) {
    forall i :: 0 <= i < |trees| ==> trees[i] < |p| && TreeMask(p, trees[i]) < |p|
  }

  // ----- row by row -----

  function TreeValue(p: Dag, o: nat, row: Row, exact: bool): int
    requires o < |p| && TreeMask(p, o) < |p|
  {
    if Holds(p, TreeMask(p, o), row, exact) then TrueLeaf(p, o) else FalseLeaf(p, o)
  }

  /** The sum of the chosen leaves of all trees on one row. */
  function TreesValue(p: Dag, trees: seq<nat>, row: Row, exact: bool): int
    requires TreesInPool(p, trees)
  {
    if trees == [] then 0
    else
      var k := |trees| - 1;
      TreesValue(p, trees[..k], row, exact) + TreeValue(p, trees[k], row, exact)
  }

  function AddedConstant(p: Dag, root: nat): int
    requires root < |p| && IsForest(p, root)
  {
    if SumNode(p, root) != root then p[p[root].op.right].op.value else 0
  }

  // ----- the engine's metadata -----

  datatype Metadata = Metadata(base: int, deltas: seq<int>, masks: seq<nat>)

  function MetadataOf(p: Dag, trees: seq<nat>, start: int): (m: Metadata)
    requires TreesInPool(p, trees)
    ensures |m.deltas| == |m.masks| == |trees|
    ensures forall i :: 0 <= i < |trees| ==> m.masks[i] == TreeMask(p, trees[i])
  {
    if trees == [] then Metadata(start, [], [])
    else
      var k := |trees| - 1;
      var m := MetadataOf(p, trees[..k], start);
      var o := trees[k];
      Metadata(m.base + FalseLeaf(p, o), m.deltas + [TrueLeaf(p, o) - FalseLeaf(p, o)], m.masks + [TreeMask(p, o)])
  }

  /** The loop of set_expression over the operands of the SUM. */
  method ExtractMetadata(p: Dag, trees: seq<nat>, start: int) returns (m: Metadata)
    requires TreesInPool(p, trees)
    ensures m == MetadataOf(p, trees, start)
  {
    var base, deltas, masks := start, [], [];
    var k := 0;
    while k < |trees|
      invariant 0 <= k <= |trees| && TreesInPool(p, trees[..k])
      invariant Metadata(base, deltas, masks) == MetadataOf(p, trees[..k], start)
    {
      var o := trees[k];
      assert trees[..k + 1][..k] == trees[..k];
      if p[o].op.Select? {
        masks := masks + [p[o].op.cond];
        var right := 0;
        if ConstNode(p, p[o].op.right) {
          right := p[p[o].op.right].op.value;
        }
        base := base + right;
        if ConstNode(p, p[o].op.left) {
          deltas := deltas + [p[p[o].op.left].op.value - right];
        } else {
          deltas := deltas + [p[o].weight - right];
        }
      } else {
        masks := masks + [o];
        deltas := deltas + [p[o].weight];
      }
      k := k + 1;
    }
    assert trees[..k] == trees;
    m := Metadata(base, deltas, masks);
  }

  function ForestGoalOf(p: Dag, root: nat): Goal
    requires root < |p| && IsForest(p, root) && TreesInPool(p, Trees(p, root))
  {
    var m := MetadataOf(p, Trees(p, root), AddedConstant(p, root));
    ForestGoal(m.base, m.deltas, m.masks)
  }

  lemma {:induction false} DeltaSumSnoc(p: Dag, deltas: seq<int>, masks: seq<nat>, d: int, m: nat, row: Row,
      exact: bool)
    requires |deltas| == |masks| && m < |p| && forall i :: 0 <= i < |masks| ==> masks[i] < |p|
    ensures DeltaSum(p, deltas + [d], masks + [m], row, exact) ==
            DeltaSum(p, deltas, masks, row, exact) + if Holds(p, m, row, exact) then d else 0
  {
    assert (deltas + [d])[..|deltas|] == deltas && (masks + [m])[..|masks|] == masks;
  }

  lemma {:induction false} MetadataMeaning(p: Dag, trees: seq<nat>, start: int, row: Row, exact: bool)
    requires TreesInPool(p, trees)
    ensures
      var m := MetadataOf(p, trees, start);
      m.base + DeltaSum(p, m.deltas, m.masks, row, exact) == start + TreesValue(p, trees, row, exact)
    decreases |trees|
  {
    if trees != [] {
      var k := |trees| - 1;
      MetadataMeaning(p, trees[..k], start, row, exact);
      var m, o := MetadataOf(p, trees[..k], start), trees[k];
      DeltaSumSnoc(p, m.deltas, m.masks, TrueLeaf(p, o) - FalseLeaf(p, o), TreeMask(p, o), row, exact);
    }
  }

  /** Base plus deltas is, on every row, the constant plus the chosen leaves. */
  lemma {:induction false} ForestMeaning(p: Dag, root: nat, row: Row, exact: bool)
    requires root < |p| && IsForest(p, root) && TreesInPool(p, Trees(p, root))
    ensures Contribution(p, root, ForestGoalOf(p, root), row, exact) ==
            AddedConstant(p, root) + TreesValue(p, Trees(p, root), row, exact)
  {
    MetadataMeaning(p, Trees(p, root), AddedConstant(p, root), row, exact);
  }

  /** With constant leaves a tree is the SELECT it was built as, modulo 2^64. */
  lemma {:induction false} ConstantTree(p: Dag, o: nat, row: Row, exact: bool)
    requires o < |p| && p[o].op.Select? && p[o].op.cond < |p| && ConstNode(p, p[o].op.left)
    requires ConstNode(p, p[o].op.right)
    ensures Wrap(TreeValue(p, o, row, exact)) == Value(p, o, row, exact)
  {
    var l, r := p[o].op.left, p[o].op.right;
    assert l in Children(p[o].op) && r in Children(p[o].op) && p[o].op.cond in Children(p[o].op);
    assert Value(p, l, row, exact) == Wrap(p[l].op.value) && Value(p, r, row, exact) == Wrap(p[r].op.value);
  }

  // ----- forests in terms of their nodes -----

  /** A SUM, or a SUM plus a constant, is a forest. */
  lemma {:induction false} ForestShape(p: Dag, root: nat, s: nat, c: nat)
    requires root < |p| && s < |p| && c < |p| && p[s].op.Sum?
    requires s == root || (p[root].op == Add(s, c) && s < root && c < root && p[c].op.Const?)
    ensures IsForest(p, root) && SumNode(p, root) == s && Trees(p, root) == p[s].op.operands
    ensures TreesInPool(p, Trees(p, root))
    ensures AddedConstant(p, root) == if s == root then 0 else p[c].op.value
  {
    forall i | 0 <= i < |p[s].op.operands|
      ensures p[s].op.operands[i] < |p| && TreeMask(p, p[s].op.operands[i]) < |p|
    {
      var o := p[s].op.operands[i];
      assert o in Children(p[s].op);
      if p[o].op.Select? {
        assert p[o].op.cond in Children(p[o].op);
      }
    }
  }

  /** Nothing else is. */
  lemma {:induction false} NotAForest(p: Dag, root: nat)
    requires root < |p| && !p[root].op.Sum?
    requires p[root].op.Add? && p[root].op.left < |p| && p[root].op.right < |p| ==>
      !p[p[root].op.left].op.Sum? || !p[p[root].op.right].op.Const?
    ensures !IsForest(p, root)
  {
  }

  /**
   What one operand of the SUM adds on a row, from its node: a weighted mask its weight where it holds; a SELECT
   the constant it chooses, where a left leaf that is no constant counts as the weight and a right one as 0.
   */
  lemma {:induction false} LeafOf(p: Dag, o: nat, row: Row, exact: bool)
    requires o < |p|
    ensures p[o].op.Select? ==> p[o].op.cond < o && p[o].op.left < o && p[o].op.right < o
    ensures TreeMask(p, o) < |p|
    ensures TreeValue(p, o, row, exact) ==
           if p[o].op.Select? then
             (if Holds(p, p[o].op.cond, row, exact)
              then (if p[p[o].op.left].op.Const? then p[p[o].op.left].op.value else p[o].weight)
              else (if p[p[o].op.right].op.Const? then p[p[o].op.right].op.value else 0))
           else if Holds(p, o, row, exact) then p[o].weight else 0
  {
    hide Holds;
    if p[o].op.Select? {
      assert p[o].op.cond in Children(p[o].op) && p[o].op.left in Children(p[o].op) &&
        p[o].op.right in Children(p[o].op);
    }
  }

  /** What a forest adds on a row: the constant behind the SUM, then what every operand adds. */
  lemma {:induction false} ForestRow(p: Dag, root: nat, s: nat, c: nat, row: Row, exact: bool) returns (sums: seq<int>)
    requires root < |p| && s < |p| && c < |p| && p[s].op.Sum?
    requires s == root || (p[root].op == Add(s, c) && s < root && c < root && p[c].op.Const?)
    ensures IsForest(p, root) && TreesInPool(p, Trees(p, root))
    ensures |sums| == |p[s].op.operands| + 1 && sums[0] == if s == root then 0 else p[c].op.value
    ensures forall k :: 0 <= k < |p[s].op.operands| ==>
      && p[s].op.operands[k] < |p| && TreeMask(p, p[s].op.operands[k]) < |p|
      && sums[k + 1] == sums[k] + TreeValue(p, p[s].op.operands[k], row, exact)
    ensures Contribution(p, root, ForestGoalOf(p, root), row, exact) == sums[|p[s].op.operands|]
  {
    hide Holds, TreeValue, TreeMask, ForestGoalOf, Contribution, TreesValue;
    ForestShape(p, root, s, c);
    ForestMeaning(p, root, row, exact);
    sums := LeafSums(p, Trees(p, root), AddedConstant(p, root), row, exact);
  }

  lemma {:induction false} LeafSums(p: Dag, trees: seq<nat>, start: int, row: Row, exact: bool) returns (sums: seq<int>)
    requires TreesInPool(p, trees)
    ensures |sums| == |trees| + 1 && sums[0] == start && sums[|trees|] == start + TreesValue(p, trees, row, exact)
    ensures forall k :: 0 <= k < |trees| ==> sums[k + 1] == sums[k] + TreeValue(p, trees[k], row, exact)
    decreases |trees|
  {
    hide TreeValue;
    if trees == [] {
      sums := [start];
    } else {
      var k := |trees| - 1;
      var front := LeafSums(p, trees[..k], start, row, exact);
      sums := front + [front[k] + TreeValue(p, trees[k], row, exact)];
      forall j | 0 <= j < |trees|
        ensures sums[j + 1] == sums[j] + TreeValue(p, trees[j], row, exact)
      {
        if j < k {
          assert front[j + 1] == front[j] + TreeValue(p, trees[..k][j], row, exact);
        }
      }
    }
  }
}
