/**
 Which expressions the engine runs, and what it then returns: the conditions of
 set_expression and execute in src/api/engine.cpp in terms of the expression alone.
 */
module Guarantees {
  import opened Words
  import opened Machine
  import opened Ir
  import opened Scratchpad
  import opened Layout
  import opened Codegen
  import opened KernelCorrect
  import opened KernelTheorem
  import opened Compiler
  import opened CompilerDriver
  import opened Table
  import opened Forest
  import opened Chunks
  import opened Engine

  // ----- room for every node -----

  /** Nothing at or above slot 64 * c is taken. */
  ghost predicate Below(used: seq<bool>, c: nat) {
    forall j :: 64 * c <= j < |used| ==> !used[j]
  }

  lemma {:induction false} SlotBelow(used: seq<bool>, c: nat)
    requires Below(used, c) && 64 * c < |used|
    ensures FirstFree(used) <= 64 * c
  {
    assert !used[64 * c];
  }

  lemma {:induction false} BlockBelow(used: seq<bool>, c: nat)
    requires Below(used, c) && 64 * c + 64 <= |used|
    ensures FirstBlock(used) <= 64 * c
  {
    hide FirstBlock;
    var b := 64 * c;
    assert b % 64 == 0 && FreeBlock(used, b);
  }

  /** One more node takes at most one more block of 64 slots. */
  lemma {:induction false} NodeFits(p: Dag, i: nat, a: Alloc, c: nat)
    requires i < |p| && a.Alloc? && |a.used| == MAX_SLOTS && Below(a.used, c) && 64 * c + 64 <= MAX_SLOTS
    ensures AllocNode(p, i, a).Alloc? && Below(AllocNode(p, i, a).used, c + 1)
  {
    hide FirstFree, FirstBlock;
    if !IsLeaf(p[i].op) {
      if !IsMask(p[i].op) {
        BlockBelow(a.used, c);
      } else {
        SlotBelow(a.used, c);
        var used := Mark(a.used, FirstFree(a.used), 1);
        if p[i].op.Compare? {
          assert !used[64 * c + 1];
          assert FirstFree(used) <= 64 * c + 1;
        }
      }
    }
  }

  /** First fit packs: n nodes stay below slot 64 * n, so 512 nodes always fit. */
  lemma {:induction false} AllocFits(p: Dag, order: seq<nat>)
    requires (forall n :: n in order ==> n < |p|) && 64 * |order| <= MAX_SLOTS
    ensures AllocAll(p, order).Alloc? && Below(AllocAll(p, order).used, |order|)
    decreases |order|
  {
    if order != [] {
      var front, last := order[..|order| - 1], order[|order| - 1];
      assert (forall n :: n in front ==> n in order) && last in order;
      AllocFits(p, front);
      NodeFits(p, last, AllocAll(p, front), |front|);
    }
  }

  lemma {:induction false} DistinctBound(order: seq<nat>, n: nat)
    requires NoDuplicates(order) && forall x :: x in order ==> x < n
    ensures |order| <= n
    decreases n
  {
    if order != [] {
      assert order[0] in order;
      if n - 1 in order {
        var k :| 0 <= k < |order| && order[k] == n - 1;
        var rest := order[..k] + order[k + 1..];
        forall x | x in rest
          ensures x < n - 1
        {
          var j :| 0 <= j < |rest| && rest[j] == x;
          var i := if j < k then j else j + 1;
          assert order[i] == x && x in order && order[i] != order[k];
        }
        DistinctBound(rest, n - 1);
      } else {
        DistinctBound(order, n - 1);
      }
    }
  }

  lemma {:induction false} NamesBound(p: Dag, order: seq<nat>)
    requires forall n :: n in order ==> n < |p|
    ensures |FieldNames(p, order)| <= |order|
    decreases |order|
  {
    if order != [] {
      var front, last := order[..|order| - 1], order[|order| - 1];
      assert (forall n :: n in front ==> n in order) && last in order;
      NamesBound(p, front);
    }
  }

  /** Compilation never fails on a pool of at most 128 nodes, nor on 512 with at most 128 fields. */
  lemma {:induction false} SmallCompiles(p: Dag, root: nat, skip: set<nat>)
    requires root < |p| && |p| <= 512 && (|p| <= 128 || |FieldsOf(p, root)| <= MAX_FIELDS)
    ensures Compile(p, root, skip).Some?
  {
    OrderIsTopological(p, root);
    DistinctBound(Order(p, root), |p|);
    ListCompiles(p, root, skip);
  }

  /** What counts is what the root reaches, not the size of the pool. */
  lemma {:induction false} ListCompiles(p: Dag, root: nat, skip: set<nat>)
    requires root < |p| && |Order(p, root)| <= 512
    requires |Order(p, root)| <= 128 || |FieldsOf(p, root)| <= MAX_FIELDS
    ensures Compile(p, root, skip).Some?
  {
    OrderIsTopological(p, root);
    AllocFits(p, Order(p, root));
    NamesBound(p, Order(p, root));
  }

  // ----- well-typed expressions -----

  /** A SUM is never part of a well-typed expression. */
  lemma {:induction false} NoForest(p: Dag, root: nat)
    requires root < |p| && WellTyped(p, root)
    ensures !IsForest(p, root)
  {
    if p[root].op.Add? {
      assert PlaneOperand(p, root, p[root].op.left);
      assert WellTyped(p, p[root].op.left);
    }
  }

  lemma {:induction false} WellTypedCompilable(p: Dag, root: nat)
    requires root < |p| && WellTyped(p, root)
    ensures Compilable(p, root, {})
  {
    hide PlanOk, NodeReady, KernelCode, CarriesCover, WellTyped;
    OrderIsTopological(p, root);
    OrderWellTyped(p, root);
    forall n | n in Order(p, root)
      ensures n < |p| && NodeReady(MakePlan(p, root, {}), n)
    {
      OperandsListed(p, Order(p, root), n);
      WellTypedReady(MakePlan(p, root, {}), n);
    }
  }

  /** Every well-typed expression with at most six adders can be set and run. */
  lemma {:induction false} WellTypedRunnable(p: Dag, root: nat)
    requires root < |p| && WellTyped(p, root) && !IsLeaf(p[root].op) && Adders(p, root, {}) <= 6
    ensures Runnable(p, root) && GoalOf(p, root) == if IsMask(p[root].op) then MaskGoal else PlaneGoal
  {
    hide PlanOk, NodeReady, KernelCode, CarriesCover, WellTyped, Compilable, Order, AllocAll, FieldNames;
    hide CompiledAdders;
    NoForest(p, root);
    WellTypedCompilable(p, root);
    OrderIsTopological(p, root);
    if Compile(p, root, {}).Some? {
      WellTypedPlan(p, root);
      SixAddersCovered(p, root);
    }
  }

  // ----- forests -----

  /** Trees are well typed and no tree's SELECT is read by another node. */
  ghost predicate WellTypedForest(p: Dag, root: nat)
    requires root < |p| && IsForest(p, root)
  {
    && !IsMask(p[root].op)
    && (forall i :: 0 <= i < |Trees(p, root)| ==>
          var o := Trees(p, root)[i];
          o < SumNode(p, root) && WellTyped(p, o) && (p[o].op.Select? || IsMask(p[o].op)))
    && (forall n, c :: n in Order(p, root) && n < |p| && n !in ForestSkip(p, root) && c in Children(p[n].op) ==>
          c < |p| && !(c in Trees(p, root) && p[c].op.Select?))
  }

  /** Operands that are well-typed masks or SELECTs, and SELECTs that nothing else reads, are enough. */
  lemma {:induction false} ForestKinds(p: Dag, root: nat, s: nat, c: nat)
    requires root < |p| && s < |p| && c < |p| && p[s].op.Sum?
    requires s == root || (p[root].op == Add(s, c) && s < root && c < root && p[c].op.Const?)
    requires forall o :: o in p[s].op.operands ==>
      && o < |p| && WellTyped(p, o)
      && (p[o].op.Select? || p[o].op.Compare? || p[o].op.And? || p[o].op.Or? || p[o].op.Not?)
    requires forall n, o :: 0 <= n < |p| && n != s && o in Children(p[n].op) && o in p[s].op.operands ==>
      o < |p| && !p[o].op.Select?
    ensures IsForest(p, root) && WellTypedForest(p, root)
  {
    hide WellTyped, Order;
    ForestShape(p, root, s, c);
    OrderIsTopological(p, root);
    forall i | 0 <= i < |p[s].op.operands|
      ensures p[s].op.operands[i] < s
    {
      assert p[s].op.operands[i] in Children(p[s].op);
    }
    assert s in ForestSkip(p, root);
    forall n, o | n in Order(p, root) && n < |p| && n !in ForestSkip(p, root) && o in Children(p[n].op)
      ensures o < |p| && !(o in Trees(p, root) && p[o].op.Select?)
    {
      assert n != s && o < n;
    }
  }

  lemma {:induction false} TreeTyped(p: Dag, o: nat)
    requires o < |p| && WellTyped(p, o) && (p[o].op.Select? || IsMask(p[o].op))
    ensures TreeMask(p, o) <= o && IsMask(p[TreeMask(p, o)].op)
    ensures TreeMask(p, o) == o || TreeMask(p, o) in Children(p[o].op)
  {
    if p[o].op.Select? {
      assert p[o].op.cond in Children(p[o].op);
    }
  }

  lemma {:induction false} TreeListed(p: Dag, root: nat, i: nat)
    requires root < |p| && IsForest(p, root) && WellTypedForest(p, root) && i < |Trees(p, root)|
    ensures
      var o := Trees(p, root)[i];
      o < |p| && TreeMask(p, o) < SumNode(p, root) && IsMask(p[TreeMask(p, o)].op) && TreeMask(p, o) in Order(p, root)
  {
    hide Order, Visit, WellTyped;
    OrderIsTopological(p, root);
    var order, s, o := Order(p, root), SumNode(p, root), Trees(p, root)[i];
    OperandsListed(p, order, root);
    if s != root {
      assert s in Children(p[root].op);
    }
    OperandsListed(p, order, s);
    assert o in Children(p[s].op);
    OperandsListed(p, order, o);
    TreeTyped(p, o);
  }

  lemma {:induction false} TreesListed(p: Dag, root: nat)
    requires root < |p| && IsForest(p, root) && WellTypedForest(p, root)
    ensures TreesInPool(p, Trees(p, root))
  {
    forall i | 0 <= i < |Trees(p, root)|
      ensures Trees(p, root)[i] < |p| && TreeMask(p, Trees(p, root)[i]) < |p|
    {
      TreeListed(p, root, i);
    }
  }

  /** Everything below the SUM is well typed. */
  lemma {:induction false} ForestTyped(p: Dag, root: nat)
    requires root < |p| && IsForest(p, root) && WellTypedForest(p, root)
    ensures forall n :: n in Order(p, root) && n !in ForestSkip(p, root) ==> n < |p| && WellTyped(p, n)
  {
    OrderIsTopological(p, root);
    var s := (set n: nat | n < |p| && WellTyped(p, n)) + {root, SumNode(p, root)};
    forall n, c | n in s && n < |p| && c in Children(p[n].op)
      ensures c in s
    {
      if n == SumNode(p, root) {
        assert c in Trees(p, root);
      } else if n != root {
        OperandWellTyped(p, n, c);
      }
    }
    OrderIsReachable(p, root, s);
  }

  lemma {:induction false} ForestCompilable(p: Dag, root: nat)
    requires root < |p| && IsForest(p, root) && WellTypedForest(p, root)
    ensures Compilable(p, root, ForestSkip(p, root))
  {
    hide NodeReady;
    var u := MakePlan(p, root, ForestSkip(p, root));
    ForestTyped(p, root);
    OrderIsTopological(p, root);
    forall n | n in u.order && n !in u.skip
      ensures n < |p| && NodeReady(u, n)
    {
      OperandsListed(p, u.order, n);
      forall c | c in Children(p[n].op)
        ensures Usable(u, c)
      {
        OperandWellTyped(p, n, c);
      }
      WellTypedReady(u, n);
    }
  }

  /** Every well-typed nonempty forest with at most six adders can be set and run. */
  lemma {:induction false} ForestRunnable(p: Dag, root: nat)
    requires root < |p| && IsForest(p, root) && WellTypedForest(p, root) && Trees(p, root) != []
    requires Adders(p, root, ForestSkip(p, root)) <= 6
    ensures Runnable(p, root) && GoalOf(p, root) == ForestGoalOf(p, root)
  {
    TreesListed(p, root);
    ForestCompilable(p, root);
    if Compile(p, root, ForestSkip(p, root)).Some? {
      ForestSupported(p, root);
    }
  }

  lemma {:induction false} ForestMasks(p: Dag, root: nat)
    requires root < |p| && IsForest(p, root) && WellTypedForest(p, root) && TreesInPool(p, Trees(p, root))
    ensures
      var goal, u := ForestGoalOf(p, root), MakePlan(p, root, ForestSkip(p, root));
      forall i :: 0 <= i < |goal.masks| ==> Compiled(u, goal.masks[i]) && IsMask(u.p[goal.masks[i]].op)
  {
    hide Order, Visit, WellTyped, WellTypedForest, AllocAll, FieldNames;
    var goal, u := ForestGoalOf(p, root), MakePlan(p, root, ForestSkip(p, root));
    forall i | 0 <= i < |goal.masks|
      ensures Compiled(u, goal.masks[i]) && IsMask(u.p[goal.masks[i]].op)
    {
      var o := Trees(p, root)[i];
      assert goal.masks[i] == TreeMask(p, o);
      TreeListed(p, root, i);
      MaskNotSkipped(p, root, TreeMask(p, o));
    }
  }

  lemma {:induction false} MaskNotSkipped(p: Dag, root: nat, m: nat)
    requires root < |p| && IsForest(p, root) && WellTypedForest(p, root) && m < |p| && IsMask(p[m].op)
    ensures m !in ForestSkip(p, root) && !IsLeaf(p[m].op)
  {
  }

  lemma {:induction false} ForestSupported(p: Dag, root: nat)
    requires root < |p| && IsForest(p, root) && WellTypedForest(p, root) && Trees(p, root) != []
    requires Adders(p, root, ForestSkip(p, root)) <= 6
    requires TreesInPool(p, Trees(p, root)) && Compilable(p, root, ForestSkip(p, root))
    requires Compile(p, root, ForestSkip(p, root)).Some?
    ensures Supported(MakePlan(p, root, ForestSkip(p, root)), root, ForestGoalOf(p, root))
  {
    hide PlanOk, Compilable, NodeReady, KernelCode, WellTypedForest, Order, AllocAll, FieldNames;
    hide CompiledAdders, CarriesNeeded, CarriesCover;
    var skip := ForestSkip(p, root);
    var u := MakePlan(p, root, skip);
    CompilablePlan(p, root, skip);
    OrderIsTopological(p, root);
    AllocAllSound(p, u.order);
    ForestMasks(p, root);
    ForestAdders(p, root);
    CoveredExactly(p, root, skip);
  }

  /** Of the nodes that the compiler skips only the root ADD is an adder, and it is listed last. */
  lemma {:induction false} ForestAdders(p: Dag, root: nat)
    requires root < |p| && IsForest(p, root) && forall n :: n in Order(p, root) ==> n < |p|
    ensures Adders(p, root, ForestSkip(p, root)) == CarriesNeeded(p, Order(p, root), ForestSkip(p, root))
  {
    hide CompiledAdders, CarriesNeeded;
    OrderIsTopological(p, root);
    var order := Order(p, root);
    forall n | n in order[..|order| - 1] && n < |p| && IsAdder(p[n].op)
      ensures n !in ForestSkip(p, root)
    {
      assert n != root;
    }
    AllButLastCompiled(p, order, ForestSkip(p, root));
  }

  /** The kernel of a well-typed forest is defined exactly when its trees have no more than six ADD and SUB nodes. */
  lemma {:induction false} ForestSixAdders(p: Dag, root: nat, k: Kernel, rows: Chunk, s: State)
    requires root < |p| && IsForest(p, root) && WellTypedForest(p, root)
    requires Compile(p, root, ForestSkip(p, root)) == Some(k) && Entered(k.plan, rows, s)
    ensures Exec(k.code, s).Run? <==> Adders(p, root, ForestSkip(p, root)) <= 6
  {
    hide PlanOk, Entered, CarriesNeeded, CompiledAdders, KernelCode, Compilable, WellTypedForest;
    OrderIsTopological(p, root);
    ForestCompilable(p, root);
    CompilablePlan(p, root, ForestSkip(p, root));
    ForestAdders(p, root);
    DefinedExactly(p, root, ForestSkip(p, root), k, rows, s);
  }

  // ----- what the total means -----

  /** What execute returns on a mask root without SUB is the number of rows that satisfy it. */
  lemma {:induction false} CountsExactly(p: Dag, root: nat, t: Table, n: nat)
    requires root < |p| && SubFree(p, root) && n < TWO64
    ensures Wrap(Total(p, root, MaskGoal, t, 0, n)) == Matches(p, root, t, n)
  {
    hide Total, Matches;
    ExactTotals(p, root, t, n);
    MatchesBound(p, root, t, n);
  }

  /** What execute returns on a forest, row by row: the constant plus the leaf each tree chooses. */
  function ForestRows(p: Dag, root: nat, t: Table, n: nat): int
    requires root < |p| && IsForest(p, root) && TreesInPool(p, Trees(p, root))
  {
    if n == 0 then 0
    else
      ForestRows(p, root, t, n - 1) + AddedConstant(p, root) +
        TreesValue(p, Trees(p, root), RowAt(t, n - 1), LaneZero(n - 1))
  }

  lemma {:induction false} ForestTotals(p: Dag, root: nat, t: Table, n: nat)
    requires root < |p| && IsForest(p, root) && TreesInPool(p, Trees(p, root))
    ensures Total(p, root, ForestGoalOf(p, root), t, 0, n) == ForestRows(p, root, t, n)
  {
    hide Contribution, LaneZero, TreesValue, ForestGoalOf, AddedConstant;
    if n > 0 {
      ForestTotals(p, root, t, n - 1);
      ForestMeaning(p, root, RowAt(t, n - 1), LaneZero(n - 1));
    }
  }

  // ----- SUB -----

  /** 1 - 0 > 0 holds on every row, but the engine counts one row per block of 64. */
  lemma {:induction false} SubMiscounts(p: Dag, t: Table, n: nat)
    requires p == [Node(Const(1), 0), Node(Const(0), 0), Node(Sub(0, 1), 0), Node(Compare(GT, 2, 1), 0)]
    ensures Matches(p, 3, t, n) == n && Total(p, 3, MaskGoal, t, 0, n) == LaneZeroRows(n)
  {
    if n > 0 {
      SubMiscounts(p, t, n - 1);
      SubOnRow(p, RowAt(t, n - 1));
    }
  }

  lemma {:induction false} SubOnRow(p: Dag, row: Row)
    requires p == [Node(Const(1), 0), Node(Const(0), 0), Node(Sub(0, 1), 0), Node(Compare(GT, 2, 1), 0)]
    ensures Holds(p, 3, row, true) && !Holds(p, 3, row, false)
  {
    assert p[0].op == Const(1) && p[1].op == Const(0) && p[2].op == Sub(0, 1) && p[3].op == Compare(GT, 2, 1);
    assert Value(p, 0, row, true) == 1 && Value(p, 1, row, true) == 0 && Value(p, 0, row, false) == 1 &&
      Value(p, 1, row, false) == 0;
    assert Value(p, 2, row, true) == 1 && Value(p, 2, row, false) == 0;
  }
}
