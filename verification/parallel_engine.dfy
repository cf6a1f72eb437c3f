/**
 execute_parallel against execute (src/api/engine.cpp): the same total for every row
 count and every number of threads, except that expressions without fields count 0.
 */
module ParallelEngine {
  import opened Words
  import opened Ir
  import opened Layout
  import opened Codegen
  import opened KernelTheorem
  import opened Compiler
  import opened Forest
  import opened Table
  import opened ComparisonKernel
  import opened Chunks
  import opened Engine
  import opened Guarantees
  import opened ParallelRunner

  // ----- expressions without fields -----

  predicate LoadFree(p: Dag, i: nat)
    requires i < |p|
    decreases i
  {
    !p[i].op.Load? && forall c | c in Children(p[i].op) :: LoadFree(p, c)
  }

  /** Without LOADs a node is a constant. */
  lemma {:induction false} LoadFreeConstant(p: Dag, i: nat, row: Row, row': Row, exact: bool)
    requires i < |p| && LoadFree(p, i)
    ensures Value(p, i, row, exact) == Value(p, i, row', exact)
    ensures Holds(p, i, row, exact) == Holds(p, i, row', exact)
    decreases i
  {
    forall c | c in Children(p[i].op)
      ensures c < i
      ensures Value(p, c, row, exact) == Value(p, c, row', exact)
      ensures Holds(p, c, row, exact) == Holds(p, c, row', exact)
    {
      LoadFreeConstant(p, c, row, row', exact);
    }
    match p[i].op
    case Select(c, l, r) =>
      assert l in Children(p[i].op) && r in Children(p[i].op) && c in Children(p[i].op);
    case Compare(_, l, r) =>
      assert l in Children(p[i].op) && r in Children(p[i].op);
    case Add(l, r) =>
      assert l in Children(p[i].op) && r in Children(p[i].op);
    case Sub(l, r) =>
      assert l in Children(p[i].op) && r in Children(p[i].op);
    case And(l, r) =>
      assert l in Children(p[i].op) && r in Children(p[i].op);
    case Or(l, r) =>
      assert l in Children(p[i].op) && r in Children(p[i].op);
    case Not(l) =>
      assert l in Children(p[i].op);
    case _ =>
  }

  lemma {:induction false} ListedLoadFree(p: Dag, order: seq<nat>, i: nat)
    requires TopoOrder(p, order) && i in order && FieldNames(p, order) == []
    ensures i < |p| && LoadFree(p, i)
    decreases i
  {
    FieldNamesCover(p, order);
    OperandsListed(p, order, i);
    forall c | c in Children(p[i].op)
      ensures c < i && LoadFree(p, c)
    {
      ListedLoadFree(p, order, c);
    }
  }

  lemma {:induction false} NoFieldsNoLoads(p: Dag, root: nat)
    requires root < |p| && FieldsOf(p, root) == []
    ensures LoadFree(p, root)
  {
    OrderIsTopological(p, root);
    assert root in Order(p, root);
    ListedLoadFree(p, Order(p, root), root);
  }

  function NoValues(): Row {
    (f: string) => 0
  }

  /** What a row adds when no field is read. */
  ghost function Constant(p: Dag, root: nat, goal: Goal, exact: bool): int
    requires GoalFits(p, root, goal)
  {
    Contribution(p, root, goal, NoValues(), exact)
  }

  /** The total of n rows when no field is read: one value in lane 0 of each block, another in all other lanes. */
  ghost function ConstantTotal(p: Dag, root: nat, goal: Goal, n: nat): int
    requires GoalFits(p, root, goal)
  {
    LaneZeroRows(n) * Constant(p, root, goal, true) + (n - LaneZeroRows(n)) * Constant(p, root, goal, false)
  }

  ghost predicate GoalLoadFree(p: Dag, root: nat, goal: Goal)
    requires GoalFits(p, root, goal)
  {
    LoadFree(p, root) && (goal.ForestGoal? ==> forall i :: 0 <= i < |goal.masks| ==> LoadFree(p, goal.masks[i]))
  }

  lemma {:induction false} DeltasConstant(p: Dag, deltas: seq<int>, masks: seq<nat>, row: Row, exact: bool)
    requires |deltas| == |masks| && forall i :: 0 <= i < |masks| ==> masks[i] < |p| && LoadFree(p, masks[i])
    ensures DeltaSum(p, deltas, masks, row, exact) == DeltaSum(p, deltas, masks, NoValues(), exact)
    decreases |masks|
  {
    hide Holds, LoadFree;
    if masks != [] {
      var k := |masks| - 1;
      DeltasConstant(p, deltas[..k], masks[..k], row, exact);
      LoadFreeConstant(p, masks[k], row, NoValues(), exact);
    }
  }

  lemma {:induction false} RowConstant(p: Dag, root: nat, goal: Goal, row: Row, exact: bool)
    requires GoalFits(p, root, goal) && GoalLoadFree(p, root, goal)
    ensures Contribution(p, root, goal, row, exact) == Constant(p, root, goal, exact)
  {
    hide Holds, Value, DeltaSum, LoadFree;
    LoadFreeConstant(p, root, row, NoValues(), exact);
    if goal.ForestGoal? {
      DeltasConstant(p, goal.deltas, goal.masks, row, exact);
    }
  }

  lemma {:induction false} OneMore(a: int, x: int)
    ensures (a + 1) * x == a * x + x
  {
  }

  lemma {:induction false} TotalIsConstant(p: Dag, root: nat, goal: Goal, t: Table, n: nat)
    requires GoalFits(p, root, goal) && GoalLoadFree(p, root, goal)
    ensures Total(p, root, goal, t, 0, n) == ConstantTotal(p, root, goal, n)
  {
    hide GoalFits, GoalLoadFree, Contribution, LaneZero, Constant;
    if n > 0 {
      TotalIsConstant(p, root, goal, t, n - 1);
      RowConstant(p, root, goal, RowAt(t, n - 1), LaneZero(n - 1));
      var k := LaneZeroRows(n - 1);
      OneMore(k, Constant(p, root, goal, true));
      OneMore(n - 1 - k, Constant(p, root, goal, false));
    }
  }

  /** Without fields nothing that the goal reads loads one. */
  lemma {:induction false} NoFieldsLoadFree(logic: Logic, root: nat, offsets: map<string, nat>)
    requires LogicOk(logic, root, offsets) && Planned(logic, root) && FieldsOf(logic.m.plan.p, root) == []
    ensures GoalFits(logic.m.plan.p, root, logic.goal) && GoalLoadFree(logic.m.plan.p, root, logic.goal)
  {
    hide LoadFree, PlanOk, KernelCode;
    LogicFits(logic, root, offsets);
    var u := logic.m.plan;
    OrderIsTopological(u.p, root);
    NoFieldsNoLoads(u.p, root);
    if logic.goal.ForestGoal? {
      forall i | 0 <= i < |logic.goal.masks|
        ensures LoadFree(u.p, logic.goal.masks[i])
      {
        assert Compiled(u, logic.goal.masks[i]);
        ListedLoadFree(u.p, u.order, logic.goal.masks[i]);
      }
    }
  }

  /**
   For every expression the engine runs, execute_parallel returns what execute returns exactly when the
   expression reads a field or its constant total is 0 modulo 2^64.
   */
  lemma {:induction false} ParallelAgreesExactly(logic: Logic, root: nat, t: Table, n: nat)
    requires LogicOk(logic, root, t.offsets) && Planned(logic, root)
    ensures GoalFits(logic.m.plan.p, root, logic.goal)
    ensures RunResult(logic, root, t, n) == Wrap(Total(logic.m.plan.p, root, logic.goal, t, 0, n))
      <==> FieldsOf(logic.m.plan.p, root) != [] || Wrap(ConstantTotal(logic.m.plan.p, root, logic.goal, n)) == 0
  {
    hide LogicOk, GoalFits, GoalLoadFree, Wrap, Total, ConstantTotal, FieldsOf;
    LogicFits(logic, root, t.offsets);
    if FieldsOf(logic.m.plan.p, root) == [] {
      NoFieldsLoadFree(logic, root, t.offsets);
      TotalIsConstant(logic.m.plan.p, root, logic.goal, t, n);
    }
  }

  lemma {:induction false} Shares(k: nat, n: nat, x: int)
    requires k <= n
    ensures k * x + (n - k) * x == n * x
  {
  }

  /** A mask without SUB and without fields is right in parallel exactly when it is false. */
  lemma {:induction false} MaskAgreesExactly(logic: Logic, root: nat, t: Table, n: nat)
    requires LogicOk(logic, root, t.offsets) && Planned(logic, root) && logic.goal == MaskGoal
    requires SubFree(logic.m.plan.p, root) && 0 < n < TWO64
    ensures RunResult(logic, root, t, n) == Wrap(Total(logic.m.plan.p, root, MaskGoal, t, 0, n))
      <==> FieldsOf(logic.m.plan.p, root) != [] || !Holds(logic.m.plan.p, root, NoValues(), true)
  {
    hide LogicOk, Total, FieldsOf, Holds, RunResult, SubFree, Planned;
    ParallelAgreesExactly(logic, root, t, n);
    var p := logic.m.plan.p;
    SubFreeIsExact(p, root, NoValues());
    var x := Constant(p, root, MaskGoal, true);
    assert x == Constant(p, root, MaskGoal, false);
    Shares(LaneZeroRows(n), n, x);
    assert ConstantTotal(p, root, MaskGoal, n) == n * x;
  }

  // ----- the parallel entry -----

  /** execute_parallel on an engine whose logic fits a worker. */
  method ExecuteParallel(engine: ApexEngine, mem: Memory, rowCount: nat, threads: int, defaultThreads: int)
    returns (total: U64)
    requires engine.Valid() && (engine.logic.Some? ==> |engine.logic.value.fields| <= WORKER_FIELDS)
    modifies engine.bufs
    ensures engine.logic.None? && engine.single.None? ==> total == 0
    ensures engine.logic.None? && engine.single.Some? ==>
      total == Wrap(Above(mem, engine.stride, engine.single.value.offset, engine.single.value.threshold, rowCount))
    ensures engine.logic.Some? ==>
      var logic, root, t := engine.logic.value, engine.root, Table(mem, engine.stride, engine.offsets);
      && GoalFits(logic.m.plan.p, root, logic.goal) && root < |logic.m.plan.p|
      && total == RunResult(logic, root, t, rowCount)
    ensures engine.logic.Some? ==>
      var logic, root, t := engine.logic.value, engine.root, Table(mem, engine.stride, engine.offsets);
      total == Wrap(Total(logic.m.plan.p, root, logic.goal, t, 0, rowCount))
      <==> FieldsOf(logic.m.plan.p, root) != [] || Wrap(ConstantTotal(logic.m.plan.p, root, logic.goal, rowCount)) == 0
  {
    hide LogicOk, Wrap, Total, FieldsOf, ConstantTotal, RunResult;
    var n := if threads <= 0 then defaultThreads else threads;
    if engine.logic.None? {
      total := engine.Execute(mem, rowCount);
      return;
    }
    ghost var t := Table(mem, engine.stride, engine.offsets);
    total := Run(mem, engine.stride, rowCount, n, engine.logic.value, engine.root, t);
    ParallelAgreesExactly(engine.logic.value, engine.root, t, rowCount);
  }

  // ----- 1 > 0 -----

  function OneAboveZero(): Dag {
    [Node(Const(1), 0), Node(Const(0), 0), Node(Compare(GT, 0, 1), 0)]
  }

  lemma {:induction false} OneAboveZeroTyped()
    ensures WellTyped(OneAboveZero(), 2) && SubFree(OneAboveZero(), 2) && Holds(OneAboveZero(), 2, NoValues(), true)
    ensures forall n: nat :: n < 3 ==> !OneAboveZero()[n].op.Load? && !IsAdder(OneAboveZero()[n].op)
  {
    var p := OneAboveZero();
    assert p[2].op == Compare(GT, 0, 1) && p[0].op == Const(1) && p[1].op == Const(0);
    assert Children(p[0].op) == [] && Children(p[1].op) == [];
    assert WellTyped(p, 0) && WellTyped(p, 1) && SubFree(p, 0) && SubFree(p, 1);
    assert Value(p, 0, NoValues(), true) == 1 && Value(p, 1, NoValues(), true) == 0;
  }

  lemma {:induction false} HasFirst(names: seq<string>)
    ensures names == [] || exists f :: f in names
  {
    assert names == [] || names[0] in names;
  }

  lemma {:induction false} NoLoadsNoFields(p: Dag, root: nat)
    requires root < |p| && forall n: nat :: n < |p| ==> !p[n].op.Load?
    ensures FieldsOf(p, root) == []
  {
    OrderIsTopological(p, root);
    FieldNamesCover(p, Order(p, root));
    HasFirst(FieldsOf(p, root));
  }

  /** 1 > 0 can be set and run and reads no field: execute counts all rows, execute_parallel none. */
  lemma {:induction false} OneAboveZeroCounts(logic: Logic, t: Table, n: nat)
    requires LogicOk(logic, 2, t.offsets) && Planned(logic, 2) && logic.m.plan.p == OneAboveZero()
    requires logic.goal == MaskGoal
    requires 0 < n < TWO64
    ensures FieldsOf(OneAboveZero(), 2) == []
    ensures RunResult(logic, 2, t, n) == 0 && Wrap(Total(OneAboveZero(), 2, MaskGoal, t, 0, n)) == n
  {
    hide LogicOk, Holds, Value, WellTyped, SubFree, FieldsOf, Total;
    var p := OneAboveZero();
    OneAboveZeroTyped();
    NoLoadsNoFields(p, 2);
    NoFieldsLoadFree(logic, 2, t.offsets);
    TotalIsConstant(p, 2, MaskGoal, t, n);
    SubFreeIsExact(p, 2, NoValues());
    Shares(LaneZeroRows(n), n, 1);
    assert ConstantTotal(p, 2, MaskGoal, n) == n;
  }

  lemma {:induction false} OneAboveZeroRuns()
    ensures Runnable(OneAboveZero(), 2) && GoalOf(OneAboveZero(), 2) == MaskGoal
    ensures Compile(OneAboveZero(), 2, ForestSkip(OneAboveZero(), 2)).Some?
  {
    hide Runnable, Compile, WellTyped, SubFree, Holds;
    var p := OneAboveZero();
    OneAboveZeroTyped();
    OrderIsTopological(p, 2);
    NoAdders(p, Order(p, 2), {});
    WellTypedRunnable(p, 2);
    SmallCompiles(p, 2, ForestSkip(p, 2));
  }
}
