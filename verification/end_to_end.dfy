/**
 Whole runs of the engine on a caller's bytes, from set_expression to the returned number
 (src/api/engine.cpp), stated without reference to any part of the model in between.
 */
module EndToEnd {
  import opened Words
  import opened Ir
  import opened Layout
  import opened Compiler
  import opened Aggregation
  import opened Table
  import opened Forest
  import opened Chunks
  import opened Engine
  import opened Guarantees
  import opened ParallelRunner
  import opened ParallelEngine
  import Native
  import ScalarCompiler
  import ScalarEngine

  lemma {:induction false} PlanPool(p: Dag, root: nat, skip: set<nat>)
    requires root < |p|
    ensures MakePlan(p, root, skip).p == p
  {
  }

  lemma {:induction false} AtMost<T>(names: seq<T>, s: set<T>)
    requires (forall i, j :: 0 <= i < j < |names| ==> names[i] != names[j]) && forall f :: f in names ==> f in s
    ensures |names| <= |s|
    decreases |names|
  {
    if names != [] {
      var k := |names| - 1;
      AtMost(names[..k], s - {names[k]});
    }
  }

  /** Set an expression that reads a field, and run it both ways. */
  method RunBoth(p: Dag, root: nat, stride: nat, offsets: map<string, nat>, mem: Memory, n: nat, threads: int)
    returns (total: U64, parallel: U64)
    requires root < |p| && Runnable(p, root) && Compile(p, root, ForestSkip(p, root)).Some?
    requires 0 < |FieldsOf(p, root)| <= WORKER_FIELDS && forall f :: f in FieldsOf(p, root) ==> f in offsets
    ensures GoalFits(p, root, GoalOf(p, root)) && parallel == total
    ensures total == Wrap(Total(p, root, GoalOf(p, root), Table(mem, stride, offsets), 0, n))
  {
    hide Runnable, GoalOf, Compile, LogicOk, FieldsOf, Total, RunResult, ConstantTotal, MakePlan, ForestSkip, Wrap;
    PlanPool(p, root, ForestSkip(p, root));
    var engine := new ApexEngine(stride, offsets);
    engine.SetExpression(p, root);
    total := engine.Execute(mem, n);
    parallel := ExecuteParallel(engine, mem, n, threads, 1);
  }

  /** A running sum of what the rows contribute ends at the total. */
  lemma {:induction false} GoalSums(p: Dag, root: nat, goal: Goal, t: Table, n: nat, sums: seq<int>)
    requires GoalFits(p, root, goal) && |sums| > n && sums[0] == 0
    requires forall i: nat :: i < n ==> sums[i + 1] == sums[i] + Contribution(p, root, goal, RowAt(t, i), i % 64 == 0)
    ensures sums[n] == Total(p, root, goal, t, 0, n)
  {
    hide Contribution, RowAt;
    if n > 0 {
      GoalSums(p, root, goal, t, n - 1, sums);
      assert sums[n - 1 + 1] == sums[n];
      assert LaneZero(n - 1) == ((n - 1) % 64 == 0);
    }
  }

  // ----- comparing two fields -----

  /** Node root compares field f with field g. */
  ghost predicate IsComparison(p: Dag, root: nat, l: nat, r: nat, f: string, g: string, cmp: CompareOp) {
    root < |p| && l < root && r < root && p[l].op == Load(f) && p[r].op == Load(g) && p[root].op == Compare(cmp, l, r)
  }

  lemma {:induction false} ComparisonFields(p: Dag, root: nat, l: nat, r: nat, f: string, g: string, cmp: CompareOp)
    requires IsComparison(p, root, l, r, f, g, cmp)
    ensures forall n :: n in Order(p, root) ==> n < |p| && n in {l, r, root}
    ensures l in Order(p, root)
  {
    hide Order;
    OnlyListed(p, root, {l, r, root});
    OrderIsTopological(p, root);
    OperandsListed(p, Order(p, root), root);
    assert l in Children(p[root].op);
  }

  lemma {:induction false} ComparisonReady(p: Dag, root: nat, l: nat, r: nat, f: string, g: string, cmp: CompareOp)
    requires IsComparison(p, root, l, r, f, g, cmp)
    ensures Runnable(p, root) && GoalOf(p, root) == MaskGoal && Compile(p, root, ForestSkip(p, root)).Some?
  {
    FieldComparison(p, root, l, r);
    hide Runnable, GoalOf, Compile, Adders, WellTyped, ForestSkip, Order;
    WellTypedRunnable(p, root);
    ComparisonFields(p, root, l, r, f, g, cmp);
    OrderIsTopological(p, root);
    AtMost(Order(p, root), {l, r, root});
    ListCompiles(p, root, ForestSkip(p, root));
  }

  lemma {:induction false} ComparisonNames(p: Dag, root: nat, l: nat, r: nat, f: string, g: string, cmp: CompareOp)
    requires IsComparison(p, root, l, r, f, g, cmp)
    ensures 0 < |FieldsOf(p, root)| <= 2 && forall x :: x in FieldsOf(p, root) ==> x == f || x == g
  {
    hide AllocAll, FieldNames, Order;
    ComparisonFields(p, root, l, r, f, g, cmp);
    FieldNamesCover(p, Order(p, root));
    AtMost(FieldsOf(p, root), {f, g});
  }

  lemma {:induction false} ComparisonRows(p: Dag, root: nat, l: nat, r: nat, f: string, g: string, cmp: CompareOp,
      t: Table, n: nat)
    returns (rows: set<nat>)
    requires IsComparison(p, root, l, r, f, g, cmp) && f in t.offsets && g in t.offsets
    ensures Total(p, root, MaskGoal, t, 0, n) == |rows| <= n && forall i :: i in rows ==> i < n
    ensures forall i: nat :: i < n ==>
      ComparesAs(cmp, i in rows, t.mem(i * t.stride + t.offsets[f]), t.mem(i * t.stride + t.offsets[g]))
  {
    hide Holds, RowAt, Total;
    rows := MaskRows(p, root, t, n);
    RowsBelow(rows, n);
    forall i: nat | i < n
      ensures ComparesAs(cmp, i in rows, t.mem(i * t.stride + t.offsets[f]), t.mem(i * t.stride + t.offsets[g]))
    {
      ComparisonMeaning(p, root, l, r, RowAt(t, i), i % 64 == 0);
      NumberMeaning(p, l, RowAt(t, i), i % 64 == 0);
      NumberMeaning(p, r, RowAt(t, i), i % 64 == 0);
      FieldAtOffset(t, i, f);
      FieldAtOffset(t, i, g);
    }
  }

  lemma {:induction false} ExactRows(p: Dag, root: nat, l: nat, r: nat, f: string, g: string, cmp: CompareOp,
      t: Table, n: nat)
    returns (rows: set<nat>)
    requires IsComparison(p, root, l, r, f, g, cmp) && f in t.offsets && g in t.offsets
    ensures Matches(p, root, t, n) == |rows| <= n && forall i :: i in rows ==> i < n
    ensures forall i: nat :: i < n ==>
      ComparesAs(cmp, i in rows, t.mem(i * t.stride + t.offsets[f]), t.mem(i * t.stride + t.offsets[g]))
  {
    hide Holds, RowAt, Matches;
    rows := MatchingRows(p, root, t, n);
    RowsBelow(rows, n);
    forall i: nat | i < n
      ensures ComparesAs(cmp, i in rows, t.mem(i * t.stride + t.offsets[f]), t.mem(i * t.stride + t.offsets[g]))
    {
      ComparisonMeaning(p, root, l, r, RowAt(t, i), true);
      NumberMeaning(p, l, RowAt(t, i), true);
      NumberMeaning(p, r, RowAt(t, i), true);
      FieldAtOffset(t, i, f);
      FieldAtOffset(t, i, g);
    }
  }

  lemma {:induction false} RowsBelow(rows: set<nat>, n: nat)
    requires forall i :: i in rows ==> i < n
    ensures |rows| <= n
  {
    if n == 0 {
      assert rows == {};
    } else {
      RowsBelow(rows - {n - 1}, n - 1);
    }
  }

  /** With rows the rows on which field f compares with field g as asked: execute and execute_parallel count them. */
  method CountComparison(p: Dag, root: nat, l: nat, r: nat, f: string, g: string, cmp: CompareOp,
      stride: nat, offsets: map<string, nat>, mem: Memory, n: nat, threads: int, ghost rows: set<nat>)
    returns (total: U64, parallel: U64)
    requires root < |p| && l < root && r < root
    requires p[l].op == Load(f) && p[r].op == Load(g) && p[root].op == Compare(cmp, l, r)
    requires f in offsets && g in offsets && n < 0x1_0000_0000_0000_0000
    requires forall i: nat :: i in rows <==>
      && i < n
      && var a, b := mem(i * stride + offsets[f]), mem(i * stride + offsets[g]);
         (cmp == GT && a > b) || (cmp == LT && a < b) || (cmp == GE && a >= b) || (cmp == LE && a <= b)
         || (cmp == EQ && a == b)
    ensures total == |rows| && parallel == |rows|
  {
    hide Runnable, GoalOf, Compile, FieldsOf, Total, ForestSkip, Wrap;
    ComparisonReady(p, root, l, r, f, g, cmp);
    ComparisonNames(p, root, l, r, f, g, cmp);
    total, parallel := RunBoth(p, root, stride, offsets, mem, n, threads);
    ghost var counted := ComparisonRows(p, root, l, r, f, g, cmp, Table(mem, stride, offsets), n);
    assert rows == counted;
    WrapSmall(|rows|);
  }

  lemma {:induction false} ScalarReady(p: Dag, root: nat, l: nat, r: nat, f: string, g: string, cmp: CompareOp,
      offsets: map<string, nat>)
    requires IsComparison(p, root, l, r, f, g, cmp) && f in offsets && g in offsets
    ensures WellTyped(p, root) && IsMask(p[root].op) && ScalarCompiler.NotFree(p, ScalarCompiler.Core(p, root))
    ensures |Order(p, root)| <= 32768 && (forall i :: i in Order(p, root) ==> i < |p|)
    ensures ScalarCompiler.Nots(p, root) == 0
    ensures |FieldNames(p, Order(p, root))| <= 128 && forall x :: x in FieldNames(p, Order(p, root)) ==> x in offsets
  {
    FieldComparison(p, root, l, r);
    ScalarCompiler.NotFreeComparison(p, root, l, r);
    ScalarCompiler.NotFreeCore(p, root);
    hide Order, WellTyped, ScalarCompiler.NotFree, ScalarCompiler.Core, ScalarCompiler.Nots, FieldNames;
    ComparisonFields(p, root, l, r, f, g, cmp);
    OrderIsTopological(p, root);
    AtMost(Order(p, root), {l, r, root});
    FieldNamesCover(p, Order(p, root));
    NamesBound(p, Order(p, root));
  }

  /** The same count in the scalar mode. */
  method CountScalar(p: Dag, root: nat, l: nat, r: nat, f: string, g: string, cmp: CompareOp,
      stride: nat, offsets: map<string, nat>, mem: Memory, n: nat, ghost rows: set<nat>)
    returns (total: U64)
    requires root < |p| && l < root && r < root
    requires p[l].op == Load(f) && p[r].op == Load(g) && p[root].op == Compare(cmp, l, r)
    requires f in offsets && g in offsets && n < 0x1_0000_0000_0000_0000
    requires forall i: nat :: i in rows <==>
      && i < n
      && var a, b := mem(i * stride + offsets[f]), mem(i * stride + offsets[g]);
         (cmp == GT && a > b) || (cmp == LT && a < b) || (cmp == GE && a >= b) || (cmp == LE && a <= b)
         || (cmp == EQ && a == b)
    ensures total == |rows|
  {
    hide Holds, Value, RowAt, Wrap, WellTyped, Order, FieldNames, Matches;
    hide ScalarCompiler.NotFree, ScalarCompiler.Core, ScalarCompiler.Nots;
    ScalarReady(p, root, l, r, f, g, cmp, offsets);
    total := ScalarEngine.ExecuteScalar(p, root, stride, offsets, mem, n);
    ghost var counted := ExactRows(p, root, l, r, f, g, cmp, Table(mem, stride, offsets), n);
    assert rows == counted;
    WrapSmall(|rows|);
  }

  lemma {:induction false} NativeReady(planes: seq<Word>, blocks: nat, schema: seq<string>, logic: Logic, root: nat,
      offsets: map<string, nat>)
    requires LogicOk(logic, root, offsets) && Planned(logic, root) && |planes| == blocks * |schema| * 64
    requires |FieldsOf(logic.m.plan.p, root)| <= 8 && forall f :: f in FieldsOf(logic.m.plan.p, root) ==> f in schema
    ensures Native.NativeOk(planes, blocks, schema, logic, root)
  {
    hide KernelOk;
  }

  /** The same count on planes that were sliced beforehand, for one or several threads. */
  method CountNative(p: Dag, root: nat, l: nat, r: nat, f: string, g: string, cmp: CompareOp,
      planes: seq<Word>, blocks: nat, schema: seq<string>, threads: nat, ghost t: Table, ghost rows: set<nat>)
    returns (total: U64, parallel: U64)
    requires root < |p| && l < root && r < root
    requires p[l].op == Load(f) && p[r].op == Load(g) && p[root].op == Compare(cmp, l, r)
    requires f in schema && g in schema && blocks * 64 < 0x1_0000_0000_0000_0000 && threads > 0
    requires Native.SlicedFrom(planes, blocks, schema, t) && f in t.offsets && g in t.offsets
    requires forall i: nat :: i in rows <==>
      && i < blocks * 64
      && var a, b := t.mem(i * t.stride + t.offsets[f]), t.mem(i * t.stride + t.offsets[g]);
         (cmp == GT && a > b) || (cmp == LT && a < b) || (cmp == GE && a >= b) || (cmp == LE && a <= b)
         || (cmp == EQ && a == b)
    ensures total == |rows| && parallel == |rows|
  {
    hide Runnable, GoalOf, Compile, LogicOk, FieldsOf, Total, MakePlan, ForestSkip, Wrap, Native.NativeOk;
    ComparisonReady(p, root, l, r, f, g, cmp);
    ComparisonNames(p, root, l, r, f, g, cmp);
    PlanPool(p, root, ForestSkip(p, root));
    var engine := new ApexEngine(0, map[f := 0, g := 0]);
    engine.SetExpression(p, root);
    NativeReady(planes, blocks, schema, engine.logic.value, root, engine.offsets);
    total := Native.ExecuteNative(planes, blocks, schema, engine.logic.value, root);
    parallel := Native.ExecuteNativeParallel(planes, blocks, schema, engine.logic.value, threads, 1, root);
    ghost var counted := ComparisonRows(p, root, l, r, f, g, cmp, t, blocks * 64);
    assert rows == counted;
    WrapSmall(|rows|);
  }

  // ----- adding and subtracting two fields -----

  ghost predicate IsArithmetic(p: Dag, root: nat, l: nat, r: nat, f: string, g: string) {
    && root < |p| && l < root && r < root && p[l].op == Load(f) && p[r].op == Load(g)
    && (p[root].op == Add(l, r) || p[root].op == Sub(l, r))
  }

  lemma {:induction false} ArithmeticReady(p: Dag, root: nat, l: nat, r: nat, f: string, g: string)
    requires IsArithmetic(p, root, l, r, f, g)
    ensures Runnable(p, root) && GoalOf(p, root) == PlaneGoal && Compile(p, root, ForestSkip(p, root)).Some?
  {
    FieldArithmetic(p, root, l, r);
    hide Runnable, GoalOf, Compile, Adders, WellTyped, ForestSkip, Order;
    WellTypedRunnable(p, root);
    OnlyListed(p, root, {l, r, root});
    OrderIsTopological(p, root);
    AtMost(Order(p, root), {l, r, root});
    ListCompiles(p, root, ForestSkip(p, root));
  }

  lemma {:induction false} ArithmeticNames(p: Dag, root: nat, l: nat, r: nat, f: string, g: string)
    requires IsArithmetic(p, root, l, r, f, g)
    ensures 0 < |FieldsOf(p, root)| <= 2 && forall x :: x in FieldsOf(p, root) ==> x == f || x == g
  {
    hide AllocAll, FieldNames, Order;
    OnlyListed(p, root, {l, r, root});
    OrderIsTopological(p, root);
    OperandsListed(p, Order(p, root), root);
    assert l in Children(p[root].op);
    FieldNamesCover(p, Order(p, root));
    AtMost(FieldsOf(p, root), {f, g});
  }

  lemma {:induction false} ArithmeticRow(p: Dag, root: nat, l: nat, r: nat, f: string, g: string, t: Table, i: nat)
    requires IsArithmetic(p, root, l, r, f, g) && f in t.offsets && g in t.offsets
    ensures
      var a, b := t.mem(i * t.stride + t.offsets[f]), t.mem(i * t.stride + t.offsets[g]);
      && (p[root].op == Add(l, r) ==>
            Value(p, root, RowAt(t, i), i % 64 == 0) == (a + b) % 0x1_0000_0000_0000_0000)
      && (p[root].op == Sub(l, r) ==>
            Value(p, root, RowAt(t, i), i % 64 == 0) ==
              (a - b - (if i % 64 == 0 then 0 else 1)) % 0x1_0000_0000_0000_0000)
  {
    hide Value, RowAt;
    NumberMeaning(p, root, RowAt(t, i), i % 64 == 0);
    NumberMeaning(p, l, RowAt(t, i), i % 64 == 0);
    NumberMeaning(p, r, RowAt(t, i), i % 64 == 0);
    FieldAtOffset(t, i, f);
    FieldAtOffset(t, i, g);
  }

  /** With sums the running sums of f + g, or of f - g as lane 0 and the other lanes compute it: the last one. */
  method SumOfTwo(p: Dag, root: nat, l: nat, r: nat, f: string, g: string,
      stride: nat, offsets: map<string, nat>, mem: Memory, n: nat, threads: int, ghost sums: seq<int>)
    returns (total: U64, parallel: U64)
    requires root < |p| && l < root && r < root && p[l].op == Load(f) && p[r].op == Load(g)
    requires p[root].op == Add(l, r) || p[root].op == Sub(l, r)
    requires f in offsets && g in offsets && |sums| == n + 1 && sums[0] == 0
    requires p[root].op == Add(l, r) ==> forall i: nat :: i < n ==>
      sums[i + 1] ==
        sums[i] + (mem(i * stride + offsets[f]) + mem(i * stride + offsets[g])) % 0x1_0000_0000_0000_0000
    requires p[root].op == Sub(l, r) ==> forall i: nat :: i < n ==>
      sums[i + 1] ==
        sums[i]
        + (mem(i * stride + offsets[f]) - mem(i * stride + offsets[g]) - (if i % 64 == 0 then 0 else 1))
          % 0x1_0000_0000_0000_0000
    ensures total == sums[n] % 0x1_0000_0000_0000_0000 && parallel == sums[n] % 0x1_0000_0000_0000_0000
  {
    hide Runnable, GoalOf, Compile, FieldsOf, Total, ForestSkip, Wrap, Value, RowAt;
    ArithmeticReady(p, root, l, r, f, g);
    ArithmeticNames(p, root, l, r, f, g);
    total, parallel := RunBoth(p, root, stride, offsets, mem, n, threads);
    ghost var t := Table(mem, stride, offsets);
    forall i: nat | i < n
      ensures sums[i + 1] == sums[i] + Contribution(p, root, PlaneGoal, RowAt(t, i), i % 64 == 0)
    {
      ArithmeticRow(p, root, l, r, f, g, t, i);
    }
    GoalSums(p, root, PlaneGoal, t, n, sums);
    WrapIsMod(sums[n]);
  }

  // ----- a forest -----

  /** SUM[l > r weighted, SELECT(l < r, thenLeaf, elseLeaf)] + added, by the numbers of its nodes. */
  datatype Nodes = Nodes(
    l: nat, r: nat, mask: nat, cond: nat, thenLeaf: nat, elseLeaf: nat, select: nat, sum: nat, added: nat)

  ghost predicate IsScore(p: Dag, root: nat, at: Nodes, f: string, g: string, whenLess: int, otherwise: int,
      added: int) {
    && root < |p| && at.l < |p| && at.r < |p| && at.mask < |p| && at.cond < |p| && at.thenLeaf < |p|
    && at.elseLeaf < |p| && at.select < |p| && at.sum < |p| && at.added < |p|
    && p[at.l].op == Load(f) && p[at.r].op == Load(g)
    && p[at.mask].op == Compare(GT, at.l, at.r) && p[at.cond].op == Compare(LT, at.l, at.r)
    && p[at.thenLeaf].op == Const(whenLess) && p[at.elseLeaf].op == Const(otherwise)
    && p[at.select].op == Select(at.cond, at.thenLeaf, at.elseLeaf)
    && p[at.sum].op == Sum([at.mask, at.select]) && p[at.added].op == Const(added)
    && p[root].op == Add(at.sum, at.added)
  }

  lemma {:induction false} ScoreOrdered(p: Dag, root: nat, at: Nodes, f: string, g: string, whenLess: int,
      otherwise: int, added: int)
    requires IsScore(p, root, at, f, g, whenLess, otherwise, added)
    ensures at.l < at.mask && at.r < at.mask && at.l < at.cond && at.r < at.cond && at.cond < at.select
    ensures at.thenLeaf < at.select && at.elseLeaf < at.select && at.mask < at.sum && at.select < at.sum
    ensures at.sum < root && at.added < root
  {
    assert at.l in Children(p[at.mask].op) && at.r in Children(p[at.mask].op);
    assert at.l in Children(p[at.cond].op) && at.r in Children(p[at.cond].op);
    assert at.cond in Children(p[at.select].op) && at.thenLeaf in Children(p[at.select].op);
    assert at.elseLeaf in Children(p[at.select].op);
    assert at.mask in Children(p[at.sum].op) && at.select in Children(p[at.sum].op);
    assert at.sum in Children(p[root].op) && at.added in Children(p[root].op);
  }

  lemma {:induction false} ScoreListed(p: Dag, root: nat, at: Nodes, f: string, g: string, whenLess: int,
      otherwise: int, added: int)
    requires IsScore(p, root, at, f, g, whenLess, otherwise, added)
    ensures forall n :: n in Order(p, root) ==> n < |p|
    ensures forall n :: n in Order(p, root) ==>
      n in {root, at.l, at.r, at.mask, at.cond, at.thenLeaf, at.elseLeaf, at.select, at.sum, at.added}
  {
    hide Order;
    OnlyListed(p, root, {root, at.l, at.r, at.mask, at.cond, at.thenLeaf, at.elseLeaf, at.select, at.sum, at.added});
  }

  lemma {:induction false} LeafTyped(p: Dag, n: nat)
    requires n < |p| && p[n].op.Const?
    ensures WellTyped(p, n)
  {
  }

  lemma {:induction false} ChoiceTyped(p: Dag, n: nat, c: nat, l: nat, r: nat)
    requires n < |p| && c < n && l < n && r < n && p[n].op == Select(c, l, r) && IsMask(p[c].op) && WellTyped(p, c)
    requires !IsMask(p[l].op) && WellTyped(p, l) && !IsMask(p[r].op) && WellTyped(p, r)
    ensures WellTyped(p, n)
  {
    assert MaskOperand(p, n, c) && PlaneOperand(p, n, l) && PlaneOperand(p, n, r);
  }

  lemma {:induction false} ScoreTyped(p: Dag, root: nat, at: Nodes, f: string, g: string, whenLess: int,
      otherwise: int, added: int)
    requires IsScore(p, root, at, f, g, whenLess, otherwise, added)
    ensures WellTyped(p, at.mask) && WellTyped(p, at.select)
  {
    ScoreOrdered(p, root, at, f, g, whenLess, otherwise, added);
    FieldComparison(p, at.mask, at.l, at.r);
    FieldComparison(p, at.cond, at.l, at.r);
    hide Adders, WellTyped;
    LeafTyped(p, at.thenLeaf);
    LeafTyped(p, at.elseLeaf);
    ChoiceTyped(p, at.select, at.cond, at.thenLeaf, at.elseLeaf);
  }

  lemma {:induction false} ScoreForest(p: Dag, root: nat, at: Nodes, f: string, g: string, whenLess: int,
      otherwise: int, added: int)
    requires IsScore(p, root, at, f, g, whenLess, otherwise, added)
    ensures IsForest(p, root) && SumNode(p, root) == at.sum && Trees(p, root) == [at.mask, at.select]
    ensures ForestSkip(p, root) == {root, at.sum, at.added, at.select}
  {
    ScoreOrdered(p, root, at, f, g, whenLess, otherwise, added);
    ForestShape(p, root, at.sum, at.added);
  }

  lemma {:induction false} ScoreWellTyped(p: Dag, root: nat, at: Nodes, f: string, g: string, whenLess: int,
      otherwise: int, added: int)
    requires IsScore(p, root, at, f, g, whenLess, otherwise, added)
    ensures IsForest(p, root) && WellTypedForest(p, root)
  {
    ScoreForest(p, root, at, f, g, whenLess, otherwise, added);
    ScoreTyped(p, root, at, f, g, whenLess, otherwise, added);
    ScoreOrdered(p, root, at, f, g, whenLess, otherwise, added);
    ScoreListed(p, root, at, f, g, whenLess, otherwise, added);
    hide Order, IsForest, SumNode, ForestSkip, WellTyped;
  }

  lemma {:induction false} ScoreCompiles(p: Dag, root: nat, at: Nodes, f: string, g: string, whenLess: int,
      otherwise: int, added: int)
    requires IsScore(p, root, at, f, g, whenLess, otherwise, added)
    ensures Compile(p, root, ForestSkip(p, root)).Some?
  {
    hide Order, ForestSkip, Compile;
    ScoreListed(p, root, at, f, g, whenLess, otherwise, added);
    OrderIsTopological(p, root);
    AtMost(Order(p, root),
      {root, at.l, at.r, at.mask, at.cond, at.thenLeaf, at.elseLeaf, at.select, at.sum, at.added});
    ListCompiles(p, root, ForestSkip(p, root));
  }

  lemma {:induction false} ScoreReady(p: Dag, root: nat, at: Nodes, f: string, g: string, whenLess: int,
      otherwise: int, added: int)
    requires IsScore(p, root, at, f, g, whenLess, otherwise, added)
    ensures Runnable(p, root) && IsForest(p, root) && TreesInPool(p, Trees(p, root))
    ensures GoalOf(p, root) == ForestGoalOf(p, root) && Compile(p, root, ForestSkip(p, root)).Some?
  {
    ScoreForest(p, root, at, f, g, whenLess, otherwise, added);
    ScoreWellTyped(p, root, at, f, g, whenLess, otherwise, added);
    ScoreListed(p, root, at, f, g, whenLess, otherwise, added);
    hide Order, IsForest, SumNode, ForestSkip, WellTypedForest, Runnable, GoalOf, Compile, ForestGoalOf, CompiledAdders;
    NoAdders(p, Order(p, root), ForestSkip(p, root));
    TreesListed(p, root);
    ForestRunnable(p, root);
    ScoreCompiles(p, root, at, f, g, whenLess, otherwise, added);
  }

  lemma {:induction false} ScoreNames(p: Dag, root: nat, at: Nodes, f: string, g: string, whenLess: int,
      otherwise: int, added: int)
    requires IsScore(p, root, at, f, g, whenLess, otherwise, added)
    ensures 0 < |FieldsOf(p, root)| <= 2 && forall x :: x in FieldsOf(p, root) ==> x == f || x == g
  {
    hide AllocAll, FieldNames, Order;
    ScoreListed(p, root, at, f, g, whenLess, otherwise, added);
    ScoreLoads(p, root, at, f, g, whenLess, otherwise, added);
    var order := Order(p, root);
    FieldNamesCover(p, order);
    AtMost(FieldsOf(p, root), {f, g});
  }

  lemma {:induction false} ScoreLoads(p: Dag, root: nat, at: Nodes, f: string, g: string, whenLess: int,
      otherwise: int, added: int)
    requires IsScore(p, root, at, f, g, whenLess, otherwise, added)
    ensures at.l in Order(p, root)
  {
    hide Order;
    OrderIsTopological(p, root);
    var order := Order(p, root);
    OperandsListed(p, order, root);
    assert at.sum in Children(p[root].op);
    OperandsListed(p, order, at.sum);
    assert at.mask in Children(p[at.sum].op);
    OperandsListed(p, order, at.mask);
    assert at.l in Children(p[at.mask].op);
  }

  /** What one row scores, from the bytes of its two fields. */
  lemma {:induction false} ScoreRow(p: Dag, root: nat, at: Nodes, f: string, g: string, whenLess: int,
      otherwise: int, added: int, t: Table, i: nat)
    requires IsScore(p, root, at, f, g, whenLess, otherwise, added) && f in t.offsets && g in t.offsets
    requires IsForest(p, root) && TreesInPool(p, Trees(p, root))
    ensures
      var a, b := t.mem(i * t.stride + t.offsets[f]), t.mem(i * t.stride + t.offsets[g]);
      Contribution(p, root, ForestGoalOf(p, root), RowAt(t, i), i % 64 == 0) ==
        added + (if a > b then p[at.mask].weight else 0) + (if a < b then whenLess else otherwise)
  {
    ScoreOrdered(p, root, at, f, g, whenLess, otherwise, added);
    hide RowAt, Holds, Value, ForestGoalOf, Contribution, IsForest, Trees, TreeValue, TreeMask;
    var row, exact := RowAt(t, i), i % 64 == 0;
    var sums := ForestRow(p, root, at.sum, at.added, row, exact);
    assert sums[0 + 1] == sums[0] + TreeValue(p, at.mask, row, exact);
    assert sums[1 + 1] == sums[1] + TreeValue(p, at.select, row, exact);
    LeafOf(p, at.mask, row, exact);
    LeafOf(p, at.select, row, exact);
    ComparisonMeaning(p, at.mask, at.l, at.r, row, exact);
    ComparisonMeaning(p, at.cond, at.l, at.r, row, exact);
    NumberMeaning(p, at.l, row, exact);
    NumberMeaning(p, at.r, row, exact);
    FieldAtOffset(t, i, f);
    FieldAtOffset(t, i, g);
  }

  /** A forest of a weighted mask and a two-leaf tree plus a constant; sums are the running sums of the row scores. */
  method SumOfScores(p: Dag, root: nat, at: Nodes, f: string, g: string, whenLess: int, otherwise: int, added: int,
      stride: nat, offsets: map<string, nat>, mem: Memory, n: nat, threads: int, ghost sums: seq<int>)
    returns (total: U64, parallel: U64)
    requires root < |p| && at.l < |p| && at.r < |p| && at.mask < |p| && at.cond < |p| && at.thenLeaf < |p|
    requires at.elseLeaf < |p| && at.select < |p| && at.sum < |p| && at.added < |p|
    requires p[at.l].op == Load(f) && p[at.r].op == Load(g)
    requires p[at.mask].op == Compare(GT, at.l, at.r) && p[at.cond].op == Compare(LT, at.l, at.r)
    requires p[at.thenLeaf].op == Const(whenLess) && p[at.elseLeaf].op == Const(otherwise)
    requires p[at.select].op == Select(at.cond, at.thenLeaf, at.elseLeaf)
    requires p[at.sum].op == Sum([at.mask, at.select]) && p[at.added].op == Const(added)
    requires p[root].op == Add(at.sum, at.added) && f in offsets && g in offsets
    requires |sums| == n + 1 && sums[0] == 0
    requires forall i: nat :: i < n ==>
      sums[i + 1] ==
        sums[i] + added
        + (if mem(i * stride + offsets[f]) > mem(i * stride + offsets[g]) then p[at.mask].weight else 0)
        + (if mem(i * stride + offsets[f]) < mem(i * stride + offsets[g]) then whenLess else otherwise)
    ensures total == sums[n] % 0x1_0000_0000_0000_0000 && parallel == sums[n] % 0x1_0000_0000_0000_0000
  {
    hide Runnable, GoalOf, Compile, FieldsOf, Total, ForestSkip, Wrap, RowAt, IsForest, Trees, ForestGoalOf,
      Contribution;
    ScoreReady(p, root, at, f, g, whenLess, otherwise, added);
    ScoreNames(p, root, at, f, g, whenLess, otherwise, added);
    total, parallel := RunBoth(p, root, stride, offsets, mem, n, threads);
    ghost var t := Table(mem, stride, offsets);
    forall i: nat | i < n
      ensures sums[i + 1] == sums[i] + Contribution(p, root, ForestGoalOf(p, root), RowAt(t, i), i % 64 == 0)
    {
      ScoreRow(p, root, at, f, g, whenLess, otherwise, added, t, i);
    }
    GoalSums(p, root, ForestGoalOf(p, root), t, n, sums);
    WrapIsMod(sums[n]);
  }
}
