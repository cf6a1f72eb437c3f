/**
 The engine: setting an expression and running it over a table in blocks of 64 rows
 (set_expression, process_chunk_expr and execute in src/api/engine.cpp).
 */
module Engine {
  import opened Words
  import opened Machine
  import opened Ir
  import opened Scratchpad
  import opened Codegen
  import opened KernelCorrect
  import opened KernelTheorem
  import opened Compiler
  import opened CompilerDriver
  import opened Aggregation
  import opened Table
  import opened Gather
  import opened ComparisonKernel
  import opened Chunks
  import opened Forest

  // ----- a chunk's result is its part of the total -----

  /** Within a block only its first row is in lane 0. */
  lemma {:induction false} LaneOf(g: nat, r: nat)
    requires LaneZero(g) && r < 64
    ensures LaneZero(g + r) <==> r == 0
  {
  }

  lemma {:induction false} MaskTotal(p: Dag, root: nat, t: Table, g: nat, n: nat, x0: Word)
    requires root < |p| && n <= 64 && LaneZero(g)
    requires forall r: nat :: r < n ==> (r in x0 <==> Holds(p, root, RowAt(t, g + r), r == 0))
    ensures CountIn(x0, n) == Total(p, root, MaskGoal, t, g, n)
    decreases n
  {
    if n > 0 {
      hide Holds, RowAt, LaneZero;
      MaskTotal(p, root, t, g, n - 1, x0);
      LaneOf(g, n - 1);
      assert n - 1 in x0 <==> Holds(p, root, RowAt(t, g + (n - 1)), n - 1 == 0);
      assert g + n - 1 == g + (n - 1);
    }
  }

  lemma {:induction false} PlaneTotal(p: Dag, root: nat, t: Table, g: nat, n: nat, c: Column)
    requires root < |p| && n <= 64 && LaneZero(g) && ColumnIs(c, p, root, t, g, n)
    ensures SumTo(c, n) == Total(p, root, PlaneGoal, t, g, n)
    decreases n
  {
    if n > 0 {
      hide Value, RowAt, LaneZero;
      PlaneTotal(p, root, t, g, n - 1, c);
      LaneOf(g, n - 1);
      assert g + n - 1 == g + (n - 1);
    }
  }

  lemma {:induction false} LaneDeltas(p: Dag, deltas: seq<int>, nodes: seq<nat>, words: seq<Word>, row: Row,
      exact: bool, r: nat)
    requires |words| == |nodes| == |deltas| && forall i :: 0 <= i < |nodes| ==> nodes[i] < |p|
    requires forall i :: 0 <= i < |nodes| ==> (r in words[i] <==> Holds(p, nodes[i], row, exact))
    ensures LaneDelta(words, deltas, r) == DeltaSum(p, deltas, nodes, row, exact)
    decreases |nodes|
  {
    if nodes != [] {
      var k := |nodes| - 1;
      LaneDeltas(p, deltas[..k], nodes[..k], words[..k], row, exact, r);
    }
  }

  ghost predicate WordsAre(p: Dag, nodes: seq<nat>, words: seq<Word>, t: Table, g: nat, n: nat)
    requires |words| == |nodes| && forall i :: 0 <= i < |nodes| ==> nodes[i] < |p|
  {
    forall i, r: nat {:trigger r in words[i]} :: 0 <= i < |nodes| && r < n ==>
      (r in words[i] <==> Holds(p, nodes[i], RowAt(t, g + r), r == 0))
  }

  lemma {:induction false} ForestTotal(p: Dag, root: nat, base: int, deltas: seq<int>, nodes: seq<nat>,
      words: seq<Word>, t: Table, g: nat, n: nat)
    requires GoalFits(p, root, ForestGoal(base, deltas, nodes)) && |words| == |nodes| && n <= 64 && LaneZero(g)
    requires WordsAre(p, nodes, words, t, g, n)
    ensures ForestSum(base, words, deltas, n) == Total(p, root, ForestGoal(base, deltas, nodes), t, g, n)
    decreases n
  {
    if n > 0 {
      hide Holds, RowAt, LaneZero, DeltaSum, LaneDelta;
      ForestTotal(p, root, base, deltas, nodes, words, t, g, n - 1);
      var r := n - 1;
      LaneOf(g, r);
      LaneDeltas(p, deltas, nodes, words, RowAt(t, g + r), r == 0, r);
      assert g + n - 1 == g + r;
    }
  }

  lemma {:induction false} BlockStart(chunk: nat)
    ensures LaneZero(chunk * 64)
  {
  }

  /** Adding the next n rows to a running total. */
  lemma {:induction false} TotalStep(p: Dag, root: nat, goal: Goal, t: Table, done: nat, n: nat, before: U64,
      after: U64)
    requires GoalFits(p, root, goal) && before == Wrap(Total(p, root, goal, t, 0, done))
    requires after == Wrap(before + Total(p, root, goal, t, done, n))
    ensures after == Wrap(Total(p, root, goal, t, 0, done + n))
  {
    hide Total, Wrap;
    TotalSplit(p, root, goal, t, 0, done, n);
    WrapAdd(Total(p, root, goal, t, 0, done), Total(p, root, goal, t, done, n));
  }

  /** Reduce what a kernel left for n rows and add it to the running total. */
  method Reduce(logic: Logic, x0: Word, scratch: seq<Word>, n: nat, total: U64, ghost root: nat, ghost t: Table,
      ghost g: nat)
    returns (r: U64)
    requires n <= 64 && LaneZero(g) && GoalFits(logic.m.plan.p, root, logic.goal)
    requires ChunkResult(logic, root, t, g, n, x0, scratch)
    ensures r == Wrap(total + Total(logic.m.plan.p, root, logic.goal, t, g, n))
  {
    hide Total, Holds, Value, RowAt, LaneZero, ForestSum, PlaneSum, SumTo, CountIn, Wrap;
    ghost var p := logic.m.plan.p;
    match logic.goal {
      case MaskGoal =>
        CountLanes(x0, n);
        MaskTotal(p, root, t, g, n, x0);
        r := Wrap(total + |x0 * LowLanes(n)|);
      case ForestGoal(base, deltas, masks) =>
        ghost var words := MasksAt(scratch, logic.slots);
        ForestTotal(p, root, base, deltas, masks, words, t, g, n);
        var sum := AggregateForest(scratch, n, base, deltas, logic.slots);
        WrapAdd(ForestSum(base, words, deltas, n), total);
        r := Wrap(total + sum);
      case PlaneGoal =>
        ghost var c: Column :| HoldsPlanes(scratch, 0, c) && ColumnIs(c, p, root, t, g, n);
        PlanesSum(c, scratch, n);
        PlaneTotal(p, root, t, g, n, c);
        r := AggregatePlanes(scratch, n, total);
    }
  }

  /** A zeroed scratchpad. */
  method ZeroScratch(size: nat) returns (s: seq<Word>)
    ensures |s| == size && forall i :: 0 <= i < |s| ==> s[i] == {}
  {
    s := [];
    while |s| < size
      invariant |s| <= size && forall i :: 0 <= i < |s| ==> s[i] == {}
    {
      s := s + [{}];
    }
  }

  lemma {:induction false} LogicFits(logic: Logic, root: nat, offsets: map<string, nat>)
    requires LogicOk(logic, root, offsets)
    ensures |logic.fields| <= MAX_FIELDS && GoalFits(logic.m.plan.p, root, logic.goal)
  {
  }

  /** Gathered and sliced fields in, the chunk's result out. */
  lemma {:induction false} ChunkCorrect(logic: Logic, root: nat, t: Table, g: nat, n: nat, planes: seq<seq<Word>>,
      raws: seq<seq<Word>>, s: State)
    requires LogicOk(logic, root, t.offsets) && n <= 64 && |planes| == |raws| == |logic.fields|
    requires forall k :: 0 <= k < |logic.fields| ==>
      FieldSliced(planes[k], raws[k], t.mem, g * t.stride, t.stride, logic.fields[k], n)
    requires s.Run? && s.fields == planes && |s.scratch| >= MAX_SLOTS
    requires s.regs[0] == P(FieldTable, 0) && s.regs[1] == P(Scratch, 0)
    ensures
      var out := ExecStream(logic.m.instrs, s);
      && out.Run? && out.regs[0].W? && |out.scratch| == |s.scratch|
      && ChunkResult(logic, root, t, g, n, out.regs[0].w, out.scratch)
  {
    hide PlanOk, KernelCode, FieldSliced, ChunkResult;
    ChunkFieldsOk(logic.m.plan, t, g, n, logic.fields, planes, raws);
    KernelOnChunk(logic, root, t, g, n, ChunkRows(t, g, n, logic.m.plan.names, raws), s);
  }

  /** process_chunk_expr: gather, slice, call the kernel. Registers and flags hold anything. */
  method ProcessChunk(mem: Memory, stride: nat, g: nat, n: nat, logic: Logic, bufs: seq<Buffer>, scratch: seq<Word>,
                      ghost root: nat, ghost t: Table)
    returns (x0: Word, left: seq<Word>)
    requires BuffersOk(bufs) && |bufs| == MAX_FIELDS && n <= 64 && t.mem == mem && t.stride == stride
    requires LogicOk(logic, root, t.offsets)
    requires |scratch| >= MAX_SLOTS
    modifies bufs
    ensures ChunkResult(logic, root, t, g, n, x0, left) && |left| == |scratch|
  {
    hide LogicOk, ChunkResult, FieldSliced;
    LogicFits(logic, root, t.offsets);
    var planes: seq<seq<Word>>;
    ghost var raws: seq<seq<Word>>;
    planes, raws := SliceFields(mem, g * stride, stride, n, logic.fields, bufs);
    var junk, flags := CallerRegisters();
    var s := Entry(junk, flags, planes, scratch);
    ChunkCorrect(logic, root, t, g, n, planes, raws, s);
    var out := ExecStream(logic.m.instrs, s);
    x0, left := out.regs[0].w, out.scratch;
  }

  // ----- one result per row -----

  /** What execute_vector reports for row g: its contribution, as int64. */
  ghost function RowResult(p: Dag, root: nat, goal: Goal, t: Table, g: nat): int
    requires GoalFits(p, root, goal)
  {
    Signed(Wrap(Contribution(p, root, goal, RowAt(t, g), LaneZero(g))))
  }

  method Zeros(n: nat) returns (rows: seq<real>)
    ensures |rows| == n && forall i :: 0 <= i < n ==> rows[i] == 0.0
  {
    rows := [];
    while |rows| < n
      invariant |rows| <= n && forall i :: 0 <= i < |rows| ==> rows[i] == 0.0
    {
      rows := rows + [0.0];
    }
  }

  /** Truth values are reported as they are, sums divided by the precision. */
  function Scale(goal: Goal, precision: real): (s: real)
    requires precision != 0.0
    ensures s != 0.0
  {
    if goal.MaskGoal? then 1.0 else precision
  }

  function Divided(v: int, s: real): real
    requires s != 0.0
  {
    v as real / s
  }

  ghost predicate Reported(p: Dag, root: nat, goal: Goal, t: Table, precision: real, g: nat, v: real)
    requires GoalFits(p, root, goal) && precision != 0.0
  {
    v == Divided(RowResult(p, root, goal, t, g), Scale(goal, precision))
  }

  ghost predicate RowsAre(p: Dag, root: nat, goal: Goal, t: Table, precision: real, rows: seq<real>)
    requires GoalFits(p, root, goal) && precision != 0.0
  {
    forall g: nat :: g < |rows| ==> Reported(p, root, goal, t, precision, g, rows[g])
  }

  lemma {:induction false} MoreRows(p: Dag, root: nat, goal: Goal, t: Table, precision: real, rows: seq<real>,
      more: seq<real>)
    requires GoalFits(p, root, goal) && precision != 0.0 && RowsAre(p, root, goal, t, precision, rows)
    requires forall r: nat :: r < |more| ==> Reported(p, root, goal, t, precision, |rows| + r, more[r])
    ensures RowsAre(p, root, goal, t, precision, rows + more)
  {
    hide Reported, GoalFits;
    forall g: nat | g < |rows + more|
      ensures Reported(p, root, goal, t, precision, g, (rows + more)[g])
    {
      if g >= |rows| {
        var r := g - |rows|;
        assert (rows + more)[g] == more[r] && g == |rows| + r;
      }
    }
  }

  /** The int64 result of lane r of a chunk. */
  method LaneResult(logic: Logic, x0: Word, scratch: seq<Word>, n: nat, r: nat, ghost root: nat, ghost t: Table,
      ghost g: nat)
    returns (v: int)
    requires r < n <= 64 && LaneZero(g) && GoalFits(logic.m.plan.p, root, logic.goal)
    requires ChunkResult(logic, root, t, g, n, x0, scratch)
    ensures v == RowResult(logic.m.plan.p, root, logic.goal, t, g + r)
  {
    LaneOf(g, r);
    ghost var p := logic.m.plan.p;
    match logic.goal {
      case MaskGoal =>
        v := if r in x0 then 1 else 0;
      case ForestGoal(base, deltas, masks) =>
        hide Holds, Value, RowAt, LaneZero, Wrap, MasksAt;
        ghost var words := MasksAt(scratch, logic.slots);
        LaneDeltas(p, deltas, masks, words, RowAt(t, g + r), r == 0, r);
        var sum := RowSum(scratch, r, base, deltas, logic.slots);
        v := Signed(sum);
      case PlaneGoal =>
        ghost var c: Column :| HoldsPlanes(scratch, 0, c) && ColumnIs(c, p, root, t, g, n);
        assert c[r] == Value(p, root, RowAt(t, g + r), r == 0);
        hide Holds, Value, RowAt, LaneZero;
        var value := RowValue(scratch, r, c);
        v := Signed(value);
    }
  }

  method ChunkRowResults(logic: Logic, x0: Word, scratch: seq<Word>, n: nat, precision: real,
                         ghost root: nat, ghost t: Table, ghost g: nat)
    returns (rows: seq<real>)
    requires n <= 64 && LaneZero(g) && GoalFits(logic.m.plan.p, root, logic.goal) && precision != 0.0
    requires ChunkResult(logic, root, t, g, n, x0, scratch)
    ensures |rows| == n
    ensures forall r: nat :: r < n ==> Reported(logic.m.plan.p, root, logic.goal, t, precision, g + r, rows[r])
  {
    hide ChunkResult, GoalFits, LaneZero, RowResult;
    rows := [];
    while |rows| < n
      invariant |rows| <= n
      invariant forall r: nat :: r < |rows| ==> Reported(logic.m.plan.p, root, logic.goal, t, precision, g + r, rows[r])
    {
      var v := LaneResult(logic, x0, scratch, n, |rows|, root, t, g);
      rows := rows + [Divided(v, Scale(logic.goal, precision))];
    }
  }

  function SumReals(rows: seq<real>): real {
    if rows == [] then 0.0 else SumReals(rows[..|rows| - 1]) + rows[|rows| - 1]
  }

  function Scaled(a: real, s: real): real {
    a * s
  }

  lemma {:induction false} Unscaled(a: real, v: int, s: real)
    requires s != 0.0
    ensures Scaled(a + Divided(v, s), s) == Scaled(a, s) + v as real
  {
    assert Divided(v, s) * s == v as real;
  }

  /** The int64 results of the first n rows. */
  ghost function SumRows(p: Dag, root: nat, goal: Goal, t: Table, n: nat): int
    requires GoalFits(p, root, goal)
  {
    if n == 0 then 0 else SumRows(p, root, goal, t, n - 1) + RowResult(p, root, goal, t, n - 1)
  }

  lemma {:induction false} RowsSumToTotal(p: Dag, root: nat, goal: Goal, t: Table, n: nat)
    requires GoalFits(p, root, goal)
    ensures Wrap(SumRows(p, root, goal, t, n)) == Wrap(Total(p, root, goal, t, 0, n))
  {
    if n > 0 {
      hide Wrap, Contribution, LaneZero, Signed, GoalFits;
      var k := n - 1;
      RowsSumToTotal(p, root, goal, t, k);
      var x := Contribution(p, root, goal, RowAt(t, k), LaneZero(k));
      SignedWraps(Wrap(x));
      WrapSum(SumRows(p, root, goal, t, k), Total(p, root, goal, t, 0, k), Signed(Wrap(x)), x);
    }
  }

  lemma {:induction false} VectorScaled(p: Dag, root: nat, goal: Goal, t: Table, precision: real, rows: seq<real>)
    requires GoalFits(p, root, goal) && precision != 0.0 && RowsAre(p, root, goal, t, precision, rows)
    ensures Scaled(SumReals(rows), Scale(goal, precision)) == SumRows(p, root, goal, t, |rows|) as real
    decreases |rows|
  {
    if rows != [] {
      hide RowResult, GoalFits, Scale, Scaled, Divided;
      var k := |rows| - 1;
      VectorScaled(p, root, goal, t, precision, rows[..k]);
      assert Reported(p, root, goal, t, precision, k, rows[k]);
      Unscaled(SumReals(rows[..k]), RowResult(p, root, goal, t, k), Scale(goal, precision));
    }
  }

  /** The per-row results, multiplied back, add up to a number that execute returns modulo 2^64. */
  lemma {:induction false} VectorSumsToTotal(p: Dag, root: nat, goal: Goal, t: Table, precision: real, rows: seq<real>)
    returns (sum: int)
    requires GoalFits(p, root, goal) && precision != 0.0 && RowsAre(p, root, goal, t, precision, rows)
    ensures Scaled(SumReals(rows), Scale(goal, precision)) == sum as real
    ensures Wrap(sum) == Wrap(Total(p, root, goal, t, 0, |rows|))
  {
    hide Wrap, Total, GoalFits, Scale, Scaled, SumReals, SumRows, RowsAre;
    sum := SumRows(p, root, goal, t, |rows|);
    VectorScaled(p, root, goal, t, precision, rows);
    RowsSumToTotal(p, root, goal, t, |rows|);
  }

  /** A truth value is reported as 1 or 0, everything else as its signed 64-bit number over the precision. */
  lemma {:induction false} VectorRow(p: Dag, root: nat, goal: Goal, t: Table, precision: real, g: nat, v: real)
    returns (x: int)
    requires GoalFits(p, root, goal) && precision != 0.0 && Reported(p, root, goal, t, precision, g, v)
    ensures goal == MaskGoal ==> v == if Holds(p, root, RowAt(t, g), g % 64 == 0) then 1.0 else 0.0
    ensures goal != MaskGoal ==>
      && v == x as real / precision && -0x8000_0000_0000_0000 <= x < 0x8000_0000_0000_0000
      && Wrap(x) == Wrap(Contribution(p, root, goal, RowAt(t, g), g % 64 == 0))
  {
    hide Holds, Value, DeltaSum, RowAt;
    x := RowResult(p, root, goal, t, g);
    SignedWraps(Wrap(Contribution(p, root, goal, RowAt(t, g), LaneZero(g))));
  }

  // ----- the engine object -----

  /** The offset of each compiled field, NoField where the schema has none of that name. */
  function FieldAt(names: seq<string>, offsets: map<string, nat>, k: nat): Offset {
    if k < |names| && names[k] in offsets then At(offsets[names[k]]) else NoField
  }

  ghost predicate FieldsCollected(fields: seq<Offset>, names: seq<string>, offsets: map<string, nat>) {
    && |fields| <= MAX_FIELDS
    && (forall k: nat :: k < |fields| ==> fields[k] == FieldAt(names, offsets, k))
    && (forall k: nat :: k >= |fields| ==> FieldAt(names, offsets, k) == NoField)
  }

  /** Field descriptors in kernel order, cut after the last one found. */
  method CollectFields(names: seq<string>, offsets: map<string, nat>) returns (fields: seq<Offset>)
    requires |names| <= MAX_FIELDS
    ensures FieldsCollected(fields, names, offsets)
    ensures (forall f :: f in names ==> f in offsets) ==> |fields| == |names|
  {
    var found: seq<Offset> := [];
    var maxIdx := 0;
    var i := 0;
    while i < |names|
      invariant 0 <= i <= |names| && |found| == i && maxIdx <= i
      invariant forall k: nat :: k < i ==> found[k] == FieldAt(names, offsets, k)
      invariant forall k: nat :: maxIdx <= k < i ==> found[k] == NoField
      invariant (forall f :: f in names ==> f in offsets) ==> maxIdx == i
    {
      if names[i] in offsets {
        found := found + [At(offsets[names[i]])];
        maxIdx := i + 1;
      } else {
        found := found + [NoField];
      }
      i := i + 1;
    }
    fields := found[..maxIdx];
    forall k: nat | k >= |fields|
      ensures FieldAt(names, offsets, k) == NoField
    {
      if k < |names| {
        assert found[k] == FieldAt(names, offsets, k);
      }
    }
  }

  /** Which aggregation a compiled root is given. */
  predicate UsesForest(p: Dag, root: nat)
    requires root < |p|
  {
    !IsMask(p[root].op) && IsForest(p, root) && Trees(p, root) != []
  }

  ghost function GoalOf(p: Dag, root: nat): Goal
    requires root < |p| && (IsForest(p, root) ==> TreesInPool(p, Trees(p, root)))
  {
    if IsMask(p[root].op) then MaskGoal
    else if UsesForest(p, root) then ForestGoalOf(p, root)
    else PlaneGoal
  }

  function SlotsOf(u: Plan, nodes: seq<nat>): (s: seq<int>)
    ensures |s| == |nodes| && forall i :: 0 <= i < |s| ==> s[i] == SlotOf(u, nodes[i])
  {
    if nodes == [] then [] else SlotsOf(u, nodes[..|nodes| - 1]) + [SlotOf(u, nodes[|nodes| - 1])]
  }

  /** An expression the engine is meant to run: its plan leaves what its goal needs. */
  ghost predicate Runnable(p: Dag, root: nat) {
    && root < |p| && (IsForest(p, root) ==> TreesInPool(p, Trees(p, root)))
    && Compilable(p, root, ForestSkip(p, root))
    && (Compile(p, root, ForestSkip(p, root)).Some? ==>
          Supported(MakePlan(p, root, ForestSkip(p, root)), root, GoalOf(p, root)))
  }

  ghost function FieldsOf(p: Dag, root: nat): seq<string>
    requires root < |p|
  {
    MakePlan(p, root, {}).names
  }

  lemma {:induction false} KernelPlan(p: Dag, root: nat, skip: set<nat>)
    requires root < |p| && Compile(p, root, skip).Some?
    ensures Compile(p, root, skip).value.plan == MakePlan(p, root, skip)
    ensures |MakePlan(p, root, skip).names| <= MAX_FIELDS && !MakePlan(p, root, skip).a.Failed?
    ensures MakePlan(p, root, skip).names == FieldsOf(p, root)
    ensures InPool(MakePlan(p, root, skip))
    ensures Compile(p, root, skip).value.code == KernelCode(MakePlan(p, root, skip), root)
  {
    OrderIsTopological(p, root);
  }

  /** Mask roots are counted, forests weighted, everything else summed. */
  method MakeGoal(p: Dag, root: nat, u: Plan) returns (goal: Goal, slots: seq<int>)
    requires root < |p| && (IsForest(p, root) ==> TreesInPool(p, Trees(p, root)))
    ensures goal == GoalOf(p, root)
    ensures goal.ForestGoal? ==> slots == SlotsOf(u, goal.masks)
  {
    goal, slots := PlaneGoal, [];
    if IsMask(p[root].op) {
      goal := MaskGoal;
    } else if UsesForest(p, root) {
      var data := ExtractMetadata(p, Trees(p, root), AddedConstant(p, root));
      goal := ForestGoal(data.base, data.deltas, data.masks);
      slots := SlotsOf(u, data.masks);
    }
  }

  lemma {:induction false} LogicBuilt(p: Dag, root: nat, offsets: map<string, nat>, m: Machined, fields: seq<Offset>,
      goal: Goal, slots: seq<int>)
    requires Runnable(p, root) && Compile(p, root, ForestSkip(p, root)).Some?
    requires forall f :: f in FieldsOf(p, root) ==> f in offsets
    requires m.plan == MakePlan(p, root, ForestSkip(p, root)) && InPool(m.plan)
    requires m.instrs == Stream(KernelCode(m.plan, root))
    requires FieldsCollected(fields, m.plan.names, offsets) && |fields| == |m.plan.names|
    requires goal == GoalOf(p, root) && (goal.ForestGoal? ==> slots == SlotsOf(m.plan, goal.masks))
    ensures LogicOk(Logic(m, fields, goal, slots), root, offsets)
  {
    hide PlanOk, KernelCode, GoalOf, Compilable, CarriesCover, InPool;
    forall k | 0 <= k < |fields|
      ensures m.plan.names[k] in offsets && fields[k] == At(offsets[m.plan.names[k]])
    {
      assert m.plan.names[k] in FieldsOf(p, root);
      assert fields[k] == FieldAt(m.plan.names, offsets, k);
    }
  }

  /** The plan is the one that compiling the stored expression makes, and every field of it has a descriptor. */
  ghost predicate Planned(logic: Logic, root: nat) {
    var u := logic.m.plan;
    root < |u.p| && u == MakePlan(u.p, root, u.skip) && |logic.fields| == |FieldsOf(u.p, root)|
  }

  /** The logic of set_logic: one field against one threshold. */
  datatype Single = Single(offset: nat, threshold: U64, kernel: seq<Instr>)

  class ApexEngine {
    const bufs: seq<Buffer>
    const stride: nat
    const offsets: map<string, nat>
    var logic: Option<Logic>
    var single: Option<Single>
    ghost var root: nat

    constructor (stride: nat, offsets: map<string, nat>)
      ensures Valid() && logic == None && single == None && this.stride == stride && this.offsets == offsets
      ensures forall i :: 0 <= i < |bufs| ==> fresh(bufs[i])
    {
      var buffers := NewBuffers(MAX_FIELDS);
      bufs := buffers;
      this.stride := stride;
      this.offsets := offsets;
      logic, single := None, None;
      root := 0;
    }

    ghost predicate Valid()
      reads this
    {
      && BuffersOk(bufs) && |bufs| == MAX_FIELDS
      && (logic.Some? ==> LogicOk(logic.value, root, offsets) && Planned(logic.value, root))
      && (single.Some? ==> single.value.kernel == Stream(ThresholdCode(single.value.threshold)))
    }

    /** set_logic: an unknown field changes nothing. */
    method SetLogic(field: string, threshold: U64)
      requires Valid()
      modifies this`single
      ensures Valid()
      ensures field !in offsets ==> single == old(single)
      ensures field in offsets ==>
        single.Some? && single.value.offset == offsets[field] && single.value.threshold == threshold
    {
      hide LogicOk, Planned, ThresholdCode;
      if field in offsets {
        var kernel := CompileComparison(threshold);
        single := Some(Single(offsets[field], threshold, kernel));
      }
    }

    /** set_expression in the bit-sliced mode. Without a kernel nothing changes. */
    method SetExpression(p: Dag, expr: nat)
      requires Valid() && Runnable(p, expr)
      requires forall f :: f in FieldsOf(p, expr) ==> f in offsets
      modifies this`logic, this`root
      ensures Valid()
      ensures Compile(p, expr, ForestSkip(p, expr)).None? ==> logic == old(logic) && root == old(root)
      ensures Compile(p, expr, ForestSkip(p, expr)).Some? ==>
        && logic.Some? && root == expr && logic.value.goal == GoalOf(p, expr)
        && logic.value.m.plan == MakePlan(p, expr, ForestSkip(p, expr))
        && |logic.value.fields| == |FieldsOf(p, expr)|
    {
      hide LogicOk, Supported, PlanOk, Compilable, ThresholdCode, KernelCode;
      var m := CompileExpression(p, expr, ForestSkip(p, expr));
      if m.Some? {
        KernelPlan(p, expr, ForestSkip(p, expr));
        var fields := CollectFields(m.value.plan.names, offsets);
        var goal, slots := MakeGoal(p, expr, m.value.plan);
        LogicBuilt(p, expr, offsets, m.value, fields, goal, slots);
        logic := Some(Logic(m.value, fields, goal, slots));
        root := expr;
      }
    }

    /** execute: the total over all rows, modulo 2^64; without an expression the single-field path. */
    method Execute(mem: Memory, rowCount: nat) returns (total: U64)
      requires Valid()
      modifies bufs
      ensures logic.None? && single.None? ==> total == 0
      ensures logic.None? && single.Some? ==>
        total == Wrap(Above(mem, stride, single.value.offset, single.value.threshold, rowCount))
      ensures logic.Some? ==>
        total == Wrap(Total(logic.value.m.plan.p, root, logic.value.goal, Table(mem, stride, offsets), 0, rowCount))
    {
      hide LogicOk, ChunkResult, GoalFits, LaneZero, Planned, ThresholdCode, Above;
      total := 0;
      if logic.None? {
        if single.Some? {
          var s := single.value;
          total := ExecuteComparison(mem, stride, s.offset, rowCount, s.threshold, s.kernel, bufs[0]);
        }
        return;
      }
      ghost var t := Table(mem, stride, offsets);
      ghost var p := logic.value.m.plan.p;
      LogicFits(logic.value, root, offsets);
      assert total == Wrap(Total(p, root, logic.value.goal, t, 0, 0));
      hide Total, Wrap;
      var chunk := 0;
      ghost var done := 0;
      while chunk * 64 < rowCount
        invariant 0 <= chunk && done <= rowCount && done == if chunk * 64 < rowCount then chunk * 64 else rowCount
        invariant total == Wrap(Total(p, root, logic.value.goal, t, 0, done))
        decreases rowCount - done
      {
        var n := if rowCount - chunk * 64 < 64 then rowCount - chunk * 64 else 64;
        var scratch := ZeroScratch(MAX_SLOTS);
        var x0, left := ProcessChunk(mem, stride, chunk * 64, n, logic.value, bufs, scratch, root, t);
        BlockStart(chunk);
        ghost var before := total;
        total := Reduce(logic.value, x0, left, n, total, root, t, chunk * 64);
        TotalStep(p, root, logic.value.goal, t, done, n, before, total);
        done := done + n;
        chunk := chunk + 1;
      }
    }

    /** execute_vector over the reals: one number per row, 0 where nothing was set. */
    method ExecuteVector(mem: Memory, rowCount: nat, precision: real) returns (rows: seq<real>)
      requires Valid() && precision != 0.0
      modifies bufs
      ensures |rows| == rowCount
      ensures logic.None? ==> forall i :: 0 <= i < rowCount ==> rows[i] == 0.0
      ensures logic.Some? ==>
        && GoalFits(logic.value.m.plan.p, root, logic.value.goal)
        && RowsAre(logic.value.m.plan.p, root, logic.value.goal, Table(mem, stride, offsets), precision, rows)
    {
      hide LogicOk, ChunkResult, GoalFits, LaneZero, RowResult, Planned, ThresholdCode, Reported;
      rows := [];
      if logic.None? {
        rows := Zeros(rowCount);
        return;
      }
      ghost var t := Table(mem, stride, offsets);
      ghost var p := logic.value.m.plan.p;
      LogicFits(logic.value, root, offsets);
      var chunk := 0;
      while chunk * 64 < rowCount
        invariant 0 <= chunk && |rows| == if chunk * 64 < rowCount then chunk * 64 else rowCount
        invariant RowsAre(p, root, logic.value.goal, t, precision, rows)
        decreases rowCount - |rows|
      {
        var n := if rowCount - chunk * 64 < 64 then rowCount - chunk * 64 else 64;
        var scratch := ZeroScratch(MAX_SLOTS);
        var x0, left := ProcessChunk(mem, stride, chunk * 64, n, logic.value, bufs, scratch, root, t);
        BlockStart(chunk);
        var more := ChunkRowResults(logic.value, x0, left, n, precision, root, t, chunk * 64);
        MoreRows(p, root, logic.value.goal, t, precision, rows, more);
        rows := rows + more;
        chunk := chunk + 1;
      }
    }
  }
}
