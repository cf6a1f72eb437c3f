/**
 One block of up to 64 rows: gather, slice, run the kernel, reduce what it leaves
 (process_chunk_expr and the body of the chunk loop of execute in src/api/engine.cpp).
 */
module Chunks {
  import opened Words
  import opened Machine
  import opened BitSlicer
  import opened Ir
  import opened Layout
  import opened Codegen
  import opened KernelCorrect
  import opened KernelTheorem
  import opened Compiler
  import opened CompilerDriver
  import opened Aggregation
  import opened Table
  import opened Gather

  /** What the engine stores of an expression. */
  datatype Logic = Logic(m: Machined, fields: seq<Offset>, goal: Goal, slots: seq<int>)

  /** The plan can be executed and leaves what the goal needs. */
  ghost predicate Supported(u: Plan, root: nat, goal: Goal) {
    && PlanOk(u) && InPool(u) && CarriesCover(u) && GoalFits(u.p, root, goal)
    && (goal.MaskGoal? ==> Compiled(u, root) && IsMask(u.p[root].op))
    && (goal.PlaneGoal? ==> Compiled(u, root) && !IsMask(u.p[root].op))
    && (goal.ForestGoal? ==>
          && root in u.skip && goal.masks != []
          && forall i :: 0 <= i < |goal.masks| ==> Compiled(u, goal.masks[i]) && IsMask(u.p[goal.masks[i]].op))
  }

  /** The kernel and the slots belong to the plan. */
  ghost predicate KernelOk(logic: Logic, root: nat) {
    var u := logic.m.plan;
    && Supported(u, root, logic.goal) && logic.m.instrs == Stream(KernelCode(u, root))
    && |u.names| <= MAX_FIELDS && |logic.fields| == |u.names|
    && (logic.goal.ForestGoal? ==>
          && |logic.slots| == |logic.goal.masks|
          && forall i :: 0 <= i < |logic.slots| ==> logic.slots[i] == SlotOf(u, logic.goal.masks[i]))
  }

  /** Every field of the kernel is in the schema, at the offset the engine kept. */
  ghost predicate LogicOk(logic: Logic, root: nat, offsets: map<string, nat>) {
    var u := logic.m.plan;
    && KernelOk(logic, root)
    && (forall k :: 0 <= k < |u.names| ==> u.names[k] in offsets && logic.fields[k] == At(offsets[u.names[k]]))
  }

  // ----- the 64 rows behind a chunk -----

  /** What lane r of the raw buffers says about field f. */
  function RawRow(names: seq<string>, raws: seq<seq<Word>>, r: nat): Row {
    (f: string) =>
      if f in names && IndexOf(names, f) < |raws| && r < |raws[IndexOf(names, f)]|
      then U64Of(raws[IndexOf(names, f)][r]) else 0
  }

  function ChunkRowsTo(t: Table, g: nat, n: nat, names: seq<string>, raws: seq<seq<Word>>, k: nat): (c: seq<Row>)
    ensures |c| == k
    ensures forall r: nat :: r < k ==> c[r] == if r < n then RowAt(t, g + r) else RawRow(names, raws, r)
  {
    if k == 0 then []
    else
      var r := k - 1;
      ChunkRowsTo(t, g, n, names, raws, k - 1) + [if r < n then RowAt(t, g + r) else RawRow(names, raws, r)]
  }

  /** The real rows, then lanes that hold whatever the buffers hold. */
  function ChunkRows(t: Table, g: nat, n: nat, names: seq<string>, raws: seq<seq<Word>>): (c: Chunk)
    ensures forall r: nat :: r < 64 ==> c[r] == if r < n then RowAt(t, g + r) else RawRow(names, raws, r)
  {
    ChunkRowsTo(t, g, n, names, raws, 64)
  }

  lemma {:induction false} IndexOfName(names: seq<string>, k: nat)
    requires k < |names| && forall i, j :: 0 <= i < j < |names| ==> names[i] != names[j]
    ensures IndexOf(names, names[k]) == k
  {
    var j := IndexOf(names, names[k]);
  }

  lemma {:induction false} RowAddress(stride: nat, g: nat, r: nat, offset: nat)
    ensures (g + r) * stride + offset == g * stride + r * stride + offset
  {
  }

  /** The raw word of a field in lane r is the value of the field in row r. */
  lemma {:induction false} RawLane(t: Table, g: nat, n: nat, names: seq<string>, raws: seq<seq<Word>>, k: nat, r: nat)
    requires k < |names| == |raws| && (forall i, j :: 0 <= i < j < |names| ==> names[i] != names[j])
    requires names[k] in t.offsets && r < 64 && n <= 64
    requires Gathered(raws[k], t.mem, g * t.stride, t.stride, t.offsets[names[k]], n)
    ensures raws[k][r] == ToWord(ChunkRows(t, g, n, names, raws)[r](names[k]))
  {
    IndexOfName(names, k);
    if r < n {
      RowAddress(t.stride, g, r, t.offsets[names[k]]);
      assert raws[k][r] == ToWord(t.mem(g * t.stride + r * t.stride + t.offsets[names[k]]));
    } else {
      WordRoundTrip(raws[k][r]);
    }
  }

  /** Sliced buffers are the bit-planes of the chunk's columns. */
  lemma {:induction false} SlicedField(t: Table, g: nat, n: nat, names: seq<string>, raws: seq<seq<Word>>, k: nat,
      planes: seq<Word>)
    requires k < |names| == |raws| && (forall i, j :: 0 <= i < j < |names| ==> names[i] != names[j])
    requires names[k] in t.offsets && n <= 64
    requires FieldSliced(planes, raws[k], t.mem, g * t.stride, t.stride, At(t.offsets[names[k]]), n)
    ensures HoldsPlanes(planes, 0, FieldCol(ChunkRows(t, g, n, names, raws), names[k]))
  {
    var c := FieldCol(ChunkRows(t, g, n, names, raws), names[k]);
    forall r: nat | r < 64
      ensures raws[k][r] == ToWord(c[r])
    {
      RawLane(t, g, n, names, raws, k, r);
    }
    forall b: nat | b < 64
      ensures planes[0 + b] == Plane(c, b)
    {
      SlicedColumn(c, raws[k], b);
    }
  }

  lemma {:induction false} ChunkFieldsOk(u: Plan, t: Table, g: nat, n: nat, fields: seq<Offset>,
      planes: seq<seq<Word>>, raws: seq<seq<Word>>)
    requires PlanOk(u) && n <= 64 && |planes| == |raws| == |fields| == |u.names|
    requires forall k :: 0 <= k < |u.names| ==> u.names[k] in t.offsets && fields[k] == At(t.offsets[u.names[k]])
    requires forall k :: 0 <= k < |fields| ==>
      FieldSliced(planes[k], raws[k], t.mem, g * t.stride, t.stride, fields[k], n)
    ensures FieldsOk(u, ChunkRows(t, g, n, u.names, raws), planes)
  {
    FieldNamesCover(u.p, u.order);
    forall k: nat | k < |u.names|
      ensures HoldsPlanes(planes[k], 0, FieldCol(ChunkRows(t, g, n, u.names, raws), u.names[k]))
    {
      SlicedField(t, g, n, u.names, raws, k, planes[k]);
    }
  }

  // ----- what the kernel leaves -----

  /** The first n values are those of the node on the rows from row g. */
  ghost predicate ColumnIs(c: Column, p: Dag, root: nat, t: Table, g: nat, n: nat)
    requires root < |p|
  {
    forall r: nat :: r < n && r < 64 ==> c[r] == Value(p, root, RowAt(t, g + r), r == 0)
  }

  /** The kernel's output on the first n rows from row g. */
  ghost predicate ChunkResult(logic: Logic, root: nat, t: Table, g: nat, n: nat, x0: Word, scratch: seq<Word>)
    requires GoalFits(logic.m.plan.p, root, logic.goal)
  {
    var p := logic.m.plan.p;
    match logic.goal
    case MaskGoal => forall r: nat :: r < n ==> (r in x0 <==> Holds(p, root, RowAt(t, g + r), r == 0))
    case PlaneGoal =>
      |scratch| >= 64 && exists c: Column :: HoldsPlanes(scratch, 0, c) && ColumnIs(c, p, root, t, g, n)
    case ForestGoal(_, _, masks) =>
      |logic.slots| == |masks| && forall i :: 0 <= i < |masks| ==>
        && 0 <= logic.slots[i] < |scratch|
        && forall r: nat :: r < n ==> (r in scratch[logic.slots[i]] <==> Holds(p, masks[i], RowAt(t, g + r), r == 0))
  }

  /** Running the kernel on a chunk yields its result, whatever was in the scratchpad and the registers. */
  lemma {:induction false} KernelOnChunk(logic: Logic, root: nat, t: Table, g: nat, n: nat, rows: Chunk, s: State)
    requires KernelOk(logic, root) && n <= 64
    requires forall r: nat :: r < n ==> rows[r] == RowAt(t, g + r)
    requires Entered(logic.m.plan, rows, s)
    ensures
      var out := ExecStream(logic.m.instrs, s);
      && out.Run? && out.regs[0].W? && |out.scratch| == |s.scratch|
      && ChunkResult(logic, root, t, g, n, out.regs[0].w, out.scratch)
  {
    var u := logic.m.plan;
    var code := KernelCode(u, root);
    ExecIsStream(code, s);
    var out := Exec(code, s);
    match logic.goal
    case MaskGoal =>
      MaskKernel(u, root, rows, s, code);
      ScratchLength(code, s);
    case PlaneGoal =>
      PlaneKernel(u, root, rows, s, code);
      PlaneReturnsZero(u, root, rows, s, code);
      assert ColumnIs(Col(u.p, root, rows), u.p, root, t, g, n);
    case ForestGoal(_, _, masks) =>
      SkippedKernel(u, root, rows, s, code);
      SkipReturnsZero(u, root, rows, s, code);
      forall i | 0 <= i < |masks|
        ensures 0 <= logic.slots[i] < |out.scratch|
        ensures forall r: nat :: r < n ==>
          (r in out.scratch[logic.slots[i]] <==> Holds(u.p, masks[i], RowAt(t, g + r), r == 0))
      {
        assert Done(u, rows, out, masks[i]);
      }
  }

  lemma {:induction false} PlaneReturnsZero(u: Plan, root: nat, rows: Chunk, s: State, code: Code)
    requires InPool(u) && root < |u.p| && root !in u.skip && !IsMask(u.p[root].op) && code == KernelCode(u, root)
    requires Exec(code, s).Run?
    ensures Exec(code, s).regs[0] == W({})
  {
    var last := code.second.second.second.second;
    assert EndsIn(code.second.second.second, last) && EndsIn(code.second.second, last);
    LastSets(last, code, s);
  }

  lemma {:induction false} SkipReturnsZero(u: Plan, root: nat, rows: Chunk, s: State, code: Code)
    requires InPool(u) && root < |u.p| && root in u.skip && code == KernelCode(u, root)
    requires Exec(code, s).Run?
    ensures Exec(code, s).regs[0] == W({})
  {
    LastSets(code.second.second, code, s);
  }

  /** Code that ends in `mov x0, #0` returns 0. */
  lemma {:induction false} LastSets(last: Code, code: Code, s: State)
    requires last == I(MovImm(0, W({}))) && EndsIn(code, last) && Exec(code, s).Run?
    ensures Exec(code, s).regs[0] == W({})
    decreases code
  {
    if code != last {
      LastSets(last, code.second, Exec(code.first, s));
    }
  }

  predicate EndsIn(code: Code, last: Code) {
    code == last || (code.Then? && EndsIn(code.second, last))
  }
}
