/**
 Running a kernel on columns that are bit-sliced already (execute_native and
 execute_native_parallel in src/api/engine.cpp): whole blocks of 64 rows, no tail mask,
 at most eight fields.
 */
module Native {
  import opened Words
  import opened Machine
  import opened BitSlicer
  import opened Ir
  import opened Layout
  import opened Scratchpad
  import opened Codegen
  import opened KernelCorrect
  import opened KernelTheorem
  import opened Compiler
  import opened Aggregation
  import opened Table
  import opened Chunks
  import opened Engine
  import opened Ranges
  import opened ParallelRunner

  const NATIVE_FIELDS: nat := 8

  // ----- the table that sliced blocks stand for -----

  /** Where the 64 planes of schema field f start in block b. */
  function PlanesAt(width: nat, b: nat, f: nat): nat {
    b * width * 64 + f * 64
  }

  lemma {:induction false} BlockFits(width: nat, blocks: nat, b: nat, f: nat)
    requires b < blocks && f < width
    ensures PlanesAt(width, b, f) + 64 <= blocks * width * 64
  {
    assert (b + 1) * width <= blocks * width;
    assert (b + 1) * width == b * width + width;
  }

  /** The 64 planes of one field of one block; empty when there are none. */
  function FieldPlanes(planes: seq<Word>, width: nat, b: nat, f: nat): (c: seq<Word>) {
    if PlanesAt(width, b, f) + 64 <= |planes| then planes[PlanesAt(width, b, f)..PlanesAt(width, b, f) + 64] else []
  }

  /** The value of a field in row g, read across the planes of its block. */
  function LaneValue(planes: seq<Word>, width: nat, g: nat, f: nat): U64 {
    var c := FieldPlanes(planes, width, g / 64, f);
    if |c| == 64 then U64Of(TransposedWord(c, g % 64)) else 0
  }

  function SchemaIndex(schema: seq<string>, f: string): (k: nat)
    ensures f in schema ==> k < |schema| && schema[k] == f && f !in schema[..k]
  {
    if schema == [] || schema[0] == f then 0 else 1 + SchemaIndex(schema[1..], f)
  }

  function NativeTable(planes: seq<Word>, schema: seq<string>): Table {
    var width := |schema|;
    Table((x: int) => if width > 0 && x >= 0 then LaneValue(planes, width, x / width, x % width) else 0,
          width, map f | f in schema :: SchemaIndex(schema, f))
  }

  lemma {:induction false} Position(g: nat, width: nat, k: nat)
    requires k < width
    ensures (g * width + k) / width == g && (g * width + k) % width == k
  {
    ModUnique(g * width + k, width, g, k);
  }

  lemma {:induction false} NativeRow(planes: seq<Word>, schema: seq<string>, b: nat, r: nat, f: string)
    requires f in schema && r < 64
    ensures RowAt(NativeTable(planes, schema), b * 64 + r)(f) ==
      var c := FieldPlanes(planes, |schema|, b, SchemaIndex(schema, f));
      if |c| == 64 then U64Of(TransposedWord(c, r)) else 0
  {
    hide FieldPlanes;
    Position(b * 64 + r, |schema|, SchemaIndex(schema, f));
    ModUnique(b * 64 + r, 64, b, r);
  }

  /** Planes read across and sliced again are the planes. */
  lemma {:induction false} AcrossAndBack(planes: seq<Word>, c: Column)
    requires |planes| == 64 && forall r: nat :: r < 64 ==> c[r] == U64Of(TransposedWord(planes, r))
    ensures HoldsPlanes(planes, 0, c)
  {
    forall b: nat | b < 64
      ensures planes[0 + b] == Plane(c, b)
    {
      forall r: nat | r < 64
        ensures r in planes[b] <==> r in Plane(c, b)
      {
        var w := TransposedWord(planes, r);
        WordRoundTrip(w);
        assert b in w <==> r in planes[b];
      }
    }
  }

  function RowsTo(t: Table, b: nat, k: nat): (c: seq<Row>)
    ensures |c| == k && forall r: nat :: r < k ==> c[r] == RowAt(t, b * 64 + r)
  {
    if k == 0 then [] else RowsTo(t, b, k - 1) + [RowAt(t, b * 64 + (k - 1))]
  }

  function BlockRows(t: Table, b: nat): (c: Chunk)
    ensures forall r: nat :: r < 64 ==> c[r] == RowAt(t, b * 64 + r)
  {
    RowsTo(t, b, 64)
  }

  lemma {:induction false} NativeField(planes: seq<Word>, schema: seq<string>, b: nat, f: string)
    requires f in schema && |FieldPlanes(planes, |schema|, b, SchemaIndex(schema, f))| == 64
    ensures HoldsPlanes(FieldPlanes(planes, |schema|, b, SchemaIndex(schema, f)), 0,
                        FieldCol(BlockRows(NativeTable(planes, schema), b), f))
  {
    hide FieldPlanes, RowAt, NativeTable, SchemaIndex, HoldsPlanes, FieldCol, BlockRows;
    var c := FieldCol(BlockRows(NativeTable(planes, schema), b), f);
    forall r: nat | r < 64
      ensures c[r] == U64Of(TransposedWord(FieldPlanes(planes, |schema|, b, SchemaIndex(schema, f)), r))
    {
      NativeRow(planes, schema, b, r, f);
    }
    AcrossAndBack(FieldPlanes(planes, |schema|, b, SchemaIndex(schema, f)), c);
  }

  // ----- planes that were sliced from a row table -----

  /** Lane r of plane i of field k in block b is bit i of that field in row 64 b + r of t. */
  ghost predicate SlicedFrom(planes: seq<Word>, blocks: nat, schema: seq<string>, t: Table) {
    && |planes| == blocks * |schema| * 64 && (forall f :: f in schema ==> f in t.offsets)
    && forall b: nat, k: nat :: b < blocks && k < |schema| ==> FieldSlicedFrom(planes, schema, t, b, k)
  }

  ghost predicate FieldSlicedFrom(planes: seq<Word>, schema: seq<string>, t: Table, b: nat, k: nat) {
    && k < |schema| && schema[k] in t.offsets && (b * |schema| + k) * 64 + 64 <= |planes|
    && var c := planes[(b * |schema| + k) * 64..(b * |schema| + k) * 64 + 64];
       forall r: nat, i: nat :: r < 64 && i < 64 ==>
         (r in c[i] <==> NatBit(t.mem((64 * b + r) * t.stride + t.offsets[schema[k]]), i))
  }

  lemma {:induction false} SlicedFieldIs(planes: seq<Word>, schema: seq<string>, t: Table, b: nat, k: nat)
    requires k < |schema| && schema[k] in t.offsets && (b * |schema| + k) * 64 + 64 <= |planes|
    requires
      var c := planes[(b * |schema| + k) * 64..(b * |schema| + k) * 64 + 64];
      forall r: nat, i: nat :: r < 64 && i < 64 ==>
        (r in c[i] <==> NatBit(t.mem((64 * b + r) * t.stride + t.offsets[schema[k]]), i))
    ensures FieldSlicedFrom(planes, schema, t, b, k)
  {
  }

  lemma {:induction false} SlicedTableIs(planes: seq<Word>, blocks: nat, schema: seq<string>, t: Table)
    requires |planes| == blocks * |schema| * 64 && forall f :: f in schema ==> f in t.offsets
    requires forall b: nat, k: nat :: b < blocks && k < |schema| ==> FieldSlicedFrom(planes, schema, t, b, k)
    ensures SlicedFrom(planes, blocks, schema, t)
  {
  }

  lemma {:induction false} AcrossIs(planes: seq<Word>, schema: seq<string>, t: Table, b: nat, k: nat, r: nat)
    requires FieldSlicedFrom(planes, schema, t, b, k) && r < 64 && |FieldPlanes(planes, |schema|, b, k)| == 64
    ensures U64Of(TransposedWord(FieldPlanes(planes, |schema|, b, k), r)) ==
      t.mem((64 * b + r) * t.stride + t.offsets[schema[k]])
  {
    var v := t.mem((64 * b + r) * t.stride + t.offsets[schema[k]]);
    var c := FieldPlanes(planes, |schema|, b, k);
    var at := (b * |schema| + k) * 64;
    assert PlanesAt(|schema|, b, k) == at;
    assert TransposedWord(c, r) == ToWord(v) by {
      forall i: nat | i < 64
        ensures i in TransposedWord(c, r) <==> i in ToWord(v)
      {
        assert c == planes[at..at + 64];
      }
    }
    NatRoundTrip(v);
  }

  /** Every row of the sliced blocks is the row of the table they were sliced from. */
  lemma {:induction false} SlicedRow(planes: seq<Word>, blocks: nat, schema: seq<string>, t: Table, g: nat, f: string)
    requires SlicedFrom(planes, blocks, schema, t) && g < blocks * 64 && f in schema
    ensures RowAt(NativeTable(planes, schema), g)(f) == RowAt(t, g)(f)
  {
    hide FieldPlanes, NativeTable, PlanesAt, FieldSlicedFrom;
    var b, r, k := g / 64, g % 64, SchemaIndex(schema, f);
    assert b < blocks && g == b * 64 + r;
    NativeRow(planes, schema, b, r, f);
    BlockFits(|schema|, blocks, b, k);
    PlanesThere(planes, |schema|, b, k);
    AcrossIs(planes, schema, t, b, k, r);
  }

  ghost predicate SameOperands(p: Dag, i: nat, row: Row, row': Row, exact: bool)
    requires i < |p|
  {
    forall c :: c in Children(p[i].op) ==>
      && c < i && Value(p, c, row, exact) == Value(p, c, row', exact)
      && Holds(p, c, row, exact) == Holds(p, c, row', exact)
  }

  lemma {:induction false} SameValue(p: Dag, i: nat, row: Row, row': Row, exact: bool)
    requires i < |p| && SameOperands(p, i, row, row', exact)
    requires p[i].op.Load? ==> row(p[i].op.field) == row'(p[i].op.field)
    ensures Value(p, i, row, exact) == Value(p, i, row', exact)
  {
    hide Wrap;
    var op := p[i].op;
    match op
    case Add(l, r) => assert l in Children(op) && r in Children(op);
    case Sub(l, r) => assert l in Children(op) && r in Children(op);
    case Select(c, l, r) => assert c in Children(op) && l in Children(op) && r in Children(op);
    case _ =>
  }

  lemma {:induction false} SameHolds(p: Dag, i: nat, row: Row, row': Row, exact: bool)
    requires i < |p| && SameOperands(p, i, row, row', exact)
    ensures Holds(p, i, row, exact) == Holds(p, i, row', exact)
  {
    var op := p[i].op;
    match op
    case Compare(_, l, r) => assert l in Children(op) && r in Children(op);
    case And(l, r) => assert l in Children(op) && r in Children(op);
    case Or(l, r) => assert l in Children(op) && r in Children(op);
    case Not(l) => assert l in Children(op);
    case _ =>
  }

  /** A node's meaning depends on the loaded fields only. */
  lemma {:induction false} SameFields(p: Dag, order: seq<nat>, i: nat, row: Row, row': Row, exact: bool)
    requires TopoOrder(p, order) && i in order && (forall n :: n in order ==> n < |p|) && i < |p|
    requires forall f :: f in FieldNames(p, order) ==> row(f) == row'(f)
    ensures Value(p, i, row, exact) == Value(p, i, row', exact) && Holds(p, i, row, exact) == Holds(p, i, row', exact)
    decreases i
  {
    hide FieldNames, Value, Holds, TopoOrder;
    OperandsListed(p, order, i);
    forall c | c in Children(p[i].op)
      ensures c < i && Value(p, c, row, exact) == Value(p, c, row', exact)
      ensures Holds(p, c, row, exact) == Holds(p, c, row', exact)
    {
      SameFields(p, order, c, row, row', exact);
    }
    FieldNamesCover(p, order);
    SameValue(p, i, row, row', exact);
    SameHolds(p, i, row, row', exact);
  }

  /** The nodes that a goal reads are listed in the plan. */
  ghost predicate GoalListed(p: Dag, order: seq<nat>, root: nat, goal: Goal) {
    && GoalFits(p, root, goal) && (!goal.ForestGoal? ==> root in order)
    && (goal.ForestGoal? ==> forall i :: 0 <= i < |goal.masks| ==> goal.masks[i] in order)
  }

  lemma {:induction false} SameDeltas(p: Dag, order: seq<nat>, deltas: seq<int>, masks: seq<nat>, row: Row,
      row': Row, exact: bool)
    requires TopoOrder(p, order) && (forall n :: n in order ==> n < |p|) && |deltas| == |masks|
    requires forall i :: 0 <= i < |masks| ==> masks[i] < |p| && masks[i] in order
    requires forall f :: f in FieldNames(p, order) ==> row(f) == row'(f)
    ensures DeltaSum(p, deltas, masks, row, exact) == DeltaSum(p, deltas, masks, row', exact)
    decreases |masks|
  {
    hide FieldNames, Holds, TopoOrder;
    if masks != [] {
      var k := |masks| - 1;
      SameDeltas(p, order, deltas[..k], masks[..k], row, row', exact);
      SameFields(p, order, masks[k], row, row', exact);
    }
  }

  lemma {:induction false} SameContribution(p: Dag, order: seq<nat>, root: nat, goal: Goal, row: Row, row': Row,
      exact: bool)
    requires TopoOrder(p, order) && (forall n :: n in order ==> n < |p|) && GoalListed(p, order, root, goal)
    requires forall f :: f in FieldNames(p, order) ==> row(f) == row'(f)
    ensures Contribution(p, root, goal, row, exact) == Contribution(p, root, goal, row', exact)
  {
    hide FieldNames, Holds, Value, TopoOrder, DeltaSum;
    if goal.ForestGoal? {
      SameDeltas(p, order, goal.deltas, goal.masks, row, row', exact);
    } else {
      SameFields(p, order, root, row, row', exact);
    }
  }

  lemma {:induction false} SameTotal(planes: seq<Word>, blocks: nat, schema: seq<string>, t: Table,
      p: Dag, order: seq<nat>, root: nat, goal: Goal, n: nat)
    requires SlicedFrom(planes, blocks, schema, t) && n <= blocks * 64
    requires TopoOrder(p, order) && (forall x :: x in order ==> x < |p|) && GoalListed(p, order, root, goal)
    requires forall f :: f in FieldNames(p, order) ==> f in schema
    ensures Total(p, root, goal, NativeTable(planes, schema), 0, n) == Total(p, root, goal, t, 0, n)
  {
    hide FieldNames, NativeTable, SlicedFrom, TopoOrder, Contribution, LaneZero, RowAt;
    if n > 0 {
      SameTotal(planes, blocks, schema, t, p, order, root, goal, n - 1);
      forall f | f in FieldNames(p, order)
        ensures RowAt(NativeTable(planes, schema), n - 1)(f) == RowAt(t, n - 1)(f)
      {
        SlicedRow(planes, blocks, schema, t, n - 1, f);
      }
      SameContribution(p, order, root, goal, RowAt(NativeTable(planes, schema), n - 1), RowAt(t, n - 1),
        LaneZero(n - 1));
    }
  }

  // ----- one block -----

  ghost predicate IndicesOk(index: seq<nat>, names: seq<string>, schema: seq<string>) {
    |index| == |names| && forall i :: 0 <= i < |names| ==>
      names[i] in schema && index[i] == SchemaIndex(schema, names[i])
  }

  /** dynamic_to_schema_index: the first schema field of each name. */
  method SchemaIndices(schema: seq<string>, names: seq<string>) returns (index: seq<nat>)
    requires forall f :: f in names ==> f in schema
    ensures IndicesOk(index, names, schema)
  {
    index := [];
    while |index| < |names|
      invariant |index| <= |names|
      invariant forall i :: 0 <= i < |index| ==> names[i] in schema && index[i] == SchemaIndex(schema, names[i])
    {
      var name := names[|index|];
      var f := 0;
      assert schema[..|schema|] == schema;
      while f < |schema| && schema[f] != name
        invariant 0 <= f <= |schema| && name !in schema[..f]
      {
        f := f + 1;
      }
      var found := if f < |schema| then f else 0;
      FirstIs(schema, name, found);
      index := index + [found];
    }
  }

  lemma {:induction false} FirstIs(schema: seq<string>, name: string, k: nat)
    requires k < |schema| && schema[k] == name && name !in schema[..k]
    ensures SchemaIndex(schema, name) == k
  {
    if k > 0 {
      assert schema[..k][0] != name && schema[1..][..k - 1] == schema[..k][1..];
      FirstIs(schema[1..], name, k - 1);
    }
  }

  /** Call the kernel on block b. */
  method RunBlock(planes: seq<Word>, blocks: nat, schema: seq<string>, b: nat, index: seq<nat>, logic: Logic,
      scratch: seq<Word>, ghost root: nat)
    returns (x0: Word, left: seq<Word>)
    requires KernelOk(logic, root) && IndicesOk(index, logic.m.plan.names, schema) && |index| <= NATIVE_FIELDS
    requires b < blocks && |planes| == blocks * |schema| * 64 && |scratch| >= MAX_SLOTS
    ensures ChunkResult(logic, root, NativeTable(planes, schema), b * 64, 64, x0, left) && |left| == |scratch|
  {
    hide KernelOk, ChunkResult, FieldPlanes, NativeTable, SchemaIndex, FieldsOk, BlockRows, HoldsPlanes;
    var fields: seq<seq<Word>> := [];
    ghost var rows := BlockRows(NativeTable(planes, schema), b);
    while |fields| < |index|
      invariant |fields| <= |index|
      invariant forall k: nat :: k < |fields| ==> HoldsPlanes(fields[k], 0, FieldCol(rows, logic.m.plan.names[k]))
    {
      var k := |fields|;
      BlockFits(|schema|, blocks, b, index[k]);
      PlanesThere(planes, |schema|, b, index[k]);
      NativeField(planes, schema, b, logic.m.plan.names[k]);
      fields := fields + [FieldPlanes(planes, |schema|, b, index[k])];
    }
    var junk, flags := CallerRegisters();
    var s := Entry(junk, flags, fields, scratch);
    BlockCorrect(logic, root, NativeTable(planes, schema), b, rows, fields, s);
    var out := ExecStream(logic.m.instrs, s);
    x0, left := out.regs[0].w, out.scratch;
  }

  lemma {:induction false} PlanesThere(planes: seq<Word>, width: nat, b: nat, f: nat)
    requires PlanesAt(width, b, f) + 64 <= |planes|
    ensures |FieldPlanes(planes, width, b, f)| == 64
  {
  }

  lemma {:induction false} BlockCorrect(logic: Logic, root: nat, t: Table, b: nat, rows: Chunk,
      fields: seq<seq<Word>>, s: State)
    requires KernelOk(logic, root) && rows == BlockRows(t, b) && |fields| == |logic.m.plan.names|
    requires forall k: nat :: k < |fields| ==> HoldsPlanes(fields[k], 0, FieldCol(rows, logic.m.plan.names[k]))
    requires s.Run? && s.fields == fields && |s.scratch| >= MAX_SLOTS
    requires s.regs[0] == P(FieldTable, 0) && s.regs[1] == P(Scratch, 0)
    ensures
      var out := ExecStream(logic.m.instrs, s);
      && out.Run? && out.regs[0].W? && |out.scratch| == |s.scratch|
      && ChunkResult(logic, root, t, b * 64, 64, out.regs[0].w, out.scratch)
  {
    hide KernelOk, ChunkResult, HoldsPlanes, FieldCol;
    GoalInPool(logic, root);
    KernelOnChunk(logic, root, t, b * 64, 64, rows, s);
  }

  lemma {:induction false} GoalInPool(logic: Logic, root: nat)
    requires KernelOk(logic, root)
    ensures GoalFits(logic.m.plan.p, root, logic.goal)
  {
  }

  // ----- aggregation without a tail mask -----

  lemma {:induction false} AllLanes(w: Word)
    ensures w * LowLanes(64) == w && LowLanes(64) == Ones()
  {
  }

  method ReduceBlock(logic: Logic, x0: Word, scratch: seq<Word>, total: U64, ghost root: nat, ghost t: Table,
      ghost g: nat)
    returns (r: U64)
    requires LaneZero(g) && GoalFits(logic.m.plan.p, root, logic.goal)
    requires ChunkResult(logic, root, t, g, 64, x0, scratch)
    ensures r == Wrap(total + Total(logic.m.plan.p, root, logic.goal, t, g, 64))
  {
    hide Total, Holds, Value, RowAt, LaneZero, ForestSum, PlaneSum, SumTo, CountIn, Wrap;
    ghost var p := logic.m.plan.p;
    match logic.goal {
      case MaskGoal =>
        AllLanes(x0);
        CountLanes(x0, 64);
        MaskTotal(p, root, t, g, 64, x0);
        r := Wrap(total + |x0|);
      case ForestGoal(base, deltas, masks) =>
        AllLanes({});
        ghost var words := MasksAt(scratch, logic.slots);
        ForestTotal(p, root, base, deltas, masks, words, t, g, 64);
        var sum := AggregateUnrolled(scratch, Ones(), 64, base, deltas, logic.slots, 16);
        WrapAdd(ForestSum(base, words, deltas, 64), total);
        r := Wrap(total + sum);
      case PlaneGoal =>
        ghost var c: Column :| HoldsPlanes(scratch, 0, c) && ColumnIs(c, p, root, t, g, 64);
        PlanesSum(c, scratch, 64);
        PlaneTotal(p, root, t, g, 64, c);
        r := AggregatePlanes(scratch, 64, total);
    }
  }

  // ----- all blocks -----

  ghost predicate NativeOk(planes: seq<Word>, blocks: nat, schema: seq<string>, logic: Logic, root: nat) {
    && KernelOk(logic, root) && |logic.m.plan.names| <= NATIVE_FIELDS && |planes| == blocks * |schema| * 64
    && forall f :: f in logic.m.plan.names ==> f in schema
  }

  /** On planes that were sliced from a table the total is the total of that table. */
  lemma {:induction false} SlicedTotal(planes: seq<Word>, blocks: nat, schema: seq<string>, logic: Logic, root: nat,
      t: Table)
    requires NativeOk(planes, blocks, schema, logic, root) && SlicedFrom(planes, blocks, schema, t)
    ensures GoalFits(logic.m.plan.p, root, logic.goal)
    ensures Total(logic.m.plan.p, root, logic.goal, NativeTable(planes, schema), 0, blocks * 64) ==
      Total(logic.m.plan.p, root, logic.goal, t, 0, blocks * 64)
  {
    PlanListed(logic, root);
    hide KernelOk, NativeTable, SlicedFrom, TopoOrder, FieldNames, GoalListed, Total;
    SameTotal(planes, blocks, schema, t, logic.m.plan.p, logic.m.plan.order, root, logic.goal, blocks * 64);
  }

  lemma {:induction false} PlanListed(logic: Logic, root: nat)
    requires KernelOk(logic, root)
    ensures
      var u := logic.m.plan;
      && TopoOrder(u.p, u.order) && (forall n :: n in u.order ==> n < |u.p|) && u.names == FieldNames(u.p, u.order)
      && GoalListed(u.p, u.order, root, logic.goal) && GoalFits(u.p, root, logic.goal)
  {
    hide LaidOut, NodeReady, CarriesCover, KernelCode, FieldNames;
  }

  /** The total of the rows of blocks start .. end. */
  ghost function BlocksTotal(planes: seq<Word>, schema: seq<string>, logic: Logic, root: nat, start: nat, end: nat): int
    requires GoalFits(logic.m.plan.p, root, logic.goal) && start <= end
  {
    Total(logic.m.plan.p, root, logic.goal, NativeTable(planes, schema), start * 64, (end - start) * 64)
  }

  lemma {:induction false} NextBlockTotal(planes: seq<Word>, schema: seq<string>, logic: Logic, root: nat,
      start: nat, b: nat, before: U64, after: U64)
    requires GoalFits(logic.m.plan.p, root, logic.goal) && start <= b
    requires before == Wrap(BlocksTotal(planes, schema, logic, root, start, b))
    requires after == Wrap(before + Total(logic.m.plan.p, root, logic.goal, NativeTable(planes, schema), b * 64, 64))
    ensures after == Wrap(BlocksTotal(planes, schema, logic, root, start, b + 1))
  {
    hide Total, Wrap, NativeTable;
    var t, p := NativeTable(planes, schema), logic.m.plan.p;
    assert start * 64 + (b - start) * 64 == b * 64 && (b + 1 - start) * 64 == (b - start) * 64 + 64;
    RangeStep(p, root, logic.goal, t, start * 64, (b - start) * 64, 64, before, after);
  }

  /** One thread's loop over its blocks; the scratchpad is cleared once. */
  method RunBlocks(planes: seq<Word>, blocks: nat, schema: seq<string>, start: nat, end: nat, index: seq<nat>,
      logic: Logic, ghost root: nat)
    returns (count: U64)
    requires NativeOk(planes, blocks, schema, logic, root) && IndicesOk(index, logic.m.plan.names, schema)
    requires start <= end <= blocks
    ensures GoalFits(logic.m.plan.p, root, logic.goal)
    ensures count == Wrap(BlocksTotal(planes, schema, logic, root, start, end))
  {
    hide KernelOk, ChunkResult, LaneZero, NativeTable, GoalFits;
    GoalInPool(logic, root);
    count := 0;
    assert count == Wrap(BlocksTotal(planes, schema, logic, root, start, start));
    hide Wrap, BlocksTotal, Total;
    var scratch := ZeroScratch(WORKER_SLOTS);
    var b := start;
    while b < end
      invariant start <= b <= end && |scratch| == WORKER_SLOTS
      invariant count == Wrap(BlocksTotal(planes, schema, logic, root, start, b))
    {
      var x0: Word;
      x0, scratch := RunBlock(planes, blocks, schema, b, index, logic, scratch, root);
      BlockStart(b);
      ghost var before := count;
      count := ReduceBlock(logic, x0, scratch, count, root, NativeTable(planes, schema), b * 64);
      NextBlockTotal(planes, schema, logic, root, start, b, before, count);
      b := b + 1;
    }
  }

  /** execute_native: the total over all rows of all blocks. */
  method ExecuteNative(planes: seq<Word>, blocks: nat, schema: seq<string>, logic: Logic, ghost root: nat)
    returns (total: U64)
    requires NativeOk(planes, blocks, schema, logic, root)
    ensures GoalFits(logic.m.plan.p, root, logic.goal)
    ensures total == Wrap(Total(logic.m.plan.p, root, logic.goal, NativeTable(planes, schema), 0, blocks * 64))
    ensures forall t :: SlicedFrom(planes, blocks, schema, t) ==>
      total == Wrap(Total(logic.m.plan.p, root, logic.goal, t, 0, blocks * 64))
  {
    hide KernelOk, GoalFits, Total, Wrap, NativeTable, SlicedFrom;
    var index := SchemaIndices(schema, logic.m.plan.names);
    total := RunBlocks(planes, blocks, schema, 0, blocks, index, logic, root);
    forall t | SlicedFrom(planes, blocks, schema, t)
      ensures total == Wrap(Total(logic.m.plan.p, root, logic.goal, t, 0, blocks * 64))
    {
      SlicedTotal(planes, blocks, schema, logic, root, t);
    }
  }

  // ----- threads -----

  /** The block ranges of the threads: equal shares, the last thread takes the rest. */
  method SplitBlocks(blocks: nat, threads: nat) returns (tasks: seq<Task>)
    requires threads > 0
    ensures |tasks| == threads && Chain(tasks, blocks)
    ensures forall i :: 0 <= i < threads - 1 ==> tasks[i].end - tasks[i].start == blocks / threads
  {
    var share := blocks / threads;
    ShareFits(blocks, threads);
    NoTasks();
    hide Chain;
    tasks := [];
    var t := 0;
    ghost var at := 0;
    while t < threads
      invariant 0 <= t <= threads && |tasks| == t && at == share * t
      invariant Chain(tasks, if t < threads then at else blocks)
      invariant forall i :: 0 <= i < t && i < threads - 1 ==> tasks[i].end - tasks[i].start == share
    {
      var start := share * t;
      var end := if t == threads - 1 then blocks else start + share;
      SharesBelow(share, threads, t);
      AddTask(tasks, start, end);
      tasks := tasks + [Task(start, end)];
      assert share * (t + 1) == at + share;
      at := at + share;
      t := t + 1;
    }
  }

  lemma {:induction false} ShareFits(blocks: nat, threads: nat)
    requires threads > 0
    ensures (blocks / threads) * threads <= blocks
  {
  }

  lemma {:induction false} SharesBelow(share: nat, threads: nat, t: nat)
    requires t < threads
    ensures share * t <= share * threads
  {
    assert share * threads == share * t + share * (threads - t);
  }

  function InRows(task: Task): Task {
    Task(task.start * 64, task.end * 64)
  }

  function AllInRows(tasks: seq<Task>): (r: seq<Task>)
    ensures |r| == |tasks| && forall i :: 0 <= i < |r| ==> r[i] == InRows(tasks[i])
  {
    if tasks == [] then [] else AllInRows(tasks[..|tasks| - 1]) + [InRows(tasks[|tasks| - 1])]
  }

  lemma {:induction false} ChainInRows(tasks: seq<Task>, blocks: nat)
    requires Chain(tasks, blocks)
    ensures Chain(AllInRows(tasks), blocks * 64)
  {
    hide AllInRows;
  }

  /** execute_native_parallel, the threads in any order: the same total as execute_native. */
  method ExecuteNativeParallel(planes: seq<Word>, blocks: nat, schema: seq<string>, logic: Logic, threads: int,
      defaultThreads: nat, ghost root: nat)
    returns (total: U64)
    requires NativeOk(planes, blocks, schema, logic, root) && (threads > 0 || defaultThreads > 0)
    ensures GoalFits(logic.m.plan.p, root, logic.goal)
    ensures total == Wrap(Total(logic.m.plan.p, root, logic.goal, NativeTable(planes, schema), 0, blocks * 64))
    ensures forall t :: SlicedFrom(planes, blocks, schema, t) ==>
      total == Wrap(Total(logic.m.plan.p, root, logic.goal, t, 0, blocks * 64))
  {
    hide KernelOk, GoalFits, Total, Wrap, NativeTable, SlicedFrom;
    GoalInPool(logic, root);
    var n := if threads <= 0 then defaultThreads else threads;
    var index := SchemaIndices(schema, logic.m.plan.names);
    var tasks := SplitBlocks(blocks, n);
    var results := RunAllBlocks(planes, blocks, schema, tasks, index, logic, root);
    total := AddUp(results);
    ChainInRows(tasks, blocks);
    SumOfParts(logic.m.plan.p, root, logic.goal, NativeTable(planes, schema), AllInRows(tasks), blocks * 64, results);
    forall t | SlicedFrom(planes, blocks, schema, t)
      ensures total == Wrap(Total(logic.m.plan.p, root, logic.goal, t, 0, blocks * 64))
    {
      SlicedTotal(planes, blocks, schema, logic, root, t);
    }
  }

  method RunAllBlocks(planes: seq<Word>, blocks: nat, schema: seq<string>, tasks: seq<Task>, index: seq<nat>,
      logic: Logic, ghost root: nat)
    returns (results: seq<U64>)
    requires NativeOk(planes, blocks, schema, logic, root) && IndicesOk(index, logic.m.plan.names, schema)
    requires Chain(tasks, blocks)
    ensures GoalFits(logic.m.plan.p, root, logic.goal)
    ensures PartsDone(logic.m.plan.p, root, logic.goal, NativeTable(planes, schema), AllInRows(tasks), results)
  {
    hide KernelOk, GoalFits, Total, Wrap, NativeTable, BlocksTotal, NativeOk, AllInRows;
    NativeGoal(planes, blocks, schema, logic, root);
    var slots := new U64[|tasks|](i => 0);
    var pending := UpTo(|tasks|);
    while pending != {}
      invariant forall i :: i in pending ==> 0 <= i < |tasks|
      invariant forall i: nat :: i < |tasks| && i !in pending ==>
        slots[i] == Wrap(BlocksTotal(planes, schema, logic, root, tasks[i].start, tasks[i].end))
      decreases pending
    {
      var i :| i in pending;
      EndBelow(tasks, blocks, i);
      var count := RunBlocks(planes, blocks, schema, tasks[i].start, tasks[i].end, index, logic, root);
      slots[i] := count;
      pending := pending - {i};
    }
    results := slots[..];
    forall i | 0 <= i < |tasks|
      ensures
        var rows := AllInRows(tasks)[i];
        && rows.start <= rows.end
        && results[i] == Wrap(Total(logic.m.plan.p, root, logic.goal, NativeTable(planes, schema), rows.start,
          rows.end - rows.start))
    {
      RowsOfBlocks(planes, schema, logic, root, tasks[i]);
    }
  }

  lemma {:induction false} RowsOfBlocks(planes: seq<Word>, schema: seq<string>, logic: Logic, root: nat, task: Task)
    requires GoalFits(logic.m.plan.p, root, logic.goal) && task.start <= task.end
    ensures BlocksTotal(planes, schema, logic, root, task.start, task.end) ==
      Total(logic.m.plan.p, root, logic.goal, NativeTable(planes, schema), InRows(task).start,
        InRows(task).end - InRows(task).start)
  {
    assert task.end * 64 - task.start * 64 == (task.end - task.start) * 64;
  }

  lemma {:induction false} NativeGoal(planes: seq<Word>, blocks: nat, schema: seq<string>, logic: Logic, root: nat)
    requires NativeOk(planes, blocks, schema, logic, root)
    ensures GoalFits(logic.m.plan.p, root, logic.goal)
  {
  }

  lemma {:induction false} EndBelow(tasks: seq<Task>, n: nat, i: nat)
    requires Chain(tasks, n) && i < |tasks|
    ensures tasks[i].start <= tasks[i].end <= n
  {
    if i < |tasks| - 1 {
      StartsOrdered(tasks, n, i, |tasks| - 1);
    }
  }
}
