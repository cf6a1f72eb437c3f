/**
 execute in the scalar mode (src/api/engine.cpp): the same blocks of 64 rows, gathered but not
 sliced, and the kernel of compile_scalar_expression run on them.
 */
module ScalarEngine {
  import opened Words
  import opened Machine
  import opened Ir
  import opened Scratchpad
  import opened Layout
  import opened Aggregation
  import opened Table
  import opened Gather
  import opened Chunks
  import opened Engine
  import opened ScalarCompiler

  const FIELD_BUFFERS: nat := 128

  // ----- raw columns -----

  /** Every field of a block in its buffer, by the five-field path where it applies. */
  method GatherFields(mem: Memory, base: int, stride: nat, rows: nat, fields: seq<Offset>, bufs: seq<Buffer>)
    returns (raws: seq<seq<Word>>)
    requires BuffersOk(bufs) && |fields| <= |bufs| && rows <= 64 && forall k :: 0 <= k < |fields| ==> fields[k].At?
    modifies bufs
    ensures |raws| == |fields|
    ensures forall k :: 0 <= k < |fields| ==> Gathered(raws[k], mem, base, stride, fields[k].offset, rows)
  {
    hide Gathered;
    raws := [];
    if FiveInFront(fields) {
      GatherFive(mem, base, stride, rows, bufs);
      while |raws| < 5
        invariant |raws| <= 5
        invariant forall k :: 0 <= k < |raws| ==> Gathered(raws[k], mem, base, stride, fields[k].offset, rows)
        invariant forall k: nat :: k < 5 ==> Gathered(bufs[k][..], mem, base, stride, 8 * k, rows)
      {
        assert fields[|raws|] == At(8 * |raws|);
        raws := raws + [bufs[|raws|][..]];
      }
    }
    while |raws| < |fields|
      invariant |raws| <= |fields|
      invariant forall k :: 0 <= k < |raws| ==> Gathered(raws[k], mem, base, stride, fields[k].offset, rows)
    {
      var k := |raws|;
      GatherField(mem, base, stride, fields[k].offset, rows, bufs[k]);
      raws := raws + [bufs[k][..]];
    }
  }

  /** Gathered buffers are the raw columns of 64 rows whose padding lanes hold whatever the buffers hold. */
  lemma {:induction false} RawColumns(u: ScalarCompiler.Plan, t: Table, g: nat, n: nat, raws: seq<seq<Word>>)
    requires (forall i, j :: 0 <= i < j < |u.names| ==> u.names[i] != u.names[j]) && |raws| == |u.names| && n <= 64
    requires forall k :: 0 <= k < |u.names| ==>
      u.names[k] in t.offsets && Gathered(raws[k], t.mem, g * t.stride, t.stride, t.offsets[u.names[k]], n)
    ensures RawFields(u, ChunkRows(t, g, n, u.names, raws), raws)
  {
    hide ChunkRows, ToWord;
    forall k: nat, r: nat | k < |u.names| && r < 64
      ensures raws[k][r] == ToWord(ChunkRows(t, g, n, u.names, raws)[r](u.names[k]))
    {
      RawLane(t, g, n, u.names, raws, k, r);
    }
  }

  // ----- running a program -----

  lemma {:induction false} Halted(lines: seq<Line>, c: Cpu, k: nat)
    requires c.pc >= |lines|
    ensures RunLines(lines, c, k) == c
  {
    if k > 0 {
      Halted(lines, c, k - 1);
    }
  }

  /** Line after line until the program stops. */
  method RunProgram(lines: seq<Line>, s: State, ghost steps: nat) returns (out: State)
    requires RunLines(lines, Cpu(0, s), steps).pc >= |lines|
    ensures out == RunLines(lines, Cpu(0, s), steps).st
  {
    hide StepLine;
    var c := Cpu(0, s);
    ghost var k := 0;
    NoLines(lines, c);
    while c.pc < |lines|
      invariant k <= steps && c == RunLines(lines, Cpu(0, s), k)
      decreases steps - k
    {
      c := StepLine(lines, c);
      k := k + 1;
    }
    RunLinesAgain(lines, Cpu(0, s), k, steps - k);
    Halted(lines, c, steps - k);
    out := c.st;
  }

  // ----- one block -----

  ghost predicate RightBits(p: Dag, root: nat, t: Table, g: nat, n: nat, w: Word)
    requires root < |p|
  {
    forall r: nat :: r < n && r < 64 ==>
      (r in w <==> (Holds(p, root, RowAt(t, g + r), true) <==> Nots(p, root) % 2 == 0))
  }

  /** An expression the scalar compiler gets right up to the parity of the NOTs on top. */
  ghost predicate ScalarOk(p: Dag, root: nat, offsets: map<string, nat>) {
    && root < |p| && WellTyped(p, root) && IsMask(p[root].op) && NotFree(p, Core(p, root))
    && |Order(p, root)| <= MAX_SLOTS && |MakePlan(p, root).names| <= FIELD_BUFFERS
    && forall f :: f in MakePlan(p, root).names ==> f in offsets
  }

  lemma {:induction false} IsOk(p: Dag, root: nat, offsets: map<string, nat>)
    requires root < |p| && WellTyped(p, root) && IsMask(p[root].op) && NotFree(p, Core(p, root))
    requires |Order(p, root)| <= 32768 && (forall i :: i in Order(p, root) ==> i < |p|)
    requires |FieldNames(p, Order(p, root))| <= 128 && forall f :: f in FieldNames(p, Order(p, root)) ==> f in offsets
    ensures ScalarOk(p, root, offsets)
  {
    hide Order, FieldNames, WellTyped, NotFree, Core, SlotMap;
  }

  lemma {:induction false} BlockRuns(p: Dag, root: nat, t: Table, g: nat, n: nat, raws: seq<seq<Word>>, s: State)
    returns (steps: nat)
    requires ScalarOk(p, root, t.offsets) && n <= 64 && |raws| == |MakePlan(p, root).names|
    requires forall k :: 0 <= k < |raws| ==>
      && MakePlan(p, root).names[k] in t.offsets
      && Gathered(raws[k], t.mem, g * t.stride, t.stride, t.offsets[MakePlan(p, root).names[k]], n)
    requires s.Run? && s.fields == raws && |s.scratch| >= MAX_SLOTS
    requires s.regs[0] == P(FieldTable, 0) && s.regs[1] == P(Scratch, 0)
    ensures InPool(MakePlan(p, root))
    ensures
      var u := MakePlan(p, root);
      var lines := Program(Stream(Body(u)));
      && RunLines(lines, Cpu(0, s), steps) == Cpu(|lines|, RunScalar(u, s))
      && RunScalar(u, s).Run? && RunScalar(u, s).regs[0].W? && RightBits(p, root, t, g, n, RunScalar(u, s).regs[0].w)
  {
    hide RunScalar, Program, Body, RunLines, WellTyped, NotFree, Nots, Core, ChunkRows, RawFields, Holds, RowWords,
      Gathered;
    var u := MakePlan(p, root);
    PlanNames(p, root);
    RawColumns(u, t, g, n, raws);
    var rows := ChunkRows(t, g, n, u.names, raws);
    assert Called(u, rows, s);
    MaskRoot(p, root);
    steps := ScalarReturns(p, root, rows, s);
    ScalarMask(p, root, rows, s);
    RowsAreRows(t, g, n, u.names, raws);
  }

  lemma {:induction false} RowsAreRows(t: Table, g: nat, n: nat, names: seq<string>, raws: seq<seq<Word>>)
    ensures forall r: nat :: r < n && r < 64 ==> ChunkRows(t, g, n, names, raws)[r] == RowAt(t, g + r)
  {
    hide RowAt;
  }

  lemma {:induction false} MaskRoot(p: Dag, root: nat)
    requires root < |p| && IsMask(p[root].op)
    ensures !IsLeaf(p[root].op)
  {
  }

  lemma {:induction false} PlanNames(p: Dag, root: nat)
    requires root < |p|
    ensures
      var names := MakePlan(p, root).names;
      forall i, j :: 0 <= i < j < |names| ==> names[i] != names[j]
  {
    hide SlotMap;
    OrderIsTopological(p, root);
    FieldNamesCover(p, Order(p, root));
  }

  // ----- all blocks -----

  /** The first n rows that the kernel reports. */
  ghost function Reports(p: Dag, root: nat, t: Table, n: nat): nat
    requires root < |p|
  {
    if n == 0 then 0
    else Reports(p, root, t, n - 1) + BitValue(Holds(p, root, RowAt(t, n - 1), true) <==> Nots(p, root) % 2 == 0)
  }

  /** With an even number of NOTs on top the rows that satisfy the expression, with an odd number the others. */
  lemma {:induction false} ReportedRows(p: Dag, root: nat, t: Table, n: nat)
    requires root < |p|
    ensures Reports(p, root, t, n) ==
      if Nots(p, root) % 2 == 0 then Matches(p, root, t, n) else n - Matches(p, root, t, n)
  {
    hide Holds, RowAt, Nots;
    if n > 0 {
      ReportedRows(p, root, t, n - 1);
    }
  }

  lemma {:induction false} BlockReports(p: Dag, root: nat, t: Table, g: nat, n: nat, w: Word)
    requires root < |p| && n <= 64 && RightBits(p, root, t, g, n, w)
    ensures CountIn(w, n) == Reports(p, root, t, g + n) - Reports(p, root, t, g)
    decreases n
  {
    hide Holds, RowAt, Nots;
    if n > 0 {
      BlockReports(p, root, t, g, n - 1, w);
      assert g + n - 1 == g + (n - 1);
    }
  }

  lemma {:induction false} FieldsFound(names: seq<string>, offsets: map<string, nat>, fields: seq<Offset>)
    requires FieldsCollected(fields, names, offsets) && |fields| == |names| && forall f :: f in names ==> f in offsets
    ensures forall k :: 0 <= k < |fields| ==> names[k] in offsets && fields[k] == At(offsets[names[k]])
  {
    forall k | 0 <= k < |fields|
      ensures names[k] in offsets && fields[k] == At(offsets[names[k]])
    {
      assert names[k] in names && fields[k] == FieldAt(names, offsets, k);
    }
  }

  /** One block: gather, call the kernel, and keep its word. */
  method ScalarBlock(p: Dag, root: nat, lines: seq<Line>, mem: Memory, stride: nat, offsets: map<string, nat>,
      fields: seq<Offset>, bufs: seq<Buffer>, g: nat, n: nat)
    returns (w: Word)
    requires ScalarOk(p, root, offsets) && n <= 64 && BuffersOk(bufs) && |bufs| == FIELD_BUFFERS
    requires InPool(MakePlan(p, root)) && lines == Program(Stream(Body(MakePlan(p, root))))
    requires |fields| == |MakePlan(p, root).names| && forall k :: 0 <= k < |fields| ==>
      MakePlan(p, root).names[k] in offsets && fields[k] == At(offsets[MakePlan(p, root).names[k]])
    modifies bufs
    ensures RightBits(p, root, Table(mem, stride, offsets), g, n, w)
  {
    hide Program, Body, RunLines, RunScalar, RightBits, MakePlan;
    var raws := GatherFields(mem, g * stride, stride, n, fields, bufs);
    var scratch := ZeroScratch(MAX_SLOTS);
    var junk, flags := CallerRegisters();
    var s := Entry(junk, flags, raws, scratch);
    ghost var steps := BlockRuns(p, root, Table(mem, stride, offsets), g, n, raws, s);
    var out := RunProgram(lines, s, steps);
    w := out.regs[0].w;
  }

  /** execute in the scalar mode, for a mask: the number of rows that the kernel reports. */
  method ExecuteScalar(p: Dag, root: nat, stride: nat, offsets: map<string, nat>, mem: Memory, n: nat)
    returns (total: U64)
    requires root < |p| && WellTyped(p, root) && IsMask(p[root].op) && NotFree(p, Core(p, root))
    requires |Order(p, root)| <= 32768 && (forall i :: i in Order(p, root) ==> i < |p|)
    requires |FieldNames(p, Order(p, root))| <= 128 && forall f :: f in FieldNames(p, Order(p, root)) ==> f in offsets
    ensures
      var matches := Matches(p, root, Table(mem, stride, offsets), n);
      total == Wrap(if Nots(p, root) % 2 == 0 then matches else n - matches)
  {
    hide Program, Body, RightBits, MakePlan, Holds, RowAt, Nots, WellTyped, NotFree, Core, Order, FieldNames;
    IsOk(p, root, offsets);
    var u, lines := CompileScalar(p, root);
    var fields := CollectFields(u.names, offsets);
    FieldsFound(u.names, offsets, fields);
    var bufs := NewBuffers(FIELD_BUFFERS);
    ghost var t := Table(mem, stride, offsets);
    total := 0;
    assert total == Wrap(Reports(p, root, t, 0));
    hide Wrap, Reports;
    var chunk := 0;
    ghost var done := 0;
    while chunk * 64 < n
      invariant 0 <= chunk && done <= n && done == if chunk * 64 < n then chunk * 64 else n
      invariant total == Wrap(Reports(p, root, t, done))
      decreases n - done
    {
      var k := if n - chunk * 64 < 64 then n - chunk * 64 else 64;
      var w := ScalarBlock(p, root, lines, mem, stride, offsets, fields, bufs, chunk * 64, k);
      BlockReports(p, root, t, chunk * 64, k, w);
      CountLanes(w, k);
      WrapAdd(Reports(p, root, t, done), |w * LowLanes(k)|);
      total := Wrap(total + |w * LowLanes(k)|);
      done := done + k;
      chunk := chunk + 1;
    }
    ReportedRows(p, root, t, n);
  }
}
