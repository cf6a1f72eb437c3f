/**
 ParallelRunner (src/compute/parallel_runner.cpp): each worker runs the kernel over its
 own range of rows with its own buffers; the range results are added up.
 */
module ParallelRunner {
  import opened Words
  import opened Machine
  import opened Ir
  import opened Scratchpad
  import opened Codegen
  import opened Aggregation
  import opened Table
  import opened Gather
  import opened Chunks
  import opened Engine
  import opened Ranges

  const WORKER_FIELDS: nat := 32
  const WORKER_SLOTS: nat := 262144

  // ----- the worker's own gather -----

  /** One field, row by row, then zero padding. */
  method GatherRows(mem: Memory, base: int, stride: nat, offset: nat, rows: nat, out: Buffer)
    requires out.Length == 64 && rows <= 64
    modifies out
    ensures Gathered(out[..], mem, base, stride, offset, rows)
  {
    var r := 0;
    while r < rows
      invariant 0 <= r <= rows
      invariant forall x: nat :: x < r ==> out[x] == ToWord(mem(base + x * stride + offset))
    {
      out[r] := ToWord(mem(base + r * stride + offset));
      r := r + 1;
    }
    ZeroPad(out, rows);
  }

  method ZeroPad(out: Buffer, rows: nat)
    requires out.Length == 64 && rows <= 64
    modifies out
    ensures forall x :: 0 <= x < rows ==> out[x] == old(out[x])
  {
    var r := rows;
    while r < 64
      invariant rows <= r <= 64
      invariant forall x :: 0 <= x < rows ==> out[x] == old(out[x])
    {
      out[r] := {};
      r := r + 1;
    }
  }

  /** The first five fields of a full block, four rows at a time. */
  method GatherFiveFull(mem: Memory, base: int, stride: nat, bufs: seq<Buffer>)
    requires BuffersOk(bufs)
    modifies bufs[0], bufs[1], bufs[2], bufs[3], bufs[4]
    ensures forall k: nat :: k < 5 ==> Gathered(bufs[k][..], mem, base, stride, 8 * k, 64)
  {
    hide FiveUpTo, ToWord;
    NoneYet(bufs, mem, base, stride);
    var r := 0;
    while r < 64
      invariant 0 <= r <= 64 && r % 4 == 0 && FiveUpTo(bufs, mem, base, stride, r)
    {
      var cb0 := base + r * stride;
      var cb1 := cb0 + stride;
      var cb2 := cb1 + stride;
      var cb3 := cb2 + stride;
      RowsApart(base, stride, r);
      StoreFive(mem, base, stride, cb0, r, bufs);
      StoreFive(mem, base, stride, cb1, r + 1, bufs);
      StoreFive(mem, base, stride, cb2, r + 2, bufs);
      StoreFive(mem, base, stride, cb3, r + 3, bufs);
      r := r + 4;
    }
    FiveGathered(bufs, mem, base, stride, 64);
  }

  lemma {:induction false} RowsApart(base: int, stride: nat, r: nat)
    ensures base + (r + 1) * stride == base + r * stride + stride
    ensures base + (r + 2) * stride == base + r * stride + stride + stride
    ensures base + (r + 3) * stride == base + r * stride + stride + stride + stride
  {
  }

  /** Zero the lanes beyond the last row, then slice. */
  method PadAndSlice(mem: Memory, base: int, stride: nat, offset: nat, rows: nat, buf: Buffer)
    returns (planes: seq<Word>, ghost raw: seq<Word>)
    requires buf.Length == 64 && Gathered(buf[..], mem, base, stride, offset, rows)
    modifies buf
    ensures FieldSliced(planes, raw, mem, base, stride, At(offset), rows)
  {
    ZeroPad(buf, rows);
    planes, raw := SliceGathered(buf);
  }

  /** The five-field fast path of a worker. */
  method SliceFrontFive(mem: Memory, base: int, stride: nat, rows: nat, fields: seq<Offset>, bufs: seq<Buffer>)
    returns (planes: seq<seq<Word>>, ghost raws: seq<seq<Word>>)
    requires BuffersOk(bufs) && FiveInFront(fields) && rows <= 64
    modifies bufs
    ensures |planes| == |raws| == 5
    ensures forall k :: 0 <= k < 5 ==> FieldSliced(planes[k], raws[k], mem, base, stride, fields[k], rows)
  {
    hide Gathered, FieldSliced;
    if rows == 64 {
      GatherFiveFull(mem, base, stride, bufs);
    } else {
      GatherFive(mem, base, stride, rows, bufs);
    }
    planes, raws := [], [];
    var i := 0;
    while i < 5
      invariant |planes| == |raws| == i <= 5
      invariant forall k :: 0 <= k < i ==> FieldSliced(planes[k], raws[k], mem, base, stride, fields[k], rows)
      invariant forall k: nat :: i <= k < 5 ==> Gathered(bufs[k][..], mem, base, stride, 8 * k, rows)
    {
      var p: seq<Word>;
      ghost var r: seq<Word>;
      assert fields[i] == At(8 * i);
      p, r := PadAndSlice(mem, base, stride, 8 * i, rows, bufs[i]);
      planes, raws := planes + [p], raws + [r];
      i := i + 1;
    }
  }

  /** Gather and slice every field of a chunk in a worker's buffers. */
  method SliceForWorker(mem: Memory, base: int, stride: nat, rows: nat, fields: seq<Offset>, bufs: seq<Buffer>)
    returns (planes: seq<seq<Word>>, ghost raws: seq<seq<Word>>)
    requires BuffersOk(bufs) && |fields| <= |bufs| && rows <= 64 && forall k :: 0 <= k < |fields| ==> fields[k].At?
    modifies bufs
    ensures |planes| == |raws| == |fields|
    ensures forall k :: 0 <= k < |fields| ==> FieldSliced(planes[k], raws[k], mem, base, stride, fields[k], rows)
  {
    planes, raws := [], [];
    if FiveInFront(fields) {
      planes, raws := SliceFrontFive(mem, base, stride, rows, fields, bufs);
    }
    var i := |planes|;
    while i < |fields|
      invariant |planes| == |raws| == i <= |fields|
      invariant forall k :: 0 <= k < i ==> FieldSliced(planes[k], raws[k], mem, base, stride, fields[k], rows)
    {
      var p: seq<Word>;
      ghost var r: seq<Word>;
      GatherRows(mem, base, stride, fields[i].offset, rows, bufs[i]);
      p, r := SliceGathered(bufs[i]);
      planes, raws := planes + [p], raws + [r];
      i := i + 1;
    }
  }

  // ----- one worker -----

  /** One chunk of a worker: the scratchpad still holds what the chunk before left. */
  method WorkerChunk(mem: Memory, stride: nat, g: nat, n: nat, logic: Logic, bufs: seq<Buffer>, scratch: seq<Word>,
                     ghost root: nat, ghost t: Table)
    returns (x0: Word, left: seq<Word>)
    requires BuffersOk(bufs) && |bufs| == WORKER_FIELDS && n <= 64 && t.mem == mem && t.stride == stride
    requires LogicOk(logic, root, t.offsets) && |logic.fields| <= WORKER_FIELDS && |scratch| >= MAX_SLOTS
    modifies bufs
    ensures ChunkResult(logic, root, t, g, n, x0, left) && |left| == |scratch|
  {
    FieldsPresent(logic, root, t.offsets);
    hide LogicOk, ChunkResult, FieldSliced;
    var planes: seq<seq<Word>>;
    ghost var raws: seq<seq<Word>>;
    planes, raws := SliceForWorker(mem, g * stride, stride, n, logic.fields, bufs);
    var junk, flags := CallerRegisters();
    var s := Entry(junk, flags, planes, scratch);
    ChunkCorrect(logic, root, t, g, n, planes, raws, s);
    var out := ExecStream(logic.m.instrs, s);
    x0, left := out.regs[0].w, out.scratch;
  }

  lemma {:induction false} FieldsPresent(logic: Logic, root: nat, offsets: map<string, nat>)
    requires LogicOk(logic, root, offsets)
    ensures GoalFits(logic.m.plan.p, root, logic.goal)
    ensures forall k :: 0 <= k < |logic.fields| ==> logic.fields[k].At?
  {
    LogicFits(logic, root, offsets);
    hide Supported, KernelCode;
    forall k | 0 <= k < |logic.fields|
      ensures logic.fields[k].At?
    {
      assert logic.fields[k] == At(offsets[logic.m.plan.names[k]]);
    }
  }

  /** worker_thread: the total of its range, or 0 when the kernel reads no field. */
  method WorkerThread(mem: Memory, stride: nat, task: Task, logic: Logic, ghost root: nat, ghost t: Table)
    returns (count: U64)
    requires LogicOk(logic, root, t.offsets) && |logic.fields| <= WORKER_FIELDS && t.mem == mem && t.stride == stride
    requires task.start <= task.end && LaneZero(task.start)
    ensures GoalFits(logic.m.plan.p, root, logic.goal)
    ensures logic.fields == [] ==> count == 0
    ensures logic.fields != [] ==>
      count == Wrap(Total(logic.m.plan.p, root, logic.goal, t, task.start, task.end - task.start))
  {
    hide LogicOk, ChunkResult, GoalFits, LaneZero;
    LogicFits(logic, root, t.offsets);
    count := 0;
    if |logic.fields| == 0 {
      return;
    }
    ghost var p, goal := logic.m.plan.p, logic.goal;
    assert count == Wrap(Total(p, root, goal, t, task.start, 0));
    hide Total, Wrap;
    var bufs := NewBuffers(WORKER_FIELDS);
    var scratch := ZeroScratch(WORKER_SLOTS);
    var row := task.start;
    ghost var done := 0;
    while row < task.end
      invariant LaneZero(row) && |scratch| == WORKER_SLOTS
      invariant task.start + done == (if row < task.end then row else task.end)
      invariant count == Wrap(Total(p, root, goal, t, task.start, done))
      decreases task.end - row
    {
      var n := if task.end - row < 64 then task.end - row else 64;
      var x0: Word;
      x0, scratch := WorkerChunk(mem, stride, row, n, logic, bufs, scratch, root, t);
      ghost var before := count;
      count := ReduceUnrolled(logic, x0, scratch, n, count, root, t, row);
      RangeStep(p, root, goal, t, task.start, done, n, before, count);
      NextBlock(row);
      done := done + n;
      row := row + 64;
    }
  }

  lemma {:induction false} NextBlock(row: nat)
    requires LaneZero(row)
    ensures LaneZero(row + 64)
  {
  }

  lemma {:induction false} RangeStep(p: Dag, root: nat, goal: Goal, t: Table, start: nat, done: nat, n: nat,
      before: U64, after: U64)
    requires GoalFits(p, root, goal) && before == Wrap(Total(p, root, goal, t, start, done))
    requires after == Wrap(before + Total(p, root, goal, t, start + done, n))
    ensures after == Wrap(Total(p, root, goal, t, start, done + n))
  {
    hide Total, Wrap;
    TotalSplit(p, root, goal, t, start, done, n);
    WrapAdd(Total(p, root, goal, t, start, done), Total(p, root, goal, t, start + done, n));
  }

  /** The worker's aggregation: weighted counts are added eight at a time. */
  method ReduceUnrolled(logic: Logic, x0: Word, scratch: seq<Word>, n: nat, total: U64, ghost root: nat,
      ghost t: Table, ghost g: nat)
    returns (r: U64)
    requires n <= 64 && LaneZero(g) && GoalFits(logic.m.plan.p, root, logic.goal)
    requires ChunkResult(logic, root, t, g, n, x0, scratch)
    ensures r == Wrap(total + Total(logic.m.plan.p, root, logic.goal, t, g, n))
  {
    if logic.goal.ForestGoal? {
      hide Total, Holds, RowAt, LaneZero, ForestSum, Wrap;
      ghost var p := logic.m.plan.p;
      var base, deltas := logic.goal.base, logic.goal.deltas;
      ghost var words := MasksAt(scratch, logic.slots);
      ForestTotal(p, root, base, deltas, logic.goal.masks, words, t, g, n);
      var sum := AggregateUnrolled(scratch, LowLanes(n), n, base, deltas, logic.slots, 8);
      WrapAdd(ForestSum(base, words, deltas, n), total);
      r := Wrap(total + sum);
    } else {
      r := Reduce(logic, x0, scratch, n, total, root, t, g);
    }
  }

  /** Weighted counts in groups of `step`, then the rest one by one. */
  method AggregateUnrolled(scratch: seq<Word>, rowsMask: Word, rows: nat, base: int, deltas: seq<int>,
      slots: seq<int>, step: nat) returns (r: U64)
    requires rows <= 64 && |slots| == |deltas| && step > 0 && rowsMask == LowLanes(rows)
    requires forall i :: 0 <= i < |slots| ==> 0 <= slots[i] < |scratch|
    ensures r == Wrap(ForestSum(base, MasksAt(scratch, slots), deltas, rows))
  {
    hide LowLanes, CountIn, ForestSum, MasksAt;
    ghost var masks := MasksAt(scratch, slots);
    r := Wrap(base * rows);
    var i := 0;
    while i + step <= |deltas|
      invariant 0 <= i <= |deltas|
      invariant r == Wrap(CountedSum(base, masks[..i], deltas[..i], rows))
    {
      var j := 0;
      while j < step
        invariant 0 <= j <= step && i + step <= |deltas|
        invariant r == Wrap(CountedSum(base, masks[..i + j], deltas[..i + j], rows))
      {
        r := AddCount(scratch, rowsMask, rows, base, deltas, slots, i + j, r);
        j := j + 1;
      }
      i := i + step;
    }
    while i < |deltas|
      invariant 0 <= i <= |deltas|
      invariant r == Wrap(CountedSum(base, masks[..i], deltas[..i], rows))
    {
      r := AddCount(scratch, rowsMask, rows, base, deltas, slots, i, r);
      i := i + 1;
    }
    assert masks[..i] == masks && deltas[..i] == deltas;
    ForestCounted(base, masks, deltas, rows);
  }

  /** One mask's weighted count. */
  method AddCount(scratch: seq<Word>, rowsMask: Word, rows: nat, base: int, deltas: seq<int>, slots: seq<int>,
      i: nat, sum: U64) returns (r: U64)
    requires rows <= 64 && |slots| == |deltas| && i < |deltas| && rowsMask == LowLanes(rows)
    requires forall k :: 0 <= k < |slots| ==> 0 <= slots[k] < |scratch|
    requires sum == Wrap(CountedSum(base, MasksAt(scratch, slots)[..i], deltas[..i], rows))
    ensures r == Wrap(CountedSum(base, MasksAt(scratch, slots)[..i + 1], deltas[..i + 1], rows))
  {
    hide LowLanes, CountIn, MasksAt, Wrap;
    ghost var masks := MasksAt(scratch, slots);
    var pop := |scratch[slots[i]] * rowsMask|;
    CountLanes(scratch[slots[i]], rows);
    assert masks[..i + 1][..i] == masks[..i] && deltas[..i + 1][..i] == deltas[..i];
    WrapAdd(CountedSum(base, masks[..i], deltas[..i], rows), pop * deltas[i]);
    r := Wrap(sum + pop * deltas[i]);
  }

  // ----- all workers -----

  /** An equal share of the rows, rounded down to whole blocks but at least one block. */
  method RowsPerThread(totalRows: nat, threads: nat) returns (rows: nat)
    requires threads > 0
    ensures rows == if totalRows / threads < 64 then 64 else totalRows / threads / 64 * 64
    ensures rows > 0 && LaneZero(rows)
  {
    rows := totalRows / threads / 64 * 64;
    if rows == 0 {
      rows := 64;
    }
  }

  /** The ranges of run: aligned to blocks of 64 rows, one per thread at most, none empty. */
  method SplitRows(totalRows: nat, threads: nat) returns (tasks: seq<Task>)
    requires totalRows > 0 && threads > 0
    ensures Chain(tasks, totalRows) && 0 < |tasks| <= threads
    ensures forall i :: 0 <= i < |tasks| ==> LaneZero(tasks[i].start) && tasks[i].start < tasks[i].end
    ensures
      var share := if totalRows / threads < 64 then 64 else totalRows / threads / 64 * 64;
      && (forall i :: 0 <= i < |tasks| ==> tasks[i].start == i * share)
      && (|tasks| < threads ==> totalRows <= |tasks| * share)
  {
    var rowsPerThread := RowsPerThread(totalRows, threads);
    assert LaneZero(0);
    hide LaneZero, Chain;
    tasks := [];
    NoTasks();
    var t := 0;
    ghost var edge: nat, at: nat := 0, 0;
    while t < threads
      invariant 0 <= t <= threads && |tasks| == t && Chain(tasks, edge)
      invariant at == t * rowsPerThread && LaneZero(at)
      invariant t < threads ==> edge == if at < totalRows then at else totalRows
      invariant t == threads ==> edge == totalRows
      invariant forall i :: 0 <= i < |tasks| ==> LaneZero(tasks[i].start) && tasks[i].start < tasks[i].end
      invariant forall i :: 0 <= i < |tasks| ==> tasks[i].start == i * rowsPerThread
    {
      var start := t * rowsPerThread;
      var end := start + rowsPerThread;
      if end > totalRows || t == threads - 1 {
        end := totalRows;
      }
      if start >= totalRows {
        break;
      }
      AddTask(tasks, start, end);
      tasks := tasks + [Task(start, end)];
      SumAligned(at, rowsPerThread);
      assert (t + 1) * rowsPerThread == at + rowsPerThread;
      at, edge := at + rowsPerThread, end;
      t := t + 1;
    }
    SomeTask(tasks, totalRows);
  }

  lemma {:induction false} NoTasks()
    ensures Chain([], 0)
  {
  }

  lemma {:induction false} SomeTask(tasks: seq<Task>, n: nat)
    requires Chain(tasks, n) && n > 0
    ensures |tasks| > 0
  {
  }

  lemma {:induction false} AddTask(tasks: seq<Task>, start: nat, end: nat)
    requires Chain(tasks, start) && start <= end
    ensures Chain(tasks + [Task(start, end)], end)
  {
  }

  lemma {:induction false} SumAligned(a: nat, b: nat)
    requires LaneZero(a) && LaneZero(b)
    ensures LaneZero(a + b)
  {
  }

  /** What a worker leaves in its slot, in the terms of run. */
  ghost function WorkerResult(logic: Logic, root: nat, t: Table, task: Task): U64
    requires GoalFits(logic.m.plan.p, root, logic.goal) && task.start <= task.end
  {
    if logic.fields == [] then 0
    else Wrap(Total(logic.m.plan.p, root, logic.goal, t, task.start, task.end - task.start))
  }

  /** The pool runs its jobs in any order; each writes its own slot. */
  method RunTasks(mem: Memory, stride: nat, tasks: seq<Task>, logic: Logic, ghost root: nat, ghost t: Table)
    returns (results: seq<U64>)
    requires LogicOk(logic, root, t.offsets) && |logic.fields| <= WORKER_FIELDS && t.mem == mem && t.stride == stride
    requires forall i :: 0 <= i < |tasks| ==> LaneZero(tasks[i].start) && tasks[i].start <= tasks[i].end
    ensures GoalFits(logic.m.plan.p, root, logic.goal) && |results| == |tasks|
    ensures forall i :: 0 <= i < |tasks| ==> results[i] == WorkerResult(logic, root, t, tasks[i])
  {
    hide LogicOk, GoalFits, LaneZero, Total, Wrap, WorkerResult;
    LogicFits(logic, root, t.offsets);
    var slots := new U64[|tasks|](i => 0);
    var pending := UpTo(|tasks|);
    while pending != {}
      invariant forall i :: i in pending ==> 0 <= i < |tasks|
      invariant forall i: nat :: i < |tasks| && i !in pending ==> slots[i] == WorkerResult(logic, root, t, tasks[i])
      decreases pending
    {
      var i :| i in pending;
      var count := WorkerThread(mem, stride, tasks[i], logic, root, t);
      ResultIs(logic, root, t, tasks[i], count);
      slots[i] := count;
      pending := pending - {i};
    }
    results := slots[..];
  }

  lemma {:induction false} ResultIs(logic: Logic, root: nat, t: Table, task: Task, count: U64)
    requires GoalFits(logic.m.plan.p, root, logic.goal) && task.start <= task.end
    requires logic.fields == [] ==> count == 0
    requires logic.fields != [] ==>
      count == Wrap(Total(logic.m.plan.p, root, logic.goal, t, task.start, task.end - task.start))
    ensures count == WorkerResult(logic, root, t, task)
  {
  }

  /** The total of all rows; 0 when the kernel reads no field. */
  ghost function RunResult(logic: Logic, root: nat, t: Table, n: nat): U64
    requires GoalFits(logic.m.plan.p, root, logic.goal)
  {
    if logic.fields == [] then 0 else Wrap(Total(logic.m.plan.p, root, logic.goal, t, 0, n))
  }

  /** run: split, let the pool work, add up. */
  method Run(mem: Memory, stride: nat, totalRows: nat, threads: int, logic: Logic, ghost root: nat, ghost t: Table)
    returns (total: U64)
    requires LogicOk(logic, root, t.offsets) && |logic.fields| <= WORKER_FIELDS && t.mem == mem && t.stride == stride
    ensures GoalFits(logic.m.plan.p, root, logic.goal)
    ensures total == RunResult(logic, root, t, totalRows)
  {
    hide LogicOk, GoalFits, LaneZero;
    LogicFits(logic, root, t.offsets);
    var n := if threads <= 0 then 1 else threads;
    if totalRows == 0 {
      total := 0;
      return;
    }
    hide Total, Wrap;
    var tasks := SplitRows(totalRows, n);
    var results := RunTasks(mem, stride, tasks, logic, root, t);
    total := AddUp(results);
    if logic.fields == [] {
      ZeroSum(results);
    } else {
      SumOfParts(logic.m.plan.p, root, logic.goal, t, tasks, totalRows, results);
    }
  }

  lemma {:induction false} ZeroSum(results: seq<U64>)
    requires forall i :: 0 <= i < |results| ==> results[i] == 0
    ensures AddedUp(results) == 0 && Wrap(AddedUp(results)) == 0
    decreases |results|
  {
    if results != [] {
      ZeroSum(results[..|results| - 1]);
    }
  }
}
