/**
 The body of run between enqueue and the final loop (src/compute/parallel_runner.cpp): the
 ranges go to the shared pool, and what wait_all leaves in their slots is the whole total.
 */
module PooledRun {
  import opened Words
  import opened Table
  import opened Chunks
  import opened Ranges
  import opened ParallelRunner
  import ThreadPool

  /** Task ids[i] of the pool computes range i. */
  ghost predicate Enqueued(logic: Logic, root: nat, t: Table, tasks: seq<Task>, value: nat -> int, ids: seq<nat>)
    requires GoalFits(logic.m.plan.p, root, logic.goal)
  {
    && |ids| == |tasks|
    && (forall i :: 0 <= i < |tasks| ==> tasks[i].start <= tasks[i].end)
    && (forall i :: 0 <= i < |tasks| ==> value(ids[i]) == WorkerResult(logic, root, t, tasks[i]))
  }

  /** The slots of the first k ranges. */
  ghost function Slots(logic: Logic, root: nat, t: Table, tasks: seq<Task>, k: nat): (results: seq<U64>)
    requires GoalFits(logic.m.plan.p, root, logic.goal) && k <= |tasks|
    requires forall i :: 0 <= i < |tasks| ==> tasks[i].start <= tasks[i].end
    ensures |results| == k && forall i :: 0 <= i < k ==> results[i] == WorkerResult(logic, root, t, tasks[i])
  {
    if k == 0 then [] else Slots(logic, root, t, tasks, k - 1) + [WorkerResult(logic, root, t, tasks[k - 1])]
  }

  lemma {:induction false} SlotsAddUp(logic: Logic, root: nat, t: Table, tasks: seq<Task>, n: nat, results: seq<U64>)
    requires GoalFits(logic.m.plan.p, root, logic.goal) && Chain(tasks, n) && |results| == |tasks|
    requires forall i :: 0 <= i < |tasks| ==> results[i] == WorkerResult(logic, root, t, tasks[i])
    ensures Wrap(AddedUp(results)) == RunResult(logic, root, t, n)
  {
    hide Total, Wrap, GoalFits;
    if logic.fields == [] {
      ZeroSum(results);
    } else {
      SumOfParts(logic.m.plan.p, root, logic.goal, t, tasks, n, results);
    }
  }

  /**
   In every interleaving of the shared pool, other callers included: once the caller's wait_all has returned,
   the slots of its ranges hold numbers that add up to the whole total modulo 2^64.
   */
  lemma {:induction false} WaitedTotal(
      logic: Logic, root: nat, t: Table, tasks: seq<Task>, n: nat, value: nat -> int, ids: seq<nat>,
      tr: seq<ThreadPool.Pool>, k: nat, w: nat)
    returns (results: seq<U64>)
    requires GoalFits(logic.m.plan.p, root, logic.goal) && Chain(tasks, n)
    requires Enqueued(logic, root, t, tasks, value, ids)
    requires ThreadPool.Run(value, tr) && k < |tr| && w < |tr[k].waiters| && tr[k].waiters[w].Returned?
    requires forall i :: 0 <= i < |ids| ==> ids[i] < tr[k].waiters[w].seen
    ensures |results| == |tasks|
    ensures forall i :: 0 <= i < |tasks| ==> ids[i] in tr[k].results && results[i] == tr[k].results[ids[i]]
    ensures Wrap(AddedUp(results)) == RunResult(logic, root, t, n)
  {
    hide Wrap, GoalFits, WorkerResult, RunResult, ThreadPool.Run;
    results := Slots(logic, root, t, tasks, |tasks|);
    forall i | 0 <= i < |tasks|
      ensures ids[i] in tr[k].results && results[i] == tr[k].results[ids[i]]
    {
      ThreadPool.WaitedForAll(value, tr, k, w, ids[i]);
    }
    SlotsAddUp(logic, root, t, tasks, n, results);
  }

  function Counting(n: nat): (ids: seq<nat>)
    ensures |ids| == n && forall i :: 0 <= i < n ==> ids[i] == i
  {
    if n == 0 then [] else Counting(n - 1) + [n - 1]
  }

  /** Such interleavings exist: a new pool of any size takes the ranges and lets wait_all return. */
  lemma {:induction false} PoolDelivers(logic: Logic, root: nat, t: Table, tasks: seq<Task>, n: nat, threads: nat)
    returns (value: nat -> int, tr: seq<ThreadPool.Pool>, w: nat, results: seq<U64>)
    requires GoalFits(logic.m.plan.p, root, logic.goal) && Chain(tasks, n) && threads > 0
    ensures ThreadPool.Run(value, tr) && |tr[0].workers| == threads
    ensures w < |tr[|tr| - 1].waiters| && tr[|tr| - 1].waiters[w] == ThreadPool.Returned(|tasks|)
    ensures |results| == |tasks| && Wrap(AddedUp(results)) == RunResult(logic, root, t, n)
    ensures forall i :: 0 <= i < |tasks| ==>
      i in tr[|tr| - 1].results && results[i] == tr[|tr| - 1].results[i] && tr[|tr| - 1].results[i] == value(i)
  {
    hide Wrap, GoalFits, WorkerResult, RunResult, ThreadPool.Step, ThreadPool.Inv;
    var slots := Slots(logic, root, t, tasks, |tasks|);
    value := (x: nat) => if x < |slots| then slots[x] else 0;
    var s := ThreadPool.NewPool(value, threads);
    tr, w := ThreadPool.SubmitAndWait(value, s, |tasks|);
    results := WaitedTotal(logic, root, t, tasks, n, value, Counting(|tasks|), tr, |tr| - 1, w);
  }
}
