/** Splitting a table into consecutive ranges of rows, and adding up what each part yields. */
module Ranges {
  import opened Words
  import opened Ir
  import opened Aggregation
  import opened Table

  datatype Task = Task(start: nat, end: nat)

  /** Consecutive ranges from row 0 to row n: no gap, no overlap. */
  predicate Chain(tasks: seq<Task>, n: nat) {
    && (tasks == [] ==> n == 0)
    && (tasks != [] ==> tasks[0].start == 0 && tasks[|tasks| - 1].end == n)
    && (forall i :: 0 <= i < |tasks| ==> tasks[i].start <= tasks[i].end)
    && (forall i :: 0 <= i < |tasks| - 1 ==> tasks[i].end == tasks[i + 1].start)
  }

  lemma {:induction false} ChainPrefix(tasks: seq<Task>, n: nat)
    requires Chain(tasks, n) && tasks != []
    ensures Chain(tasks[..|tasks| - 1], tasks[|tasks| - 1].start) && tasks[|tasks| - 1].end == n
  {
  }

  lemma {:induction false} StartsOrdered(tasks: seq<Task>, n: nat, i: nat, j: nat)
    requires Chain(tasks, n) && i < j < |tasks|
    ensures tasks[i].end <= tasks[j].start
    decreases j
  {
    if i < j - 1 {
      StartsOrdered(tasks, n, i, j - 1);
    }
    assert tasks[j - 1].end == tasks[j - 1 + 1].start;
  }

  /** Every row is in one range and in no other. */
  lemma {:induction false} EveryRowOnce(tasks: seq<Task>, n: nat, row: nat) returns (i: nat)
    requires Chain(tasks, n) && row < n
    ensures i < |tasks| && tasks[i].start <= row < tasks[i].end
    ensures forall j: nat :: j < |tasks| && tasks[j].start <= row < tasks[j].end ==> j == i
    decreases |tasks|
  {
    var k := |tasks| - 1;
    if row >= tasks[k].start {
      i := k;
    } else {
      ChainPrefix(tasks, n);
      i := EveryRowOnce(tasks[..k], tasks[k].start, row);
    }
    forall j: nat | j < |tasks| && tasks[j].start <= row < tasks[j].end
      ensures j == i
    {
      if j < i {
        StartsOrdered(tasks, n, j, i);
      } else if i < j {
        StartsOrdered(tasks, n, i, j);
      }
    }
  }

  /** The numbers below n. */
  function UpTo(n: nat): (s: set<nat>)
    ensures forall i: nat :: i in s <==> i < n
  {
    if n == 0 then {} else UpTo(n - 1) + {n - 1}
  }

  // ----- adding up -----

  function AddedUp(results: seq<U64>): nat {
    if results == [] then 0 else AddedUp(results[..|results| - 1]) + results[|results| - 1]
  }

  /** Each part's total is in its place. */
  ghost predicate PartsDone(p: Dag, root: nat, goal: Goal, t: Table, tasks: seq<Task>, results: seq<U64>)
    requires GoalFits(p, root, goal)
  {
    && |results| == |tasks|
    && (forall i :: 0 <= i < |tasks| ==> tasks[i].start <= tasks[i].end)
    && (forall i :: 0 <= i < |tasks| ==>
          results[i] == Wrap(Total(p, root, goal, t, tasks[i].start, tasks[i].end - tasks[i].start)))
  }

  lemma {:induction false} SumOfParts(p: Dag, root: nat, goal: Goal, t: Table, tasks: seq<Task>, n: nat,
      results: seq<U64>)
    requires GoalFits(p, root, goal) && Chain(tasks, n) && PartsDone(p, root, goal, t, tasks, results)
    ensures Wrap(AddedUp(results)) == Wrap(Total(p, root, goal, t, 0, n))
    decreases |tasks|
  {
    hide Total, Wrap, GoalFits, PartsDone, Chain;
    if tasks == [] {
      NoParts(p, root, goal, t, n, results);
    } else {
      var k := |tasks| - 1;
      ChainPrefix(tasks, n);
      PartsPrefix(p, root, goal, t, tasks, results);
      var a, b := tasks[k].start, tasks[k].end;
      SumOfParts(p, root, goal, t, tasks[..k], a, results[..k]);
      TotalSplit(p, root, goal, t, 0, a, b - a);
      WrapSmall(results[k]);
      WrapSum(AddedUp(results[..k]), Total(p, root, goal, t, 0, a), results[k], Total(p, root, goal, t, a, b - a));
    }
  }

  lemma {:induction false} NoParts(p: Dag, root: nat, goal: Goal, t: Table, n: nat, results: seq<U64>)
    requires GoalFits(p, root, goal) && Chain([], n) && PartsDone(p, root, goal, t, [], results)
    ensures AddedUp(results) == 0 == Total(p, root, goal, t, 0, n)
  {
  }

  lemma {:induction false} PartsPrefix(p: Dag, root: nat, goal: Goal, t: Table, tasks: seq<Task>, results: seq<U64>)
    requires GoalFits(p, root, goal) && PartsDone(p, root, goal, t, tasks, results) && tasks != []
    ensures
      var k := |tasks| - 1;
      && |results| == |tasks| && PartsDone(p, root, goal, t, tasks[..k], results[..k]) && tasks[k].start <= tasks[k].end
      && results[k] == Wrap(Total(p, root, goal, t, tasks[k].start, tasks[k].end - tasks[k].start))
  {
    hide Total, Wrap;
  }

  /** The loop that adds up the result slots. */
  method AddUp(results: seq<U64>) returns (total: U64)
    ensures total == Wrap(AddedUp(results))
  {
    total := 0;
    var i := 0;
    while i < |results|
      invariant 0 <= i <= |results| && total == Wrap(AddedUp(results[..i]))
    {
      WrapAdd(AddedUp(results[..i]), results[i]);
      assert results[..i + 1][..i] == results[..i];
      total := Wrap(total + results[i]);
      i := i + 1;
    }
    assert results[..i] == results;
  }
}
