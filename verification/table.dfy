/**
 Row-major input data, and what an expression adds up to over its rows. Reading a
 field is one eight-byte load at base + row * stride + offset.
 */
module Table {
  import opened Words
  import opened Ir

  /** The eight-byte loads that a caller's buffer answers. */
  type Memory = int -> U64

  datatype Table = Table(mem: Memory, stride: nat, offsets: map<string, nat>)

  /** Row g of the table, by field name. */
  function RowAt(t: Table, g: nat): Row {
    (f: string) => if f in t.offsets then t.mem(g * t.stride + t.offsets[f]) else 0
  }

  /** What the rows are reduced to. Forest masks are node indices. */
  datatype Goal =
    | MaskGoal
    | PlaneGoal
    | ForestGoal(base: int, deltas: seq<int>, masks: seq<nat>)

  predicate GoalFits(p: Dag, root: nat, goal: Goal) {
    root < |p| && (goal.ForestGoal? ==>
      |goal.deltas| == |goal.masks| && forall i :: 0 <= i < |goal.masks| ==> goal.masks[i] < |p|)
  }

  /** The deltas of the masks that hold on a row. */
  function DeltaSum(p: Dag, deltas: seq<int>, masks: seq<nat>, row: Row, exact: bool): int
    requires |deltas| == |masks| && forall i :: 0 <= i < |masks| ==> masks[i] < |p|
  {
    if masks == [] then 0
    else
      var k := |masks| - 1;
      DeltaSum(p, deltas[..k], masks[..k], row, exact) + if Holds(p, masks[k], row, exact) then deltas[k] else 0
  }

  /** What one row adds to the result. */
  function Contribution(p: Dag, root: nat, goal: Goal, row: Row, exact: bool): int
    requires GoalFits(p, root, goal)
  {
    match goal
    case MaskGoal => if Holds(p, root, row, exact) then 1 else 0
    case PlaneGoal => Value(p, root, row, exact)
    case ForestGoal(base, deltas, masks) => base + DeltaSum(p, deltas, masks, row, exact)
  }

  /** A row is exact for SUB when it sits in lane 0 of its block of 64. */
  predicate LaneZero(g: nat) {
    g % 64 == 0
  }

  /** The blocks that n rows touch: the rows among them that sit in lane 0. */
  function LaneZeroRows(n: nat): (k: nat)
    ensures k <= n
  {
    if n == 0 then 0 else LaneZeroRows(n - 1) + if LaneZero(n - 1) then 1 else 0
  }

  /** The n rows from row `from` on. */
  function Total(p: Dag, root: nat, goal: Goal, t: Table, from: nat, n: nat): int
    requires GoalFits(p, root, goal)
  {
    if n == 0 then 0
    else
      var g := from + n - 1;
      Total(p, root, goal, t, from, n - 1) + Contribution(p, root, goal, RowAt(t, g), LaneZero(g))
  }

  lemma {:induction false} TotalSplit(p: Dag, root: nat, goal: Goal, t: Table, from: nat, a: nat, b: nat)
    requires GoalFits(p, root, goal)
    ensures Total(p, root, goal, t, from, a + b) ==
      Total(p, root, goal, t, from, a) + Total(p, root, goal, t, from + a, b)
    decreases b
  {
    if b > 0 {
      TotalSplit(p, root, goal, t, from, a, b - 1);
      assert from + (a + b) - 1 == (from + a) + b - 1;
    }
  }

  /** How many of the first n rows satisfy a mask expression. */
  function Matches(p: Dag, root: nat, t: Table, n: nat): nat
    requires root < |p|
  {
    if n == 0 then 0
    else Matches(p, root, t, n - 1) + if Holds(p, root, RowAt(t, n - 1), true) then 1 else 0
  }

  /** The promised sum of a plane expression over the first n rows. */
  function ValueSum(p: Dag, root: nat, t: Table, n: nat): nat
    requires root < |p|
  {
    if n == 0 then 0
    else ValueSum(p, root, t, n - 1) + Value(p, root, RowAt(t, n - 1), true)
  }

  /** Without SUB, the total over the rows is the promised one. */
  lemma {:induction false} ExactTotals(p: Dag, root: nat, t: Table, n: nat)
    requires root < |p| && SubFree(p, root)
    ensures Total(p, root, MaskGoal, t, 0, n) == Matches(p, root, t, n)
    ensures Total(p, root, PlaneGoal, t, 0, n) == ValueSum(p, root, t, n)
  {
    if n > 0 {
      ExactTotals(p, root, t, n - 1);
      SubFreeIsExact(p, root, RowAt(t, n - 1));
    }
  }

  lemma {:induction false} MatchesBound(p: Dag, root: nat, t: Table, n: nat)
    requires root < |p|
    ensures Matches(p, root, t, n) <= n
  {
    if n > 0 {
      MatchesBound(p, root, t, n - 1);
    }
  }

  // ----- totals without a recursive definition -----

  /** A field is read at its offset in the row. */
  lemma {:induction false} FieldAtOffset(t: Table, g: nat, f: string)
    requires f in t.offsets
    ensures RowAt(t, g)(f) == t.mem(g * t.stride + t.offsets[f])
  {
  }

  /** Nothing to add up without rows; each further row adds its contribution, exact in lane 0 of its block of 64. */
  lemma {:induction false} TotalGrows(p: Dag, root: nat, goal: Goal, t: Table, from: nat, n: nat)
    requires GoalFits(p, root, goal)
    ensures Total(p, root, goal, t, from, 0) == 0
    ensures Total(p, root, goal, t, from, n + 1) ==
      Total(p, root, goal, t, from, n) + Contribution(p, root, goal, RowAt(t, from + n), (from + n) % 64 == 0)
    ensures Contribution(p, root, MaskGoal, RowAt(t, from + n), (from + n) % 64 == 0) ==
      if Holds(p, root, RowAt(t, from + n), (from + n) % 64 == 0) then 1 else 0
    ensures Contribution(p, root, PlaneGoal, RowAt(t, from + n), (from + n) % 64 == 0) ==
      Value(p, root, RowAt(t, from + n), (from + n) % 64 == 0)
  {
    hide Holds, Value, DeltaSum, RowAt;
  }

  /** The total of a mask is the number of rows on which it holds. */
  lemma {:induction false} MaskRows(p: Dag, root: nat, t: Table, n: nat) returns (rows: set<nat>)
    requires root < |p|
    ensures Total(p, root, MaskGoal, t, 0, n) == |rows|
    ensures forall g: nat :: g in rows <==> g < n && Holds(p, root, RowAt(t, g), g % 64 == 0)
  {
    hide Holds, RowAt;
    if n == 0 {
      rows := {};
    } else {
      rows := MaskRows(p, root, t, n - 1);
      if Holds(p, root, RowAt(t, n - 1), LaneZero(n - 1)) {
        assert n - 1 !in rows;
        rows := rows + {n - 1};
      }
    }
  }

  /** Matches counts the rows that satisfy the promised meaning. */
  lemma {:induction false} MatchingRows(p: Dag, root: nat, t: Table, n: nat) returns (rows: set<nat>)
    requires root < |p|
    ensures Matches(p, root, t, n) == |rows|
    ensures forall g: nat :: g in rows <==> g < n && Holds(p, root, RowAt(t, g), true)
  {
    hide Holds, RowAt;
    if n == 0 {
      rows := {};
    } else {
      rows := MatchingRows(p, root, t, n - 1);
      if Holds(p, root, RowAt(t, n - 1), true) {
        assert n - 1 !in rows;
        rows := rows + {n - 1};
      }
    }
  }
}
