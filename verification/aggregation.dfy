/**
 Turning the words a kernel leaves behind into numbers: masked population counts,
 weighted counts of forest masks, and weighted counts of bit-planes (the aggregation
 branches of execute in src/api/engine.cpp and of worker_thread in
 src/compute/parallel_runner.cpp).
 */
module Aggregation {
  import opened Words

  // ----- wrap-around sums -----

  lemma {:induction false} WrapShift(n: int, m: int)
    ensures Wrap(n + m * TWO64) == Wrap(n)
    decreases if m < 0 then -m else m
  {
    if m > 0 {
      WrapShift(n, m - 1);
      WrapOnce(n + (m - 1) * TWO64);
    } else if m < 0 {
      WrapShift(n, m + 1);
      WrapOnce(n + m * TWO64);
    }
  }

  lemma {:induction false} WrapOnce(n: int)
    ensures Wrap(n + TWO64) == Wrap(n)
  {
    WrapIsMod(n);
    WrapIsMod(n + TWO64);
    ModUnique(n + TWO64, TWO64, n / TWO64 + 1, n % TWO64);
  }

  /** Wrapping early or late makes no difference to a sum. */
  lemma {:induction false} WrapAdd(a: int, b: int)
    ensures Wrap(Wrap(a) + b) == Wrap(a + b)
  {
    WrapIsMod(a);
    var q := a / TWO64;
    assert a + b == Wrap(a) + b + q * TWO64;
    WrapShift(Wrap(a) + b, q);
  }

  lemma {:induction false} WrapSmall(x: U64)
    ensures Wrap(x) == x
  {
  }

  /** Sums of congruent numbers are congruent. */
  lemma {:induction false} WrapSum(a: int, b: int, x: int, y: int)
    requires Wrap(a) == Wrap(b) && Wrap(x) == Wrap(y)
    ensures Wrap(a + x) == Wrap(b + y)
  {
    hide Wrap;
    WrapAdd(a, x);
    WrapAdd(b, x);
    WrapAdd(x, b);
    WrapAdd(y, b);
    assert x + b == b + x && y + b == b + y;
  }

  // ----- counting lanes -----

  /** How many of the first n lanes are set. */
  function CountIn(w: Word, n: nat): nat {
    if n == 0 then 0 else CountIn(w, n - 1) + BitValue(n - 1 in w)
  }

  /** A population count under a tail mask counts the real rows only. */
  lemma {:induction false} CountLanes(w: Word, n: nat)
    requires n <= 64
    ensures |w * LowLanes(n)| == CountIn(w, n)
  {
    hide LowLanes;
    if n == 0 {
      assert w * LowLanes(0) == {};
    } else {
      CountLanes(w, n - 1);
      var a, b := w * LowLanes(n), w * LowLanes(n - 1);
      if n - 1 in w {
        assert a == b + {n - 1};
      } else {
        assert a == b;
      }
    }
  }

  // ----- bit-planes -----

  /** The planes from b up, as one number per lane, summed over the first n lanes. */
  function PlaneSum(planes: seq<Word>, b: nat, n: nat): nat
    requires |planes| >= 64
    decreases 64 - b
  {
    if b >= 64 then 0 else CountIn(planes[b], n) + 2 * PlaneSum(planes, b + 1, n)
  }

  function ShrSum(c: Column, b: nat, n: nat): nat
    requires n <= 64
  {
    if n == 0 then 0 else ShrSum(c, b, n - 1) + Shr(c[n - 1], b)
  }

  lemma {:induction false} ShrSumStep(c: Column, p: Word, b: nat, n: nat)
    requires n <= 64 && p == Plane(c, b)
    ensures ShrSum(c, b, n) == CountIn(p, n) + 2 * ShrSum(c, b + 1, n)
  {
    if n > 0 {
      ShrSumStep(c, p, b, n - 1);
      NatBitShr(c[n - 1], b);
    }
  }

  lemma {:induction false} ShrSumTop(c: Column, n: nat)
    requires n <= 64
    ensures ShrSum(c, 64, n) == 0
  {
    if n > 0 {
      ShrSumTop(c, n - 1);
      U64Shr(c[n - 1]);
    }
  }

  lemma {:induction false} PlanesToShr(c: Column, planes: seq<Word>, b: nat, n: nat)
    requires |planes| >= 64 && n <= 64 && b <= 64
    requires forall x: nat :: x < 64 ==> planes[x] == Plane(c, x)
    ensures PlaneSum(planes, b, n) == ShrSum(c, b, n)
    decreases 64 - b
  {
    if b < 64 {
      PlanesToShr(c, planes, b + 1, n);
      ShrSumStep(c, planes[b], b, n);
    } else {
      ShrSumTop(c, n);
    }
  }

  function SumTo(c: Column, n: nat): nat
    requires n <= 64
  {
    if n == 0 then 0 else SumTo(c, n - 1) + c[n - 1]
  }

  lemma {:induction false} ShrSumZero(c: Column, n: nat)
    requires n <= 64
    ensures ShrSum(c, 0, n) == SumTo(c, n)
  {
    if n > 0 {
      ShrSumZero(c, n - 1);
    }
  }

  /** The sum of popcount(plane i) * 2^i over all planes is the sum of the row values. */
  lemma {:induction false} PlanesSum(c: Column, planes: seq<Word>, n: nat)
    requires |planes| >= 64 && n <= 64
    requires forall x: nat :: x < 64 ==> planes[x] == Plane(c, x)
    ensures PlaneSum(planes, 0, n) == SumTo(c, n)
  {
    PlanesToShr(c, planes, 0, n);
    ShrSumZero(c, n);
  }

  /** x << i */
  function ShiftUp(x: nat, i: nat): nat {
    if i == 0 then x else 2 * ShiftUp(x, i - 1)
  }

  lemma {:induction false} ShiftUpSum(x: nat, y: nat, i: nat)
    ensures ShiftUp(x + 2 * y, i) == ShiftUp(x, i) + ShiftUp(y, i + 1)
  {
    if i > 0 {
      ShiftUpSum(x, y, i - 1);
    }
  }

  lemma {:induction false} ShiftUpZero(i: nat)
    ensures ShiftUp(0, i) == 0
  {
    if i > 0 {
      ShiftUpZero(i - 1);
    }
  }

  /** The partial total after planes 0 .. b-1, as the loop adds them up. */
  function WeightedUpTo(planes: seq<Word>, b: nat, n: nat): nat
    requires b <= 64 <= |planes|
  {
    if b == 0 then 0 else WeightedUpTo(planes, b - 1, n) + ShiftUp(CountIn(planes[b - 1], n), b - 1)
  }

  lemma {:induction false} WeightedIsHorner(planes: seq<Word>, b: nat, n: nat)
    requires b <= 64 <= |planes|
    ensures WeightedUpTo(planes, b, n) + ShiftUp(PlaneSum(planes, b, n), b) == PlaneSum(planes, 0, n)
  {
    if b > 0 {
      WeightedIsHorner(planes, b - 1, n);
      ShiftUpSum(CountIn(planes[b - 1], n), PlaneSum(planes, b, n), b - 1);
    }
  }

  /** The loop over the 64 planes of a plane root. */
  method AggregatePlanes(scratch: seq<Word>, rows: nat, total: U64) returns (r: U64)
    requires |scratch| >= 64 && rows <= 64
    ensures r == Wrap(total + PlaneSum(scratch, 0, rows))
  {
    hide LowLanes, CountIn, ShiftUp;
    var rowsMask := LowLanes(rows);
    r := total;
    var i := 0;
    while i < 64
      invariant 0 <= i <= 64
      invariant r == Wrap(total + WeightedUpTo(scratch, i, rows))
    {
      CountLanes(scratch[i], rows);
      var term := ShiftUp(|scratch[i] * rowsMask|, i);
      WrapAdd(total + WeightedUpTo(scratch, i, rows), term);
      r := Wrap(r + term);
      i := i + 1;
    }
    WeightedIsHorner(scratch, i, rows);
    ShiftUpZero(i);
  }

  // ----- forests -----

  /** What the masks add to one lane. */
  function LaneDelta(masks: seq<Word>, deltas: seq<int>, r: nat): int
    requires |masks| == |deltas|
  {
    if masks == [] then 0
    else
      var k := |masks| - 1;
      LaneDelta(masks[..k], deltas[..k], r) + if r in masks[k] then deltas[k] else 0
  }

  /** The first n lanes, each the base plus its deltas. */
  function ForestSum(base: int, masks: seq<Word>, deltas: seq<int>, n: nat): int
    requires |masks| == |deltas|
  {
    if n == 0 then 0 else ForestSum(base, masks, deltas, n - 1) + base + LaneDelta(masks, deltas, n - 1)
  }

  /** base * n plus the weighted counts of the masks. */
  function CountedSum(base: int, masks: seq<Word>, deltas: seq<int>, n: nat): int
    requires |masks| == |deltas|
  {
    if masks == [] then base * n
    else
      var k := |masks| - 1;
      CountedSum(base, masks[..k], deltas[..k], n) + CountIn(masks[k], n) * deltas[k]
  }

  lemma {:induction false} CountedSumStep(base: int, masks: seq<Word>, deltas: seq<int>, n: nat)
    requires |masks| == |deltas| && n > 0
    ensures CountedSum(base, masks, deltas, n) ==
      CountedSum(base, masks, deltas, n - 1) + base + LaneDelta(masks, deltas, n - 1)
    decreases |masks|
  {
    if masks == [] {
      assert base * n == base * (n - 1) + base;
    } else {
      var k := |masks| - 1;
      CountedSumStep(base, masks[..k], deltas[..k], n);
      var x, d := CountIn(masks[k], n - 1), deltas[k];
      assert (x + BitValue(n - 1 in masks[k])) * d == x * d + BitValue(n - 1 in masks[k]) * d;
    }
  }

  lemma {:induction false} CountedSumEmpty(base: int, masks: seq<Word>, deltas: seq<int>)
    requires |masks| == |deltas|
    ensures CountedSum(base, masks, deltas, 0) == 0
    decreases |masks|
  {
    if masks != [] {
      var k := |masks| - 1;
      CountedSumEmpty(base, masks[..k], deltas[..k]);
    }
  }

  /** Counting mask by mask equals adding lane by lane. */
  lemma {:induction false} ForestCounted(base: int, masks: seq<Word>, deltas: seq<int>, n: nat)
    requires |masks| == |deltas|
    ensures CountedSum(base, masks, deltas, n) == ForestSum(base, masks, deltas, n)
    decreases n
  {
    if n == 0 {
      CountedSumEmpty(base, masks, deltas);
    } else {
      ForestCounted(base, masks, deltas, n - 1);
      CountedSumStep(base, masks, deltas, n);
    }
  }

  function MasksAt(scratch: seq<Word>, slots: seq<int>): (m: seq<Word>)
    requires forall i :: 0 <= i < |slots| ==> 0 <= slots[i] < |scratch|
    ensures |m| == |slots| && forall i :: 0 <= i < |slots| ==> m[i] == scratch[slots[i]]
  {
    if slots == [] then []
    else
      var k := |slots| - 1;
      MasksAt(scratch, slots[..k]) + [scratch[slots[k]]]
  }

  /** The hybrid popcount aggregator. */
  method AggregateForest(scratch: seq<Word>, rows: nat, base: int, deltas: seq<int>, slots: seq<int>) returns (r: U64)
    requires rows <= 64 && |slots| == |deltas|
    requires forall i :: 0 <= i < |slots| ==> 0 <= slots[i] < |scratch|
    ensures r == Wrap(ForestSum(base, MasksAt(scratch, slots), deltas, rows))
  {
    hide LowLanes, CountIn, Wrap, ForestSum;
    var rowsMask := LowLanes(rows);
    ghost var masks := MasksAt(scratch, slots);
    r := Wrap(base * rows);
    var i := 0;
    while i < |deltas|
      invariant 0 <= i <= |deltas|
      invariant r == Wrap(CountedSum(base, masks[..i], deltas[..i], rows))
    {
      var pop := |scratch[slots[i]] * rowsMask|;
      CountLanes(scratch[slots[i]], rows);
      assert masks[..i + 1][..i] == masks[..i] && deltas[..i + 1][..i] == deltas[..i];
      WrapAdd(CountedSum(base, masks[..i], deltas[..i], rows), pop * deltas[i]);
      r := Wrap(r + pop * deltas[i]);
      i := i + 1;
    }
    assert masks[..i] == masks && deltas[..i] == deltas;
    ForestCounted(base, masks, deltas, rows);
  }

  // ----- one signed number per row -----

  /** A 64-bit word read as int64. */
  function Signed(x: U64): int {
    if 2 * x < TWO64 then x else x - TWO64
  }

  /** The number between -2^63 and 2^63 that x is modulo 2^64. */
  lemma {:induction false} SignedWraps(x: U64)
    ensures Wrap(Signed(x)) == x && -0x8000_0000_0000_0000 <= Signed(x) < 0x8000_0000_0000_0000
  {
    if 2 * x >= TWO64 {
      WrapOnce(x - TWO64);
    }
  }

  /** base plus the deltas of the masks that have bit r. */
  method RowSum(scratch: seq<Word>, r: nat, base: int, deltas: seq<int>, slots: seq<int>) returns (sum: U64)
    requires |slots| == |deltas| && forall i :: 0 <= i < |slots| ==> 0 <= slots[i] < |scratch|
    ensures sum == Wrap(base + LaneDelta(MasksAt(scratch, slots), deltas, r))
  {
    hide Wrap, MasksAt;
    ghost var masks := MasksAt(scratch, slots);
    sum := Wrap(base);
    var i := 0;
    while i < |deltas|
      invariant 0 <= i <= |deltas|
      invariant sum == Wrap(base + LaneDelta(masks[..i], deltas[..i], r))
    {
      assert masks[..i + 1][..i] == masks[..i] && deltas[..i + 1][..i] == deltas[..i];
      if r in scratch[slots[i]] {
        WrapAdd(base + LaneDelta(masks[..i], deltas[..i], r), deltas[i]);
        sum := Wrap(sum + deltas[i]);
      }
      i := i + 1;
    }
    assert masks[..i] == masks && deltas[..i] == deltas;
  }

  /** Reading one row back from 64 bit-planes. */
  method RowValue(scratch: seq<Word>, r: nat, ghost c: Column) returns (v: U64)
    requires |scratch| >= 64 && r < 64 && forall b: nat :: b < 64 ==> scratch[b] == Plane(c, b)
    ensures v == c[r]
  {
    var bits: Word := {};
    var b := 0;
    while b < 64
      invariant 0 <= b <= 64
      invariant forall x: nat :: x in bits <==> x < b && r in scratch[x]
    {
      if r in scratch[b] {
        bits := bits + {b};
      }
      b := b + 1;
    }
    assert bits == ToWord(c[r]);
    NatRoundTrip(c[r]);
    v := U64Of(bits);
  }

  function U64Of(w: Word): U64 {
    ValBound(w);
    Val(w)
  }
}
