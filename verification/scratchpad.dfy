/**
 ScratchpadManager (src/jit/compiler.cpp): first-fit allocation of single slots and
 of 64-aligned blocks of 64 slots.
 */
module Scratchpad {

  const MAX_SLOTS: nat := 32768

  /** The first free slot, or |used| when there is none. */
  function FirstFree(used: seq<bool>): (i: nat)
    ensures i <= |used|
    ensures i < |used| ==> !used[i]
    ensures forall j :: 0 <= j < i ==> used[j]
  {
    if used == [] || !used[0] then 0 else 1 + FirstFree(used[1..])
  }

  ghost predicate FreeBlock(used: seq<bool>, i: nat)
    requires i + 64 <= |used|
  {
    forall j :: i <= j < i + 64 ==> !used[j]
  }

  /** The first free block at a multiple of 64, or at most |used| with less than 64 slots behind it. */
  ghost function FirstBlock(used: seq<bool>): (i: nat)
    ensures i % 64 == 0 && i <= |used|
    ensures i + 64 <= |used| ==> FreeBlock(used, i)
    ensures forall b: nat {:trigger FreeBlock(used, b)} :: b % 64 == 0 && b < i && b + 64 <= |used| ==>
      !FreeBlock(used, b)
  {
    if |used| < 64 || FreeBlock(used, 0) then 0
    else
      var rest := FirstBlock(used[64..]);
      BlockShift(used);
      64 + rest
  }

  lemma {:induction false} BlockShift(used: seq<bool>)
    requires |used| >= 64
    ensures forall b: nat {:trigger FreeBlock(used, b)} :: 64 <= b && b + 64 <= |used| ==>
      (FreeBlock(used, b) <==> FreeBlock(used[64..], b - 64))
  {
    forall b: nat | 64 <= b && b + 64 <= |used|
      ensures FreeBlock(used, b) <==> FreeBlock(used[64..], b - 64)
    {
      if FreeBlock(used[64..], b - 64) {
        forall j | b <= j < b + 64
          ensures !used[j]
        {
          assert !used[64..][j - 64];
        }
      }
    }
  }

  function Mark(used: seq<bool>, lo: nat, n: nat): (r: seq<bool>)
    requires lo + n <= |used|
    ensures |r| == |used|
    ensures forall j :: 0 <= j < |r| ==> r[j] == (used[j] || lo <= j < lo + n)
  {
    seq(|used|, j requires 0 <= j < |used| => used[j] || lo <= j < lo + n)
  }

  class ScratchpadManager {
    const used: array<bool>

    constructor ()
      ensures fresh(used) && used.Length == MAX_SLOTS
      ensures forall i :: 0 <= i < MAX_SLOTS ==> !used[i]
    {
      used := new bool[MAX_SLOTS](i => false);
    }

    /** Takes the first free slot; fails exactly when every slot is taken. */
    method AllocSlot() returns (r: int)
      requires used.Length == MAX_SLOTS
      modifies used
      ensures r == -1 || 0 <= r < MAX_SLOTS
      ensures r == -1 <==> FirstFree(old(used[..])) == MAX_SLOTS
      ensures r == -1 ==> used[..] == old(used[..])
      ensures r >= 0 ==> r == FirstFree(old(used[..])) && used[..] == Mark(old(used[..]), r, 1)
    {
      var i := 0;
      while i < MAX_SLOTS
        invariant 0 <= i <= MAX_SLOTS
        invariant forall j :: 0 <= j < i ==> used[j]
        invariant used[..] == old(used[..])
      {
        if !used[i] {
          used[i] := true;
          FirstFreeIs(old(used[..]), i);
          return i;
        }
        i := i + 1;
      }
      FirstFreeIs(old(used[..]), MAX_SLOTS);
      return -1;
    }

    /** Takes the first free aligned block; fails exactly when no aligned block is free. */
    method AllocBlock() returns (r: int)
      requires used.Length == MAX_SLOTS
      modifies used
      ensures r == -1 || (0 <= r && r + 64 <= MAX_SLOTS)
      ensures r == -1 <==> FirstBlock(old(used[..])) + 64 > MAX_SLOTS
      ensures r == -1 ==> used[..] == old(used[..])
      ensures r >= 0 ==> r == FirstBlock(old(used[..])) && used[..] == Mark(old(used[..]), r, 64)
    {
      var i := 0;
      while i <= MAX_SLOTS - 64
        invariant 0 <= i <= MAX_SLOTS && i % 64 == 0
        invariant used[..] == old(used[..])
        invariant forall b: nat {:trigger FreeBlock(used[..], b)} :: b % 64 == 0 && b < i && b + 64 <= MAX_SLOTS ==>
          !FreeBlock(used[..], b)
      {
        var free := true;
        var j := 0;
        while j < 64 && free
          invariant 0 <= j <= 64
          invariant free ==> forall x :: i <= x < i + j ==> !used[x]
          invariant !free ==> !FreeBlock(used[..], i)
        {
          if used[i + j] {
            assert used[..][i + j];
            free := false;
          }
          j := j + 1;
        }
        if free {
          assert FreeBlock(used[..], i);
          FirstBlockIs(used[..], i);
          MarkBlock(i);
          return i;
        }
        i := i + 64;
      }
      FirstBlockIs(used[..], i);
      return -1;
    }

    method MarkBlock(i: nat)
      requires used.Length == MAX_SLOTS && i + 64 <= MAX_SLOTS
      modifies used
      ensures used[..] == Mark(old(used[..]), i, 64)
    {
      for j := 0 to 64
        invariant forall x :: 0 <= x < MAX_SLOTS ==> used[x] == (old(used[x]) || i <= x < i + j)
      {
        used[i + j] := true;
      }
    }
  }

  lemma {:induction false} FirstFreeIs(used: seq<bool>, i: nat)
    requires i <= |used| && (i < |used| ==> !used[i])
    requires forall j :: 0 <= j < i ==> used[j]
    ensures FirstFree(used) == i
  {
    var f := FirstFree(used);
  }

  lemma {:induction false} FirstBlockIs(used: seq<bool>, i: nat)
    requires i <= |used| && i % 64 == 0
    requires i + 64 <= |used| ==> FreeBlock(used, i)
    requires forall b: nat {:trigger FreeBlock(used, b)} :: b % 64 == 0 && b < i && b + 64 <= |used| ==>
      !FreeBlock(used, b)
    ensures i + 64 <= |used| ==> FirstBlock(used) == i
    ensures i + 64 > |used| ==> FirstBlock(used) + 64 > |used|
  {
    var f := FirstBlock(used);
    if f + 64 <= |used| {
      assert FreeBlock(used, f);
    }
  }
}
