/**
 Where the compiler keeps things: field indices, scratchpad slots and carry
 registers (the allocation loops of compile_expression in src/jit/compiler.cpp).
 */
module Layout {
  import opened Ir
  import opened Scratchpad

  // ----- field indices -----

  /** Field names in the order their first LOAD is visited; a name's position is its index. */
  function FieldNames(p: Dag, order: seq<nat>): seq<string>
    requires forall n :: n in order ==> n < |p|
  {
    if order == [] then []
    else
      var front, last := order[..|order| - 1], order[|order| - 1];
      assert (forall n :: n in front ==> n in order) && last in order;
      var names := FieldNames(p, front);
      if p[last].op.Load? && p[last].op.field !in names then names + [p[last].op.field] else names
  }

  function IndexOf(names: seq<string>, f: string): (k: nat)
    requires f in names
    ensures k < |names| && names[k] == f
  {
    if names[0] == f then 0 else 1 + IndexOf(names[1..], f)
  }

  lemma {:induction false} FieldNamesCover(p: Dag, order: seq<nat>)
    requires forall n :: n in order ==> n < |p|
    ensures forall n :: n in order && p[n].op.Load? ==> p[n].op.field in FieldNames(p, order)
    ensures forall i, j :: 0 <= i < j < |FieldNames(p, order)| ==> FieldNames(p, order)[i] != FieldNames(p, order)[j]
    ensures forall f :: f in FieldNames(p, order) ==> exists n :: n in order && p[n].op == Load(f)
    decreases |order|
  {
    if order != [] {
      var front, last := order[..|order| - 1], order[|order| - 1];
      assert (forall n :: n in front ==> n in order) && last in order;
      assert order == front + [last];
      FieldNamesCover(p, front);
    }
  }

  /** A LOAD of a new name gets the next index; nothing else changes the list. */
  lemma {:induction false} FieldNamesGrow(p: Dag, order: seq<nat>, i: nat)
    requires (forall n :: n in order ==> n < |p|) && i < |p| && forall n :: n in order + [i] ==> n < |p|
    ensures FieldNames(p, []) == []
    ensures FieldNames(p, order + [i]) ==
      if p[i].op.Load? && p[i].op.field !in FieldNames(p, order) then FieldNames(p, order) + [p[i].op.field]
      else FieldNames(p, order)
  {
    assert (order + [i])[..|order|] == order;
  }

  // ----- slots and carry registers -----

  /** The allocator's progress. `Failed` is the early return of a null kernel. */
  datatype Alloc =
    | Failed
    | Alloc(slot: map<nat, nat>, eq: map<nat, nat>, carry: map<nat, nat>, nextCarry: nat, used: seq<bool>)

  predicate IsAdder(op: Op) {
    op.Add? || op.Sub?
  }

  ghost function AllocNode(p: Dag, i: nat, a: Alloc): Alloc
    requires i < |p| && (a.Alloc? ==> |a.used| == MAX_SLOTS)
  {
    if a.Failed? || IsLeaf(p[i].op) then a
    else if !IsMask(p[i].op) then
      var b := FirstBlock(a.used);
      if b + 64 > MAX_SLOTS then Failed
      else
        var a1 := a.(slot := a.slot[i := b], used := Mark(a.used, b, 64));
        if IsAdder(p[i].op) && a.nextCarry < 6
        then a1.(carry := a.carry[i := a.nextCarry], nextCarry := a.nextCarry + 1)
        else a1
    else
      var f := FirstFree(a.used);
      if f == MAX_SLOTS then Failed
      else
        var a1 := a.(slot := a.slot[i := f], used := Mark(a.used, f, 1));
        if !p[i].op.Compare? then a1
        else
          var e := FirstFree(a1.used);
          if e == MAX_SLOTS then Failed
          else a1.(eq := a1.eq[i := e], used := Mark(a1.used, e, 1))
  }

  function NoSlots(): seq<bool> {
    seq(MAX_SLOTS, i => false)
  }

  ghost function AllocAll(p: Dag, order: seq<nat>): (a: Alloc)
    requires forall n :: n in order ==> n < |p|
    ensures a.Alloc? ==> |a.used| == MAX_SLOTS
  {
    if order == [] then Alloc(map[], map[], map[], 0, NoSlots())
    else
      var front, last := order[..|order| - 1], order[|order| - 1];
      assert (forall n :: n in front ==> n in order) && last in order;
      AllocNode(p, last, AllocAll(p, front))
  }

  /** Slot x belongs to node i: its mask slot or its block of 64, or its equality slot. */
  ghost predicate Owns(p: Dag, a: Alloc, i: nat, x: int)
    requires a.Alloc?
  {
    || (i < |p| && i in a.slot && a.slot[i] <= x < a.slot[i] + if IsMask(p[i].op) then 1 else 64)
    || (i in a.eq && x == a.eq[i])
  }

  function AdderCount(p: Dag, order: seq<nat>): nat
    requires forall n :: n in order ==> n < |p|
  {
    if order == [] then 0
    else
      var front, last := order[..|order| - 1], order[|order| - 1];
      assert (forall n :: n in front ==> n in order) && last in order;
      AdderCount(p, front) + if IsAdder(p[last].op) then 1 else 0
  }

  /** Every node that needs room has it, in bounds, aligned, and shared with no other node. */
  ghost predicate LaidOut(p: Dag, order: seq<nat>, a: Alloc) {
    && a.Alloc? && |a.used| == MAX_SLOTS
    && (forall n :: n in order ==> n < |p|)
    && (forall n :: n in a.slot <==> n in order && !IsLeaf(p[n].op))
    && (forall n :: n in a.eq <==> n in order && p[n].op.Compare?)
    && (forall n, x :: Owns(p, a, n, x) ==> 0 <= x < MAX_SLOTS && a.used[x])
    && (forall n :: n in a.slot && !IsMask(p[n].op) ==> a.slot[n] % 64 == 0 && a.slot[n] + 64 <= MAX_SLOTS)
    && (forall n, m, x :: Owns(p, a, n, x) && Owns(p, a, m, x) ==> n == m)
    && (forall n :: n in a.eq && n in a.slot ==> a.eq[n] != a.slot[n])
  }

  /** Carry registers go to the first six adders. */
  ghost predicate CarriesOk(p: Dag, order: seq<nat>, a: Alloc)
    requires forall n :: n in order ==> n < |p|
  {
    && a.Alloc?
    && (forall n :: n in a.carry ==> n in order && IsAdder(p[n].op) && a.carry[n] < 6)
    && a.nextCarry == (if AdderCount(p, order) < 6 then AdderCount(p, order) else 6)
    && ((forall n :: n in order && IsAdder(p[n].op) ==> n in a.carry) <==> AdderCount(p, order) <= 6)
  }

  /** Giving a new node only free slots, and marking them, keeps the layout sound. */
  lemma {:induction false} Extend(p: Dag, order: seq<nat>, a: Alloc, i: nat, b: Alloc)
    requires LaidOut(p, order, a) && i < |p| && i !in order && !IsLeaf(p[i].op)
    requires b.Alloc? && |b.used| == MAX_SLOTS
    requires i in b.slot && b.slot == a.slot[i := b.slot[i]]
    requires if p[i].op.Compare? then i in b.eq && b.eq == a.eq[i := b.eq[i]] && b.eq[i] != b.slot[i]
             else b.eq == a.eq
    requires forall x :: Owns(p, b, i, x) ==> 0 <= x < MAX_SLOTS && !a.used[x] && b.used[x]
    requires forall x :: 0 <= x < MAX_SLOTS && a.used[x] ==> b.used[x]
    requires !IsMask(p[i].op) ==> b.slot[i] % 64 == 0 && b.slot[i] + 64 <= MAX_SLOTS
    ensures LaidOut(p, order + [i], b)
  {
    forall n, x | n != i
      ensures Owns(p, b, n, x) <==> Owns(p, a, n, x)
    {
    }
    forall n, m, x | Owns(p, b, n, x) && Owns(p, b, m, x)
      ensures n == m
    {
    }
  }

  lemma {:induction false} AllocNodeLaidOut(p: Dag, order: seq<nat>, a: Alloc, i: nat)
    requires LaidOut(p, order, a) && i < |p| && i !in order
    ensures AllocNode(p, i, a).Alloc? ==> LaidOut(p, order + [i], AllocNode(p, i, a))
  {
    hide FirstFree, FirstBlock, Mark;
    var b := AllocNode(p, i, a);
    if b.Alloc? {
      if IsLeaf(p[i].op) {
        assert forall n, x :: Owns(p, b, n, x) <==> Owns(p, a, n, x);
      } else {
        forall x | Owns(p, b, i, x)
          ensures 0 <= x < MAX_SLOTS && !a.used[x] && b.used[x]
        {
          if !IsMask(p[i].op) {
            assert FreeBlock(a.used, b.slot[i]);
          }
        }
        Extend(p, order, a, i, b);
      }
    }
  }

  lemma {:induction false} AllocNodeCarries(p: Dag, order: seq<nat>, a: Alloc, i: nat)
    requires forall n :: n in order ==> n < |p|
    requires a.Alloc? && |a.used| == MAX_SLOTS && CarriesOk(p, order, a) && i < |p| && i !in order
    ensures AllocNode(p, i, a).Alloc? ==> CarriesOk(p, order + [i], AllocNode(p, i, a))
  {
    var b := AllocNode(p, i, a);
    var o := order + [i];
    assert o[..|order|] == order;
    if b.Alloc? {
      assert AdderCount(p, o) == AdderCount(p, order) + if IsAdder(p[i].op) then 1 else 0;
      if AdderCount(p, order) > 6 {
        var n :| n in order && IsAdder(p[n].op) && n !in a.carry;
        assert n in o && n !in b.carry;
      } else if AdderCount(p, o) > 6 {
        assert i in o && i !in b.carry;
      }
    }
  }

  /** What every successful allocation guarantees. */
  lemma {:induction false} AllocAllSound(p: Dag, order: seq<nat>)
    requires (forall n :: n in order ==> n < |p|) && NoDuplicates(order)
    ensures AllocAll(p, order).Alloc? ==>
      LaidOut(p, order, AllocAll(p, order)) && CarriesOk(p, order, AllocAll(p, order))
    decreases |order|
  {
    if order != [] && AllocAll(p, order).Alloc? {
      var front, last := order[..|order| - 1], order[|order| - 1];
      assert (forall n :: n in front ==> n in order) && last in order;
      assert order == front + [last];
      AllocAllSound(p, front);
      AllocNodeLaidOut(p, front, AllocAll(p, front), last);
      AllocNodeCarries(p, front, AllocAll(p, front), last);
    }
  }

  // ----- first fit, and when it fails -----

  lemma {:induction false} AllocSnoc(p: Dag, order: seq<nat>, i: nat)
    requires (forall n :: n in order ==> n < |p|) && i < |p| && forall n :: n in order + [i] ==> n < |p|
    ensures AllocAll(p, order + [i]) == AllocNode(p, i, AllocAll(p, order))
    ensures AllocAll(p, []) == Alloc(map[], map[], map[], 0, NoSlots())
    ensures |NoSlots()| == 32768 && forall x :: 0 <= x < 32768 ==> !NoSlots()[x]
  {
    hide AllocNode;
    assert (order + [i])[..|order|] == order;
  }

  /** A number operator takes the first block of 64 free slots at a multiple of 64, and fails when there is none. */
  lemma {:induction false} BlockFirstFit(p: Dag, i: nat, a: Alloc)
    requires i < |p| && a.Alloc? && |a.used| == 32768
    requires p[i].op.Add? || p[i].op.Sub? || p[i].op.Select? || p[i].op.Sum? || p[i].op.Inert?
    ensures
      var b := AllocNode(p, i, a);
      && (b.Failed? <==> forall x: nat :: x % 64 == 0 && x + 64 <= 32768 ==> exists j :: x <= j < x + 64 && a.used[j])
      && (b.Alloc? ==>
            && i in b.slot && b.slot == a.slot[i := b.slot[i]] && b.eq == a.eq && |b.used| == 32768
            && b.slot[i] % 64 == 0 && b.slot[i] + 64 <= 32768
            && (forall j :: b.slot[i] <= j < b.slot[i] + 64 ==> !a.used[j])
            && (forall x: nat :: x % 64 == 0 && x < b.slot[i] ==> exists j :: x <= j < x + 64 && a.used[j])
            && (forall j :: 0 <= j < 32768 ==> b.used[j] == (a.used[j] || b.slot[i] <= j < b.slot[i] + 64)))
  {
    var x := FirstBlock(a.used);
    forall y: nat | y % 64 == 0 && y + 64 <= 32768 && (y < x || x + 64 > 32768)
      ensures exists j :: y <= j < y + 64 && a.used[j]
    {
      assert !FreeBlock(a.used, y);
    }
    if x + 64 <= 32768 {
      assert FreeBlock(a.used, x);
    }
  }

  /** A mask operator takes the first free slot; a comparison the first two. */
  lemma {:induction false} SlotFirstFit(p: Dag, i: nat, a: Alloc)
    requires i < |p| && a.Alloc? && |a.used| == 32768
    requires p[i].op.Compare? || p[i].op.And? || p[i].op.Or? || p[i].op.Not?
    ensures
      var b := AllocNode(p, i, a);
      && ((exists x: nat, y: nat :: x < y < 32768 && !a.used[x] && !a.used[y]) ==> b.Alloc?)
      && ((forall x: nat :: x < 32768 ==> a.used[x]) ==> b.Failed?)
      && (b.Failed? ==> forall x: nat, y: nat :: x < y < 32768 ==> a.used[x] || a.used[y])
      && (b.Failed? && !p[i].op.Compare? ==> forall x: nat :: x < 32768 ==> a.used[x])
      && (b.Alloc? ==>
            && i in b.slot && b.slot == a.slot[i := b.slot[i]] && b.carry == a.carry && |b.used| == 32768
            && b.slot[i] < 32768 && !a.used[b.slot[i]] && (forall j :: 0 <= j < b.slot[i] ==> a.used[j])
            && (!p[i].op.Compare? ==>
                  b.eq == a.eq && forall j :: 0 <= j < 32768 ==> b.used[j] == (a.used[j] || j == b.slot[i]))
            && (p[i].op.Compare? ==>
                  && i in b.eq && b.eq == a.eq[i := b.eq[i]] && b.slot[i] < b.eq[i] < 32768 && !a.used[b.eq[i]]
                  && (forall j :: b.slot[i] < j < b.eq[i] ==> a.used[j])
                  && forall j :: 0 <= j < 32768 ==> b.used[j] == (a.used[j] || j == b.slot[i] || j == b.eq[i])))
  {
    var f := FirstFree(a.used);
    if f < 32768 && p[i].op.Compare? {
      var e := FirstFree(Mark(a.used, f, 1));
      assert forall j :: f < j < e ==> Mark(a.used, f, 1)[j];
    }
  }

  // ----- which adders get a carry register -----

  /** The ADD and SUB nodes that get code. */
  function CompiledAdders(p: Dag, order: seq<nat>, skip: set<nat>): nat
    requires forall n :: n in order ==> n < |p|
  {
    if order == [] then 0
    else
      var front, last := order[..|order| - 1], order[|order| - 1];
      assert (forall n :: n in front ==> n in order) && last in order;
      CompiledAdders(p, front, skip) + if IsAdder(p[last].op) && last !in skip then 1 else 0
  }

  /** The ADD and SUB nodes listed up to the last one that gets code. */
  function CarriesNeeded(p: Dag, order: seq<nat>, skip: set<nat>): nat
    requires forall n :: n in order ==> n < |p|
  {
    if order == [] then 0
    else
      var front, last := order[..|order| - 1], order[|order| - 1];
      assert (forall n :: n in front ==> n in order) && last in order;
      if IsAdder(p[last].op) && last !in skip then AdderCount(p, order) else CarriesNeeded(p, front, skip)
  }

  ghost predicate Carried(p: Dag, order: seq<nat>, skip: set<nat>, a: Alloc)
    requires a.Alloc? && forall n :: n in order ==> n < |p|
  {
    forall n :: n in order && n !in skip && IsAdder(p[n].op) ==> n in a.carry
  }

  /** Registers are handed out in listing order: all compiled adders get one exactly when six reach the last of them. */
  lemma {:induction false} CarriesExactly(p: Dag, order: seq<nat>, skip: set<nat>)
    requires (forall n :: n in order ==> n < |p|) && NoDuplicates(order) && AllocAll(p, order).Alloc?
    ensures Carried(p, order, skip, AllocAll(p, order)) <==> CarriesNeeded(p, order, skip) <= 6
    decreases |order|
  {
    if order != [] {
      var front, last := order[..|order| - 1], order[|order| - 1];
      assert (forall n :: n in front ==> n in order) && last in order && order == front + [last];
      CarriesExactly(p, front, skip);
      AllocAllSound(p, front);
      AllocAllSound(p, order);
      CarriesGrow(p, last, AllocAll(p, front));
      CarriedStep(p, front, last, order, skip, AllocAll(p, front), AllocAll(p, order));
    }
  }

  lemma {:induction false} CarriesGrow(p: Dag, i: nat, a: Alloc)
    requires i < |p| && (a.Alloc? ==> |a.used| == MAX_SLOTS) && AllocNode(p, i, a).Alloc?
    ensures a.Alloc? && forall n :: n != i ==> (n in AllocNode(p, i, a).carry <==> n in a.carry)
    ensures IsAdder(p[i].op) && a.nextCarry >= 6 ==> AllocNode(p, i, a).carry == a.carry
  {
    hide FirstFree, FirstBlock, Mark;
  }

  lemma {:induction false} CarriedStep(p: Dag, front: seq<nat>, last: nat, order: seq<nat>, skip: set<nat>, a: Alloc,
      b: Alloc)
    requires (forall n :: n in order ==> n < |p|) && order == front + [last] && last !in front && a.Alloc? && b.Alloc?
    requires last < |p| && forall n :: n in front ==> n < |p|
    requires CarriesOk(p, front, a) && CarriesOk(p, order, b)
    requires forall n :: n != last ==> (n in b.carry <==> n in a.carry)
    requires IsAdder(p[last].op) && a.nextCarry >= 6 ==> b.carry == a.carry
    requires Carried(p, front, skip, a) <==> CarriesNeeded(p, front, skip) <= 6
    ensures Carried(p, order, skip, b) <==> CarriesNeeded(p, order, skip) <= 6
  {
    assert order[..|front|] == front;
    if IsAdder(p[last].op) && last !in skip {
      assert AdderCount(p, order) == AdderCount(p, front) + 1;
      assert last !in a.carry;
    } else {
      assert Carried(p, order, skip, b) <==> Carried(p, front, skip, a) by {
        assert forall n :: n in order <==> n in front || n == last;
      }
    }
  }

  /** Where every listed adder gets code, the three counts are the same. */
  lemma {:induction false} AllCompiled(p: Dag, order: seq<nat>, skip: set<nat>)
    requires forall n :: n in order ==> n < |p| && (IsAdder(p[n].op) ==> n !in skip)
    ensures CompiledAdders(p, order, skip) == AdderCount(p, order) == CarriesNeeded(p, order, skip)
    decreases |order|
  {
    if order != [] {
      var front, last := order[..|order| - 1], order[|order| - 1];
      assert (forall n :: n in front ==> n in order) && last in order;
      AllCompiled(p, front, skip);
    }
  }

  /** A skipped adder at the end of the list needs no register. */
  lemma {:induction false} AllButLastCompiled(p: Dag, order: seq<nat>, skip: set<nat>)
    requires (forall n :: n in order ==> n < |p|) && order != []
    requires forall n :: n in order[..|order| - 1] && n < |p| && IsAdder(p[n].op) ==> n !in skip
    ensures CompiledAdders(p, order, skip) == CarriesNeeded(p, order, skip)
  {
    var front, last := order[..|order| - 1], order[|order| - 1];
    assert (forall n :: n in front ==> n in order) && last in order;
    AllCompiled(p, front, skip);
  }

  /** The adders that get code, as a set. */
  lemma {:induction false} AddersCounted(p: Dag, order: seq<nat>, skip: set<nat>) returns (adders: set<nat>)
    requires (forall n :: n in order ==> n < |p|) && NoDuplicates(order)
    ensures CompiledAdders(p, order, skip) == |adders|
    ensures forall n :: n in adders <==> n in order && n < |p| && n !in skip && (p[n].op.Add? || p[n].op.Sub?)
    decreases |order|
  {
    adders := {};
    if order != [] {
      var front, last := order[..|order| - 1], order[|order| - 1];
      assert (forall n :: n in front ==> n in order) && last in order && order == front + [last];
      adders := AddersCounted(p, front, skip);
      if IsAdder(p[last].op) && last !in skip {
        assert last !in adders;
        adders := adders + {last};
      }
    }
  }

  lemma {:induction false} AdderCounted(p: Dag, order: seq<nat>) returns (adders: set<nat>)
    requires (forall n :: n in order ==> n < |p|) && NoDuplicates(order)
    ensures AdderCount(p, order) == |adders|
    ensures forall n :: n in adders <==> n in order && n < |p| && (p[n].op.Add? || p[n].op.Sub?)
  {
    AllCompiled(p, order, {});
    adders := AddersCounted(p, order, {});
  }

  /** k is the length of the shortest front part of the list that has every adder with code. */
  ghost predicate LastCompiled(p: Dag, order: seq<nat>, skip: set<nat>, k: nat) {
    && k <= |order| && (forall i :: k <= i < |order| && order[i] < |p| && IsAdder(p[order[i]].op) ==> order[i] in skip)
    && (k > 0 ==> order[k - 1] < |p| && order[k - 1] !in skip && IsAdder(p[order[k - 1]].op))
  }

  lemma {:induction false} NeededIs(p: Dag, order: seq<nat>, skip: set<nat>) returns (k: nat)
    requires forall n :: n in order ==> n < |p|
    ensures LastCompiled(p, order, skip, k) && (forall n :: n in order[..k] ==> n < |p|)
    ensures CarriesNeeded(p, order, skip) == AdderCount(p, order[..k])
    decreases |order|
  {
    hide AdderCount;
    k := 0;
    if order != [] {
      var front, last := order[..|order| - 1], order[|order| - 1];
      assert (forall n :: n in front ==> n in order) && last in order;
      if IsAdder(p[last].op) && last !in skip {
        k := |order|;
        assert order[..k] == order;
      } else {
        k := NeededIs(p, front, skip);
        assert order[..k] == front[..k];
      }
    } else {
      NothingNeeded(p, skip);
    }
  }

  lemma {:induction false} NothingNeeded(p: Dag, skip: set<nat>)
    ensures CarriesNeeded(p, [], skip) == AdderCount(p, []) == 0
  {
  }

  /** The adders in the shortest front part of the list that has every adder with code, as a set. */
  lemma {:induction false} NeededCounted(p: Dag, order: seq<nat>, skip: set<nat>) returns (k: nat, adders: set<nat>)
    requires (forall n :: n in order ==> n < |p|) && NoDuplicates(order)
    ensures k <= |order| && CarriesNeeded(p, order, skip) == |adders|
    ensures forall n :: n in adders <==> n in order[..k] && n < |p| && (p[n].op.Add? || p[n].op.Sub?)
    ensures forall i :: k <= i < |order| && order[i] < |p| && (p[order[i]].op.Add? || p[order[i]].op.Sub?) ==>
      order[i] in skip
    ensures k > 0 ==>
      order[k - 1] < |p| && order[k - 1] !in skip && (p[order[k - 1]].op.Add? || p[order[k - 1]].op.Sub?)
  {
    hide CarriesNeeded, AdderCount;
    k := NeededIs(p, order, skip);
    adders := AdderCounted(p, order[..k]);
  }

  lemma {:induction false} NoAdders(p: Dag, order: seq<nat>, skip: set<nat>)
    requires forall n :: n in order ==> n < |p| && (IsAdder(p[n].op) ==> n in skip)
    ensures CompiledAdders(p, order, skip) == 0
    decreases |order|
  {
    if order != [] {
      var front := order[..|order| - 1];
      assert forall n :: n in front ==> n in order;
      NoAdders(p, front, skip);
    }
  }
}
