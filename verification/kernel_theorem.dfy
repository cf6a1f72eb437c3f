/**
 The compiler theorem: a compiled kernel, run on the sliced columns of 64 rows and on
 a scratchpad with arbitrary contents, returns (or leaves in the scratchpad) the
 row-wise value of the expression in every lane.
 */
module KernelTheorem {
  import opened Words
  import opened Machine
  import opened Ir
  import opened Scratchpad
  import opened RegisterCache
  import opened Layout
  import opened Codegen
  import opened KernelCorrect

  // ----- who owns which slot -----

  /** Node n has slots and code. */
  predicate Compiled(u: Plan, n: nat) {
    n < |u.p| && n in u.order && n !in u.skip && !IsLeaf(u.p[n].op)
  }

  lemma {:induction false} MineOwned(u: Plan, i: nat, x: int)
    requires PlanOk(u) && i in u.order && i < |u.p| && !IsLeaf(u.p[i].op) && Mine(u, i, x) && x >= 0
    ensures Owns(u.p, u.a, i, x) && x < MAX_SLOTS
  {
    hide NodeReady, FieldNames, TopoOrder;
    var a := u.a;
    assert i in a.slot && SlotOf(u, i) == a.slot[i];
    if i in a.eq {
      assert EqSlotOf(u, i) == a.eq[i];
    }
    assert Owns(u.p, a, i, x);
  }

  /** Different nodes have different slots. */
  lemma {:induction false} SlotsApart(u: Plan, i: nat, n: nat, x: int)
    requires PlanOk(u) && i != n && x >= 0
    requires i in u.order && i < |u.p| && !IsLeaf(u.p[i].op) && Mine(u, i, x)
    requires n in u.order && n < |u.p| && !IsLeaf(u.p[n].op)
    ensures !Mine(u, n, x)
  {
    MineOwned(u, i, x);
    if Mine(u, n, x) {
      MineOwned(u, n, x);
    }
  }

  lemma {:induction false} BlockOf(u: Plan, i: nat)
    requires PlanOk(u) && i in u.order && i < |u.p| && !IsLeaf(u.p[i].op) && !IsMask(u.p[i].op)
    ensures 0 <= SlotOf(u, i) && SlotOf(u, i) % 64 == 0 && SlotOf(u, i) + 64 <= MAX_SLOTS
  {
  }

  /** Two different blocks of planes do not touch. */
  lemma {:induction false} BlocksApart(u: Plan, i: nat, m: nat)
    requires PlanOk(u) && i in u.order && i < |u.p| && !IsLeaf(u.p[i].op) && !IsMask(u.p[i].op)
    requires m in u.order && m < |u.p| && !IsMask(u.p[m].op) && m != i
    ensures Apart(u, i, m)
  {
    if !IsLeaf(u.p[m].op) {
      BlockOf(u, i);
      BlockOf(u, m);
      if SlotOf(u, i) == SlotOf(u, m) {
        SlotsApart(u, i, m, SlotOf(u, i));
      }
    }
  }

  lemma {:induction false} MasksUncached(u: Plan, c: Cache, i: nat)
    requires PlanOk(u) && i in u.order && i < |u.p| && !IsLeaf(u.p[i].op) && !IsMask(u.p[i].op)
    requires forall x :: x in c.slotToReg ==> MaskSlot(u, x)
    ensures Uncached(u, c, i)
  {
    forall x | x in c.slotToReg
      ensures !(SlotOf(u, i) <= x < SlotOf(u, i) + 64)
    {
      BlockOf(u, i);
      if SlotOf(u, i) <= x < SlotOf(u, i) + 64 {
        var n :| n in u.order && n < |u.p| && IsMask(u.p[n].op) && (x == SlotOf(u, n) || x == EqSlotOf(u, n));
        SlotsApart(u, n, i, x);
      }
    }
  }

  // ----- the invariant between nodes -----

  /** A comparison that has not run yet finds its masks initialised. */
  ghost predicate Pending(u: Plan, s: State, n: nat)
    requires s.Run? && n < |u.p|
  {
    u.p[n].op.Compare? ==>
      && 0 <= SlotOf(u, n) < |s.scratch| && s.scratch[SlotOf(u, n)] == {}
      && 0 <= EqSlotOf(u, n) < |s.scratch| && s.scratch[EqSlotOf(u, n)] == Ones()
  }

  ghost predicate Inv(u: Plan, rows: Chunk, k: nat, c: Cache, s: State)
    requires InPool(u) && k <= |u.order|
  {
    && Coherent(c, s) && s.regs[FIELDS] == P(FieldTable, 0) && FieldsOk(u, rows, s.fields)
    && (forall x :: x in c.slotToReg ==> MaskSlot(u, x))
    && DoneUpTo(u, rows, k, s) && PendingFrom(u, k, s)
  }

  lemma {:induction false} DoneKept(u: Plan, rows: Chunk, s: State, i: nat, c: Cache, t: State, n: nat)
    requires PlanOk(u) && Compiled(u, i) && Compiled(u, n) && n != i && s.Run?
    requires NodeEffect(u, rows, s, i, c, t) && Done(u, rows, s, n)
    ensures Done(u, rows, t, n)
  {
    if IsMask(u.p[n].op) {
      SlotsApart(u, n, i, SlotOf(u, n));
    } else {
      var at := SlotOf(u, n);
      forall b: nat | b < 64
        ensures t.scratch[at + b] == Plane(Col(u.p, n, rows), b)
      {
        SlotsApart(u, n, i, at + b);
      }
    }
  }

  lemma {:induction false} PendingKept(u: Plan, rows: Chunk, s: State, i: nat, c: Cache, t: State, n: nat)
    requires PlanOk(u) && Compiled(u, i) && n in u.order && n < |u.p| && n != i && s.Run?
    requires NodeEffect(u, rows, s, i, c, t) && Pending(u, s, n)
    ensures Pending(u, t, n)
  {
    if u.p[n].op.Compare? {
      SlotsApart(u, n, i, SlotOf(u, n));
      SlotsApart(u, n, i, EqSlotOf(u, n));
    }
  }

  ghost predicate DoneUpTo(u: Plan, rows: Chunk, k: nat, s: State)
    requires InPool(u) && k <= |u.order| && s.Run?
  {
    forall j :: 0 <= j < k && Compiled(u, u.order[j]) ==> Done(u, rows, s, u.order[j])
  }

  ghost predicate PendingFrom(u: Plan, k: nat, s: State)
    requires InPool(u) && k <= |u.order| && s.Run?
  {
    forall j :: k <= j < |u.order| ==> Pending(u, s, u.order[j])
  }

  lemma {:induction false} EffectDone(u: Plan, rows: Chunk, s: State, i: nat, c: Cache, t: State)
    requires i < |u.p| && s.Run? && NodeEffect(u, rows, s, i, c, t)
    ensures t.Run? && Done(u, rows, t, i)
  {
  }

  lemma {:induction false} OrderDistinct(u: Plan, j: nat, k: nat)
    requires PlanOk(u) && j < k < |u.order|
    ensures u.order[j] != u.order[k]
  {
  }

  lemma {:induction false} DoneAdvances(u: Plan, rows: Chunk, k: nat, s: State, c: Cache, t: State)
    requires PlanOk(u) && InPool(u) && k < |u.order| && s.Run? && DoneUpTo(u, rows, k, s)
    requires Compiled(u, u.order[k]) && NodeEffect(u, rows, s, u.order[k], c, t)
    ensures DoneUpTo(u, rows, k + 1, t)
  {
    hide PlanOk, NodeEffect, Done;
    EffectDone(u, rows, s, u.order[k], c, t);
    forall j | 0 <= j < k + 1 && Compiled(u, u.order[j])
      ensures Done(u, rows, t, u.order[j])
    {
      if j < k {
        OrderDistinct(u, j, k);
        DoneKept(u, rows, s, u.order[k], c, t, u.order[j]);
      }
    }
  }

  lemma {:induction false} PendingAdvances(u: Plan, rows: Chunk, k: nat, s: State, c: Cache, t: State)
    requires PlanOk(u) && InPool(u) && k < |u.order| && s.Run? && PendingFrom(u, k, s)
    requires Compiled(u, u.order[k]) && NodeEffect(u, rows, s, u.order[k], c, t)
    ensures PendingFrom(u, k + 1, t)
  {
    forall j | k + 1 <= j < |u.order|
      ensures Pending(u, t, u.order[j])
    {
      PendingKept(u, rows, s, u.order[k], c, t, u.order[j]);
    }
  }

  lemma {:induction false} InvAdvances(u: Plan, rows: Chunk, k: nat, c: Cache, s: State, c': Cache, t: State)
    requires PlanOk(u) && InPool(u) && k < |u.order| && Inv(u, rows, k, c, s)
    requires Compiled(u, u.order[k]) && NodeEffect(u, rows, s, u.order[k], c', t)
    requires forall x :: x in c'.slotToReg ==> MaskSlot(u, x)
    ensures Inv(u, rows, k + 1, c', t)
  {
    DoneAdvances(u, rows, k, s, c', t);
    PendingAdvances(u, rows, k, s, c', t);
  }

  // ----- every kind of node -----

  /** An operand of the k-th node has been processed. */
  lemma {:induction false} OperandEarlier(u: Plan, rows: Chunk, k: nat, s: State, n: nat)
    requires PlanOk(u) && InPool(u) && k < |u.order| && s.Run? && DoneUpTo(u, rows, k, s)
    requires n in Children(u.p[u.order[k]].op)
    ensures n < u.order[k] && n in u.order
    ensures Compiled(u, n) ==> Done(u, rows, s, n)
  {
    var j :| 0 <= j < k && u.order[j] == n;
  }

  lemma {:induction false} PlaneOperandReadable(u: Plan, rows: Chunk, k: nat, c: Cache, s: State, n: nat)
    requires PlanOk(u) && InPool(u) && k < |u.order| && Inv(u, rows, k, c, s)
    requires n in Children(u.p[u.order[k]].op) && PlaneRef(u, n)
    ensures Readable(u, rows, s, n)
  {
    OperandEarlier(u, rows, k, s, n);
    OperandReadable(u, rows, s, n);
  }

  /** What a two-operand plane node relies on. */
  ghost predicate PlaneNodeReady(u: Plan, rows: Chunk, c: Cache, s: State, i: nat, l: nat, r: nat) {
    && Coherent(c, s) && s.regs[FIELDS] == P(FieldTable, 0)
    && i < |u.p| && !IsMask(u.p[i].op) && l < i && r < i
    && Readable(u, rows, s, l) && Readable(u, rows, s, r) && Apart(u, i, l) && Apart(u, i, r)
    && 0 <= SlotOf(u, i) && SlotOf(u, i) + 64 <= MAX_SLOTS
  }

  lemma {:induction false} PlaneOperands(u: Plan, rows: Chunk, k: nat, c: Cache, s: State, i: nat, l: nat, r: nat)
    requires PlanOk(u) && InPool(u) && k < |u.order| && Inv(u, rows, k, c, s) && i == u.order[k]
    requires !IsMask(u.p[i].op) && !IsLeaf(u.p[i].op) && PlaneRef(u, l) && PlaneRef(u, r)
    requires l in Children(u.p[i].op) && r in Children(u.p[i].op)
    ensures PlaneNodeReady(u, rows, c, s, i, l, r)
  {
    PlaneOperandReadable(u, rows, k, c, s, l);
    PlaneOperandReadable(u, rows, k, c, s, r);
    BlocksApart(u, i, l);
    BlocksApart(u, i, r);
    BlockOf(u, i);
  }

  lemma {:induction false} AdderNodeEffect(u: Plan, rows: Chunk, c: Cache, s: State, i: nat, code: Code)
    requires i < |u.p| && IsAdder(u.p[i].op) && HasCarry(u, i) && code == EmitAdder(u, i, CarryReg(u, i))
    requires PlaneNodeReady(u, rows, c, s, i, u.p[i].op.left, u.p[i].op.right) && Uncached(u, c, i)
    ensures NodeEffect(u, rows, s, i, c, Exec(code, s))
  {
    AdderEffect(u, rows, s, i, CarryReg(u, i), code);
    PlaneNode(u, rows, s, i, c, Exec(code, s));
  }

  lemma {:induction false} AdderNode(u: Plan, rows: Chunk, k: nat, c: Cache, s: State, i: nat, e: Emitted)
    requires PlanOk(u) && InPool(u) && k < |u.order| && Inv(u, rows, k, c, s)
    requires i == u.order[k] && i !in u.skip && IsAdder(u.p[i].op) && HasCarry(u, i)
    requires e == Emitted(EmitAdder(u, i, CarryReg(u, i)), c)
    ensures NodeEffect(u, rows, s, i, e.cache, Exec(e.code, s))
  {
    assert NodeReady(u, i);
    var l, r := u.p[i].op.left, u.p[i].op.right;
    PlaneOperands(u, rows, k, c, s, i, l, r);
    MasksUncached(u, c, i);
    AdderNodeEffect(u, rows, c, s, i, e.code);
  }

  lemma {:induction false} MaskNode(u: Plan, rows: Chunk, s: State, i: nat, c: Cache, t: State)
    requires i < |u.p| && IsMask(u.p[i].op) && s.Run? && MaskNodeEffect(u, rows, s, i, c, t)
    ensures NodeEffect(u, rows, s, i, c, t)
  {
  }

  lemma {:induction false} CompareNode(u: Plan, rows: Chunk, k: nat, c: Cache, s: State, i: nat, e: Emitted)
    requires PlanOk(u) && InPool(u) && k < |u.order| && Inv(u, rows, k, c, s)
    requires i == u.order[k] && i !in u.skip && u.p[i].op.Compare?
    requires e == EmitCompare(u, i, SlotOf(u, i), EqSlotOf(u, i), c)
    ensures NodeEffect(u, rows, s, i, e.cache, Exec(e.code, s))
  {
    assert NodeReady(u, i);
    var l, r := u.p[i].op.left, u.p[i].op.right;
    assert l in Children(u.p[i].op) && r in Children(u.p[i].op);
    PlaneOperandReadable(u, rows, k, c, s, l);
    PlaneOperandReadable(u, rows, k, c, s, r);
    MaskSlots(u, i);
    assert Pending(u, s, u.order[k]);
    CompareEffect(u, rows, s, i, SlotOf(u, i), EqSlotOf(u, i), c, e);
    MaskNode(u, rows, s, i, e.cache, Exec(e.code, s));
  }

  lemma {:induction false} LogicNode(u: Plan, rows: Chunk, k: nat, c: Cache, s: State, i: nat, e: Emitted)
    requires PlanOk(u) && InPool(u) && k < |u.order| && Inv(u, rows, k, c, s)
    requires i == u.order[k] && i !in u.skip && e == EmitNode(u, i, c)
    requires u.p[i].op.And? || u.p[i].op.Or? || u.p[i].op.Not?
    ensures NodeEffect(u, rows, s, i, e.cache, Exec(e.code, s))
  {
    assert NodeReady(u, i);
    var l := u.p[i].op.left;
    assert l in Children(u.p[i].op);
    OperandEarlier(u, rows, k, s, l);
    MaskSlots(u, i);
    MaskSlots(u, l);
    if !u.p[i].op.Not? {
      var r := u.p[i].op.right;
      assert r in Children(u.p[i].op);
      OperandEarlier(u, rows, k, s, r);
      MaskSlots(u, r);
    }
    LogicEffect(u, rows, s, i, c, e);
    MaskNode(u, rows, s, i, e.cache, Exec(e.code, s));
  }

  lemma {:induction false} AccessMask(u: Plan, c: Cache, m: nat)
    requires PlanOk(u) && CacheValid(c) && m in u.order && m < |u.p| && IsMask(u.p[m].op)
    requires forall x :: x in c.slotToReg ==> MaskSlot(u, x)
    ensures forall x :: x in AfterAccess(c, SlotOf(u, m)).slotToReg ==> MaskSlot(u, x)
  {
    MaskSlots(u, m);
    AccessValid(c, SlotOf(u, m));
  }

  lemma {:induction false} SelectNode(u: Plan, rows: Chunk, k: nat, c: Cache, s: State, i: nat, e: Emitted)
    requires PlanOk(u) && InPool(u) && k < |u.order| && Inv(u, rows, k, c, s)
    requires i == u.order[k] && i !in u.skip && u.p[i].op.Select?
    requires e == EmitSelect(u, i, SlotOf(u, u.p[i].op.cond), c)
    ensures NodeEffect(u, rows, s, i, e.cache, Exec(e.code, s))
  {
    assert NodeReady(u, i);
    var m, l, r := u.p[i].op.cond, u.p[i].op.left, u.p[i].op.right;
    assert m in Children(u.p[i].op) && l in Children(u.p[i].op) && r in Children(u.p[i].op);
    PlaneOperands(u, rows, k, c, s, i, l, r);
    OperandEarlier(u, rows, k, s, m);
    MaskSlots(u, m);
    AccessMask(u, c, m);
    MasksUncached(u, AfterAccess(c, SlotOf(u, m)), i);
    SelectEffect(u, rows, s, i, SlotOf(u, m), c, e);
  }

  // ----- the cache only ever mirrors masks -----

  ghost predicate OnlyMasks(u: Plan, c: Cache) {
    CacheValid(c) && forall x :: x in c.slotToReg ==> MaskSlot(u, x)
  }

  lemma {:induction false} OnlyMasksAccess(u: Plan, c: Cache, x: int)
    requires OnlyMasks(u, c) && MaskSlot(u, x) && 0 <= x < MAX_SLOTS
    ensures OnlyMasks(u, AfterAccess(c, x))
  {
    AccessValid(c, x);
  }

  lemma {:induction false} CompareOnlyMasks(u: Plan, i: nat, x: int, q: int, c: Cache)
    requires i < |u.p| && u.p[i].op.Compare? && OnlyMasks(u, c)
    requires MaskSlot(u, x) && MaskSlot(u, q) && 0 <= x < MAX_SLOTS && 0 <= q < MAX_SLOTS
    ensures OnlyMasks(u, EmitCompare(u, i, x, q, c).cache)
  {
    var c1 := AfterAccess(c, q);
    OnlyMasksAccess(u, c, q);
    var c2 := AfterAccess(c1, x);
    OnlyMasksAccess(u, c1, x);
    var c3 := AfterAccess(c2, x);
    OnlyMasksAccess(u, c2, x);
    var c4 := AfterAccess(c3, q);
    OnlyMasksAccess(u, c3, q);
    JoinOnlyMasks(u, u.p[i].op.cmp, x, q, c4);
  }

  lemma {:induction false} JoinOnlyMasks(u: Plan, cmp: CompareOp, x: int, q: int, c: Cache)
    requires OnlyMasks(u, c) && MaskSlot(u, x) && MaskSlot(u, q) && 0 <= x < MAX_SLOTS && 0 <= q < MAX_SLOTS
    ensures OnlyMasks(u, EmitJoin(cmp, x, q, c).cache)
  {
    var c1 := AfterAccess(c, x);
    OnlyMasksAccess(u, c, x);
    var c2 := AfterAccess(c1, q);
    OnlyMasksAccess(u, c1, q);
    OnlyMasksAccess(u, c2, x);
  }

  lemma {:induction false} BinaryOnlyMasks(u: Plan, op: AluOp, l: int, r: int, x: int, c: Cache)
    requires OnlyMasks(u, c) && MaskSlot(u, l) && MaskSlot(u, r) && MaskSlot(u, x)
    requires 0 <= l < MAX_SLOTS && 0 <= r < MAX_SLOTS && 0 <= x < MAX_SLOTS
    ensures OnlyMasks(u, EmitBinary(op, l, r, x, c).cache) && OnlyMasks(u, EmitNot(l, x, c).cache)
  {
    var c1 := AfterAccess(c, l);
    OnlyMasksAccess(u, c, l);
    OnlyMasksAccess(u, c1, x);
    var c2 := AfterAccess(c1, r);
    OnlyMasksAccess(u, c1, r);
    OnlyMasksAccess(u, c2, x);
  }

  // ----- one node, all nodes -----

  /** Every adder that gets code has a carry register. */
  ghost predicate CarriesCover(u: Plan) {
    forall n :: n in u.order && n < |u.p| && n !in u.skip && IsAdder(u.p[n].op) ==> HasCarry(u, n)
  }

  lemma {:induction false} MaskCase(u: Plan, rows: Chunk, k: nat, c: Cache, s: State, i: nat, e: Emitted)
    requires PlanOk(u) && InPool(u) && k < |u.order| && Inv(u, rows, k, c, s)
    requires i == u.order[k] && i !in u.skip && IsMask(u.p[i].op) && e == EmitNode(u, i, c)
    ensures NodeEffect(u, rows, s, i, e.cache, Exec(e.code, s)) && OnlyMasks(u, e.cache)
  {
    assert NodeReady(u, i) && OnlyMasks(u, c);
    hide PlanOk, Inv, NodeEffect, OnlyMasks, MaskSlot, EmitCompare, EmitBinary, EmitNot;
    MaskSlots(u, i);
    match u.p[i].op
    case Compare(_, _, _) =>
      CompareNode(u, rows, k, c, s, i, e);
      CompareOnlyMasks(u, i, SlotOf(u, i), EqSlotOf(u, i), c);
    case And(l, r) =>
      LogicNode(u, rows, k, c, s, i, e);
      MaskSlots(u, l);
      MaskSlots(u, r);
      BinaryOnlyMasks(u, AND, SlotOf(u, l), SlotOf(u, r), SlotOf(u, i), c);
    case Or(l, r) =>
      LogicNode(u, rows, k, c, s, i, e);
      MaskSlots(u, l);
      MaskSlots(u, r);
      BinaryOnlyMasks(u, ORR, SlotOf(u, l), SlotOf(u, r), SlotOf(u, i), c);
    case Not(l) =>
      LogicNode(u, rows, k, c, s, i, e);
      MaskSlots(u, l);
      BinaryOnlyMasks(u, AND, SlotOf(u, l), SlotOf(u, l), SlotOf(u, i), c);
  }

  lemma {:induction false} PlaneCase(u: Plan, rows: Chunk, k: nat, c: Cache, s: State, i: nat, e: Emitted)
    requires PlanOk(u) && InPool(u) && CarriesCover(u) && k < |u.order| && Inv(u, rows, k, c, s)
    requires i == u.order[k] && Compiled(u, i) && !IsMask(u.p[i].op) && e == EmitNode(u, i, c)
    ensures NodeEffect(u, rows, s, i, e.cache, Exec(e.code, s)) && OnlyMasks(u, e.cache)
  {
    assert NodeReady(u, i);
    if u.p[i].op.Select? {
      SelectNode(u, rows, k, c, s, i, e);
      MaskSlots(u, u.p[i].op.cond);
      OnlyMasksAccess(u, c, SlotOf(u, u.p[i].op.cond));
    } else {
      AdderNode(u, rows, k, c, s, i, e);
    }
  }

  /** The code of one node takes the invariant one node further. */
  lemma {:induction false} NodeStep(u: Plan, rows: Chunk, k: nat, c: Cache, s: State, e: Emitted)
    requires PlanOk(u) && InPool(u) && CarriesCover(u) && k < |u.order| && Inv(u, rows, k, c, s)
    requires e == EmitNode(u, u.order[k], c)
    ensures Inv(u, rows, k + 1, e.cache, Exec(e.code, s))
  {
    var i := u.order[k];
    if Compiled(u, i) {
      if IsMask(u.p[i].op) {
        MaskCase(u, rows, k, c, s, i, e);
      } else {
        PlaneCase(u, rows, k, c, s, i, e);
      }
      InvAdvances(u, rows, k, c, s, e.cache, Exec(e.code, s));
    } else {
      assert e == Emitted(Nop, c);
    }
  }

  lemma {:induction false} AllNodes(u: Plan, rows: Chunk, k: nat, s: State, e: Emitted)
    requires PlanOk(u) && InPool(u) && CarriesCover(u) && k <= |u.order|
    requires Inv(u, rows, 0, EmptyCache(), s) && e == EmitPrefix(u, k)
    ensures Inv(u, rows, k, e.cache, Exec(e.code, s))
    decreases k
  {
    if k > 0 {
      hide PlanOk, Inv, CarriesCover, EmitNode;
      var prev := EmitPrefix(u, k - 1);
      AllNodes(u, rows, k - 1, s, prev);
      NodeStep(u, rows, k - 1, prev.cache, Exec(prev.code, s), EmitNode(u, u.order[k - 1], prev.cache));
    }
  }

  // ----- the prologue -----

  lemma {:induction false} ClearSlot(s: State, x: int, code: Code)
    requires s.Run? && s.regs[SCRATCH] == P(Scratch, 0) && 0 <= x < |s.scratch|
    requires code == Two(MovImm(TEMP, N(x * 8)), Str(XZR, Idx(SCRATCH, TEMP)))
    ensures Exec(code, s) == Run(s.regs[TEMP := N(x * 8)], s.flags, s.fields, s.scratch[x := {}])
  {
    ExecTwo(MovImm(TEMP, N(x * 8)), Str(XZR, Idx(SCRATCH, TEMP)), s);
  }

  lemma {:induction false} FillSlot(s: State, x: int, code: Code)
    requires s.Run? && s.regs[SCRATCH] == P(Scratch, 0) && 0 <= x < |s.scratch|
    requires code == Three(MovImm(TEMP, N(x * 8)), MovImm(SCRATCH1, W(Ones())), Str(SCRATCH1, Idx(SCRATCH, TEMP)))
    ensures Exec(code, s) == Run(s.regs[TEMP := N(x * 8)][SCRATCH1 := W(Ones())], s.flags, s.fields,
      s.scratch[x := Ones()])
  {
    ExecThree(MovImm(TEMP, N(x * 8)), MovImm(SCRATCH1, W(Ones())), Str(SCRATCH1, Idx(SCRATCH, TEMP)), s);
  }

  /** Initialising node n sets up its masks and nothing else. */
  ghost predicate InitEffect(u: Plan, s: State, n: nat, t: State)
    requires s.Run? && n < |u.p|
  {
    && t.Run? && t.fields == s.fields && |t.scratch| == |s.scratch|
    && t.regs[FIELDS] == s.regs[FIELDS] && t.regs[SCRATCH] == s.regs[SCRATCH]
    && Pending(u, t, n)
    && (forall x :: 0 <= x < |s.scratch| && !(IsMask(u.p[n].op) && Mine(u, n, x)) ==> t.scratch[x] == s.scratch[x])
  }

  lemma {:induction false} InitMasks(u: Plan, s: State, n: nat, code: Code)
    requires s.Run? && n < |u.p| && s.regs[SCRATCH] == P(Scratch, 0)
    requires IsMask(u.p[n].op) ==> 0 <= SlotOf(u, n) < |s.scratch|
    requires u.p[n].op.Compare? ==> 0 <= EqSlotOf(u, n) < |s.scratch| && EqSlotOf(u, n) != SlotOf(u, n)
    requires code == InitNode(u, n).second
    ensures InitEffect(u, s, n, Exec(code, s))
  {
    if IsMask(u.p[n].op) {
      ClearSlot(s, SlotOf(u, n), code.first);
      var s1 := Exec(code.first, s);
      if u.p[n].op.Compare? {
        FillSlot(s1, EqSlotOf(u, n), code.second);
      }
      ExecThen(code, s);
    }
  }

  lemma {:induction false} InitNodeEffect(u: Plan, s: State, n: nat, code: Code)
    requires s.Run? && n < |u.p| && s.regs[SCRATCH] == P(Scratch, 0)
    requires IsMask(u.p[n].op) ==> 0 <= SlotOf(u, n) < |s.scratch|
    requires u.p[n].op.Compare? ==> 0 <= EqSlotOf(u, n) < |s.scratch| && EqSlotOf(u, n) != SlotOf(u, n)
    requires code == InitNode(u, n)
    ensures InitEffect(u, s, n, Exec(code, s))
  {
    var s1 := Exec(code.first, s);
    assert s1.Run? && s1.fields == s.fields && s1.scratch == s.scratch
        && s1.regs[FIELDS] == s.regs[FIELDS] && s1.regs[SCRATCH] == s.regs[SCRATCH];
    InitMasks(u, s1, n, code.second);
    ExecThen(code, s);
  }

  /** After the prologue of the first k nodes. */
  ghost predicate InitInv(u: Plan, k: nat, fields: seq<seq<Word>>, t: State)
    requires InPool(u) && k <= |u.order|
  {
    && t.Run? && t.fields == fields && |t.scratch| >= MAX_SLOTS
    && t.regs[FIELDS] == P(FieldTable, 0) && t.regs[SCRATCH] == P(Scratch, 0)
    && (forall j :: 0 <= j < k ==> Pending(u, t, u.order[j]))
  }

  lemma {:induction false} InitAdvances(u: Plan, k: nat, s: State, t: State, fields: seq<seq<Word>>)
    requires PlanOk(u) && InPool(u) && k < |u.order| && InitInv(u, k, fields, s)
    requires InitEffect(u, s, u.order[k], t)
    ensures InitInv(u, k + 1, fields, t)
  {
    var i := u.order[k];
    forall j | 0 <= j < k + 1
      ensures Pending(u, t, u.order[j])
    {
      var n := u.order[j];
      if j < k && u.p[n].op.Compare? && IsMask(u.p[i].op) {
        SlotsApart(u, n, i, SlotOf(u, n));
        SlotsApart(u, n, i, EqSlotOf(u, n));
      }
    }
  }

  lemma {:induction false} FirstInit(u: Plan, s: State, fields: seq<seq<Word>>, code: Code)
    requires InPool(u) && code == InitPrefix(u, 0)
    requires s.Run? && s.fields == fields && |s.scratch| >= MAX_SLOTS
    requires s.regs[0] == P(FieldTable, 0) && s.regs[1] == P(Scratch, 0)
    ensures InitInv(u, 0, fields, Exec(code, s))
  {
    var s1 := Exec(code.first, s);
    ExecTwo(Mov(FIELDS, 0), Mov(SCRATCH, 1), s);
    var rest := code.second;
    ExecThree(MovImm(23, W({})), MovImm(24, W({})), MovImm(25, W({})), s1);
    var s2 := Exec(rest.first, s1);
    ExecThree(MovImm(26, W({})), MovImm(27, W({})), MovImm(28, W({})), s2);
    ExecThen(rest, s1);
    ExecThen(code, s);
  }

  lemma {:induction false} AllInit(u: Plan, k: nat, s: State, fields: seq<seq<Word>>, code: Code)
    requires PlanOk(u) && InPool(u) && k <= |u.order| && code == InitPrefix(u, k)
    requires s.Run? && s.fields == fields && |s.scratch| >= MAX_SLOTS
    requires s.regs[0] == P(FieldTable, 0) && s.regs[1] == P(Scratch, 0)
    ensures InitInv(u, k, fields, Exec(code, s))
    decreases k
  {
    if k == 0 {
      FirstInit(u, s, fields, code);
    } else {
      AllInit(u, k - 1, s, fields, code.first);
      var n := u.order[k - 1];
      if IsMask(u.p[n].op) {
        MaskSlots(u, n);
      }
      var s1 := Exec(code.first, s);
      InitNodeEffect(u, s1, n, code.second);
      InitAdvances(u, k - 1, s1, Exec(code.second, s1), fields);
    }
  }

  // ----- the epilogue -----

  lemma {:induction false} ReturnMask(s: State, x: int, code: Code)
    requires s.Run? && s.regs[SCRATCH] == P(Scratch, 0) && 0 <= x < |s.scratch|
    requires code == Two(MovImm(TEMP, N(x * 8)), Ldr(0, Idx(SCRATCH, TEMP)))
    ensures OnlyRegs(s, Exec(code, s), {TEMP, 0}) && Exec(code, s).regs[0] == W(s.scratch[x])
  {
    ExecTwo(MovImm(TEMP, N(x * 8)), Ldr(0, Idx(SCRATCH, TEMP)), s);
  }

  /** Slots 0 .. n-1 hold what the block at `at` held in s; the rest is as in s. */
  ghost predicate Copied(s: State, at: nat, n: nat, t: State)
    requires s.Run? && at + 64 <= |s.scratch| && n <= 64
  {
    && t.Run? && t.fields == s.fields && |t.scratch| == |s.scratch|
    && t.regs[SCRATCH] == P(Scratch, 0) && t.regs[TEMP] == N((at + n) * 8)
    && (forall b :: 0 <= b < n ==> t.scratch[b] == s.scratch[at + b])
    && (forall x :: n <= x < |s.scratch| ==> t.scratch[x] == s.scratch[x])
  }

  lemma {:induction false} CopyOne(s: State, at: nat, n: nat, t: State, code: Code)
    requires s.Run? && at % 64 == 0 && at + 64 <= |s.scratch| && n < 64 && Copied(s, at, n, t)
    requires code == Three(Ldr(RESULT, Idx(SCRATCH, TEMP)), Str(RESULT, Imm(SCRATCH, n * 8)), AddImm(TEMP, TEMP, 8))
    ensures Copied(s, at, n + 1, Exec(code, t))
  {
    var i1, i2, i3 := Ldr(RESULT, Idx(SCRATCH, TEMP)), Str(RESULT, Imm(SCRATCH, n * 8)), AddImm(TEMP, TEMP, 8);
    var w := t.scratch[at + n];
    // An aligned block is block 0 itself or lies beyond the slots written so far.
    assert w == s.scratch[at + n];
    var t1 := Step(i1, t);
    assert t1 == Set(t, RESULT, W(w));
    var t2 := Step(i2, t1);
    assert t2 == t1.(scratch := t.scratch[n := w]);
    ExecThree(i1, i2, i3, t);
  }

  lemma {:induction false} CopyLoop(s: State, at: nat, n: nat, s0: State, code: Code)
    requires s.Run? && at % 64 == 0 && at + 64 <= |s.scratch| && n <= 64 && Copied(s, at, 0, s0)
    requires code == CopyPlanes(n)
    ensures Copied(s, at, n, Exec(code, s0))
    decreases n
  {
    if n > 0 {
      CopyLoop(s, at, n - 1, s0, code.first);
      CopyOne(s, at, n - 1, Exec(code.first, s0), code.second);
    }
  }

  /** The copy delivers the root's planes in slots 0 .. 63, wherever they were. */
  lemma {:induction false} ReturnPlanes(s: State, at: nat, c: Column, code: Code)
    requires s.Run? && s.regs[SCRATCH] == P(Scratch, 0) && at % 64 == 0 && HoldsPlanes(s.scratch, at, c)
    requires code == Then(I(MovImm(TEMP, N(at * 8))), Then(CopyPlanes(64), I(MovImm(0, W({})))))
    ensures
      var t := Exec(code, s);
      t.Run? && t.fields == s.fields && |t.scratch| == |s.scratch| && HoldsPlanes(t.scratch, 0, c) && t.regs[0] == W({})
  {
    var s0 := Exec(code.first, s);
    CopyLoop(s, at, 64, s0, code.second.first);
    ExecThen(code.second, s0);
    ExecThen(code, s);
  }

  // ----- whole kernels -----

  /** A kernel entered on 64 rows: its fields are sliced, its scratchpad holds anything. */
  ghost predicate Entered(u: Plan, rows: Chunk, s: State) {
    && s.Run? && |s.scratch| >= MAX_SLOTS && FieldsOk(u, rows, s.fields)
    && s.regs[0] == P(FieldTable, 0) && s.regs[1] == P(Scratch, 0)
  }

  lemma {:induction false} InitGivesInv(u: Plan, rows: Chunk, fields: seq<seq<Word>>, t: State)
    requires InPool(u) && InitInv(u, |u.order|, fields, t) && FieldsOk(u, rows, fields)
    ensures Inv(u, rows, 0, EmptyCache(), t)
  {
  }

  lemma {:induction false} BodyRuns(u: Plan, rows: Chunk, s: State, init: Code, e: Emitted)
    requires PlanOk(u) && InPool(u) && CarriesCover(u) && Entered(u, rows, s)
    requires init == InitPrefix(u, |u.order|) && e == EmitPrefix(u, |u.order|)
    ensures Inv(u, rows, |u.order|, e.cache, Exec(e.code, Exec(init, s)))
  {
    AllInit(u, |u.order|, s, s.fields, init);
    InitGivesInv(u, rows, s.fields, Exec(init, s));
    AllNodes(u, rows, |u.order|, Exec(init, s), e);
  }

  /** A mask root is returned in x0; the masks of all nodes stay in their slots. */
  lemma {:induction false} MaskKernel(u: Plan, root: nat, rows: Chunk, s: State, code: Code)
    requires PlanOk(u) && InPool(u) && CarriesCover(u) && Entered(u, rows, s)
    requires Compiled(u, root) && IsMask(u.p[root].op) && code == KernelCode(u, root)
    ensures Exec(code, s).Run? && Exec(code, s).regs[0] == W(MaskOf(u.p, root, rows))
  {
    var e := EmitPrefix(u, |u.order|);
    BodyRuns(u, rows, s, code.first, e);
    var t := Exec(e.code, Exec(code.first, s));
    var j :| 0 <= j < |u.order| && u.order[j] == root;
    assert Done(u, rows, t, u.order[j]);
    ReturnMask(t, SlotOf(u, root), code.second.second);
    ExecThen(code.second, Exec(code.first, s));
    ExecThen(code, s);
  }

  /** A plane root is left in slots 0 .. 63. */
  lemma {:induction false} PlaneKernel(u: Plan, root: nat, rows: Chunk, s: State, code: Code)
    requires PlanOk(u) && InPool(u) && CarriesCover(u) && Entered(u, rows, s)
    requires Compiled(u, root) && !IsMask(u.p[root].op) && code == KernelCode(u, root)
    ensures Exec(code, s).Run? && HoldsPlanes(Exec(code, s).scratch, 0, Col(u.p, root, rows))
    ensures |Exec(code, s).scratch| == |s.scratch|
  {
    var e := EmitPrefix(u, |u.order|);
    BodyRuns(u, rows, s, code.first, e);
    var t := Exec(e.code, Exec(code.first, s));
    var j :| 0 <= j < |u.order| && u.order[j] == root;
    assert Done(u, rows, t, u.order[j]);
    BlockOf(u, root);
    ReturnPlanes(t, SlotOf(u, root), Col(u.p, root, rows), code.second.second);
    ExecThen(code.second, Exec(code.first, s));
    ExecThen(code, s);
    ScratchLength(code, s);
  }

  /** A skipped root leaves the results of all compiled nodes in their slots. */
  lemma {:induction false} SkippedKernel(u: Plan, root: nat, rows: Chunk, s: State, code: Code)
    requires PlanOk(u) && InPool(u) && CarriesCover(u) && Entered(u, rows, s)
    requires root < |u.p| && root in u.skip && code == KernelCode(u, root)
    ensures Exec(code, s).Run? && |Exec(code, s).scratch| == |s.scratch|
    ensures forall n :: Compiled(u, n) ==> Done(u, rows, Exec(code, s), n)
  {
    var e := EmitPrefix(u, |u.order|);
    BodyRuns(u, rows, s, code.first, e);
    var t := Exec(e.code, Exec(code.first, s));
    ExecThen(code.second, Exec(code.first, s));
    ExecThen(code, s);
    var t' := Exec(code, s);
    assert t'.Run? && t'.scratch == t.scratch;
    forall n | Compiled(u, n)
      ensures Done(u, rows, t', n)
    {
      var j :| 0 <= j < |u.order| && u.order[j] == n;
      assert Done(u, rows, t, u.order[j]);
    }
    ScratchLength(code, s);
  }

  /** No instruction changes the size of the scratchpad. */
  lemma {:induction false} ScratchLength(c: Code, s: State)
    requires s.Run? && Exec(c, s).Run?
    ensures |Exec(c, s).scratch| == |s.scratch| && Exec(c, s).fields == s.fields
  {
    match c
    case Nop =>
    case I(_) =>
    case Then(a, b) =>
      if Exec(a, s).Fault? {
        ExecFault(b);
      }
      ScratchLength(a, s);
      ScratchLength(b, Exec(a, s));
  }
}
