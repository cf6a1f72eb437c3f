/**
 compile_expression (src/jit/compiler.cpp) as the loops that append to the assembler:
 analysis, field and slot assignment, prologue, one pass over the nodes, epilogue.
 */
module CompilerDriver {
  import opened Machine
  import opened Ir
  import opened Scratchpad
  import opened RegisterCache
  import opened Layout
  import opened Codegen
  import opened Compiler

  // ----- fields and slots -----

  lemma {:induction false} PrefixInPool(p: Dag, order: seq<nat>, k: nat)
    requires (forall n :: n in order ==> n < |p|) && k <= |order|
    ensures forall n :: n in order[..k] ==> n < |p|
    ensures k < |order| ==> order[k] < |p| && order[..k + 1][..k] == order[..k]
  {
    assert forall n :: n in order[..k] ==> n in order;
    if k < |order| {
      assert order[k] in order;
    }
  }

  method AssignFields(p: Dag, order: seq<nat>) returns (names: seq<string>)
    requires forall n :: n in order ==> n < |p|
    ensures names == FieldNames(p, order)
  {
    names := [];
    var k := 0;
    while k < |order|
      invariant 0 <= k <= |order|
      invariant forall n :: n in order[..k] ==> n < |p|
      invariant names == FieldNames(p, order[..k])
    {
      var i := order[k];
      PrefixInPool(p, order, k);
      PrefixInPool(p, order, k + 1);
      if p[i].op.Load? && p[i].op.field !in names {
        names := names + [p[i].op.field];
      }
      k := k + 1;
    }
    assert order[..k] == order;
  }

  /** Slot, equality slot and carry register of one node. */
  method AllocateNode(p: Dag, i: nat, mgr: ScratchpadManager, a: Alloc) returns (b: Alloc)
    requires i < |p| && mgr.used.Length == MAX_SLOTS && a.Alloc? && a.used == mgr.used[..]
    modifies mgr.used
    ensures b == AllocNode(p, i, a)
    ensures b.Alloc? ==> b.used == mgr.used[..]
  {
    b := a;
    if IsLeaf(p[i].op) {
      return;
    }
    var slot;
    if !IsMask(p[i].op) {
      slot := mgr.AllocBlock();
    } else {
      slot := mgr.AllocSlot();
    }
    if slot < 0 {
      return Failed;
    }
    b := b.(slot := b.slot[i := slot], used := mgr.used[..]);
    if p[i].op.Compare? {
      var e := mgr.AllocSlot();
      if e < 0 {
        return Failed;
      }
      b := b.(eq := b.eq[i := e], used := mgr.used[..]);
    }
    if IsAdder(p[i].op) && b.nextCarry < 6 {
      b := b.(carry := b.carry[i := b.nextCarry], nextCarry := b.nextCarry + 1);
    }
  }

  method AllocateAll(p: Dag, order: seq<nat>) returns (a: Alloc)
    requires forall n :: n in order ==> n < |p|
    ensures a == AllocAll(p, order)
  {
    var mgr := new ScratchpadManager();
    a := Alloc(map[], map[], map[], 0, mgr.used[..]);
    assert mgr.used[..] == NoSlots();
    var k := 0;
    while k < |order|
      invariant 0 <= k <= |order| && mgr.used.Length == MAX_SLOTS && fresh(mgr.used)
      invariant forall n :: n in order[..k] ==> n < |p|
      invariant a == AllocAll(p, order[..k]) && a.Alloc? && a.used == mgr.used[..]
    {
      PrefixInPool(p, order, k);
      PrefixInPool(p, order, k + 1);
      a := AllocateNode(p, order[k], mgr, a);
      k := k + 1;
      if a.Failed? {
        FailedStays(p, order, k);
        return;
      }
    }
    assert order[..k] == order;
  }

  lemma {:induction false} FailedStays(p: Dag, order: seq<nat>, k: nat)
    requires (forall n :: n in order ==> n < |p|) && k <= |order|
    requires (forall n :: n in order[..k] ==> n < |p|) && AllocAll(p, order[..k]).Failed?
    ensures AllocAll(p, order).Failed?
    decreases |order| - k
  {
    if k < |order| {
      PrefixInPool(p, order, k);
      PrefixInPool(p, order, k + 1);
      FailedStays(p, order, k + 1);
    } else {
      assert order[..k] == order;
    }
  }

  // ----- nodes -----

  method AppendAdder(a: ScratchpadCache, u: Plan, i: nat, carry: Reg)
    requires i < |u.p| && IsAdder(u.p[i].op)
    modifies a`code
    ensures a.code == old(a.code) + Stream(EmitAdder(u, i, carry))
  {
    a.Append(EmitAdder(u, i, carry).first);
    ghost var start := a.code;
    for bit := 0 to 64
      invariant a.code == start + Stream(AdderBits(u, i, carry, bit))
    {
      a.Append(AdderBit(u, i, carry, bit));
    }
  }

  method AppendCompareBits(a: ScratchpadCache, u: Plan, i: nat)
    requires i < |u.p| && u.p[i].op.Compare?
    modifies a`code
    ensures a.code == old(a.code) + Stream(CompareBody(u, i))
  {
    a.Append(CompareBody(u, i).first);
    ghost var start := a.code;
    for bit := 64 downto 0
      invariant a.code == start + Stream(CompareBits(u, i, 64 - bit))
    {
      a.Append(CompareBit(u, i, bit));
    }
  }

  method AppendCompare(a: ScratchpadCache, u: Plan, i: nat, s: int, q: int)
    requires i < |u.p| && u.p[i].op.Compare? && TablesOk(a.View())
    requires s != -1 && q != -1
    modifies a
    ensures
      var e := EmitCompare(u, i, s, q, old(a.View()));
      a.code == old(a.code) + Stream(e.code) && a.View() == e.cache && TablesOk(a.View())
  {
    ghost var c := a.View();
    a.LoadSlot(q, MASK_EQ);
    a.LoadSlot(s, MASK_GT);
    AppendCompareBits(a, u, i);
    a.StoreSlot(s, MASK_GT);
    a.StoreSlot(q, MASK_EQ);
    ghost var c4 := a.View();
    ghost var strict := a.code;
    var cmp := u.p[i].op.cmp;
    if Joins(cmp) {
      AppendJoin(a, cmp, s, q);
    }
    CompareStream(u, i, s, q, c, old(a.code), strict, a.code);
  }

  /** The appended pieces are, in order, the pieces of the emitted comparison. */
  lemma {:induction false} CompareStream(u: Plan, i: nat, s: int, q: int, c: Cache, before: seq<Instr>,
      strict: seq<Instr>, after: seq<Instr>)
    requires i < |u.p| && u.p[i].op.Compare?
    requires
      var c1 := AfterAccess(c, q);
      var c2 := AfterAccess(c1, s);
      var c3 := AfterAccess(c2, s);
      var c4 := AfterAccess(c3, q);
      && strict == before + Stream(LoadCode(c, q, MASK_EQ)) + Stream(LoadCode(c1, s, MASK_GT)) +
        Stream(CompareBody(u, i))
                   + Stream(StoreCode(c2, s, MASK_GT)) + Stream(StoreCode(c3, q, MASK_EQ))
      && after == if Joins(u.p[i].op.cmp) then strict + Stream(EmitJoin(u.p[i].op.cmp, s, q, c4).code) else strict
    ensures after == before + Stream(EmitCompare(u, i, s, q, c).code)
  {
    var e := EmitCompare(u, i, s, q, c);
    var body := if Joins(u.p[i].op.cmp) then e.code.first else e.code;
    var c1 := AfterAccess(c, q);
    var c2 := AfterAccess(c1, s);
    var c3 := AfterAccess(c2, s);
    Regroup(before, Stream(LoadCode(c, q, MASK_EQ)), Stream(LoadCode(c1, s, MASK_GT)), Stream(CompareBody(u, i)),
            Stream(StoreCode(c2, s, MASK_GT)), Stream(StoreCode(c3, q, MASK_EQ)));
    assert Stream(body.first) == Stream(LoadCode(c, q, MASK_EQ)) + Stream(LoadCode(c1, s, MASK_GT));
    assert Stream(body.second.second) == Stream(StoreCode(c2, s, MASK_GT)) + Stream(StoreCode(c3, q, MASK_EQ));
    assert strict == before + Stream(body);
  }

  lemma {:induction false} Regroup(b: seq<Instr>, l1: seq<Instr>, l2: seq<Instr>, m: seq<Instr>, s1: seq<Instr>,
      s2: seq<Instr>)
    ensures b + l1 + l2 + m + s1 + s2 == b + ((l1 + l2) + (m + (s1 + s2)))
  {
  }

  method AppendJoin(a: ScratchpadCache, cmp: CompareOp, s: int, q: int)
    requires TablesOk(a.View()) && s != -1
    modifies a
    ensures
      var e := EmitJoin(cmp, s, q, old(a.View()));
      a.code == old(a.code) + Stream(e.code) && a.View() == e.cache && TablesOk(a.View())
  {
    hide AfterAccess, TablesOk, LoadCode, StoreCode;
    a.LoadSlot(s, PLANE_A);
    a.LoadSlot(q, PLANE_B);
    a.Append(I(if cmp == EQ then Mov(RESULT, PLANE_B) else Alu(ORR, RESULT, PLANE_A, PLANE_B)));
    a.StoreSlot(s, RESULT);
  }

  method AppendNot(a: ScratchpadCache, l: int, s: int)
    requires TablesOk(a.View()) && s != -1
    modifies a
    ensures
      var e := EmitNot(l, s, old(a.View()));
      a.code == old(a.code) + Stream(e.code) && a.View() == e.cache && TablesOk(a.View())
  {
    hide AfterAccess, TablesOk, LoadCode, StoreCode;
    a.LoadSlot(l, PLANE_A);
    a.Append(I(MvnR(RESULT, PLANE_A)));
    a.StoreSlot(s, RESULT);
  }

  method AppendBinary(a: ScratchpadCache, op: AluOp, l: int, r: int, s: int)
    requires TablesOk(a.View()) && s != -1
    modifies a
    ensures
      var e := EmitBinary(op, l, r, s, old(a.View()));
      a.code == old(a.code) + Stream(e.code) && a.View() == e.cache && TablesOk(a.View())
  {
    hide AfterAccess, TablesOk, LoadCode, StoreCode;
    a.LoadSlot(l, PLANE_A);
    a.LoadSlot(r, PLANE_B);
    a.Append(I(Alu(op, RESULT, PLANE_A, PLANE_B)));
    a.StoreSlot(s, RESULT);
  }

  method AppendSelect(a: ScratchpadCache, u: Plan, i: nat, m: int)
    requires i < |u.p| && u.p[i].op.Select? && TablesOk(a.View())
    modifies a
    ensures
      var e := EmitSelect(u, i, m, old(a.View()));
      a.code == old(a.code) + Stream(e.code) && a.View() == e.cache && TablesOk(a.View())
  {
    hide AfterAccess, TablesOk, LoadCode, StoreCode;
    a.LoadSlot(m, MASK_GT);
    ghost var start := a.code;
    for bit := 0 to 64
      invariant a.code == start + Stream(SelectBits(u, i, bit))
      invariant a.View() == AfterAccess(old(a.View()), m) && TablesOk(a.View())
    {
      a.Append(SelectBit(u, i, bit));
    }
  }

  lemma {:induction false} OwnSlots(u: Plan, n: nat)
    requires LaidOut(u.p, u.order, u.a) && n in u.order && n < |u.p| && IsMask(u.p[n].op)
    ensures SlotOf(u, n) != -1 && (u.p[n].op.Compare? ==> EqSlotOf(u, n) != -1)
  {
    assert Owns(u.p, u.a, n, u.a.slot[n]);
    if u.p[n].op.Compare? {
      assert Owns(u.p, u.a, n, u.a.eq[n]);
    }
  }

  method AppendMask(a: ScratchpadCache, u: Plan, i: nat)
    requires LaidOut(u.p, u.order, u.a) && i in u.order && i < |u.p| && i !in u.skip && IsMask(u.p[i].op)
    requires TablesOk(a.View())
    modifies a
    ensures
      var e := EmitNode(u, i, old(a.View()));
      a.code == old(a.code) + Stream(e.code) && a.View() == e.cache && TablesOk(a.View())
  {
    hide LaidOut, TablesOk, EmitCompare, EmitBinary, EmitNot;
    OwnSlots(u, i);
    match u.p[i].op
    case Compare(_, _, _) =>
      AppendCompare(a, u, i, SlotOf(u, i), EqSlotOf(u, i));
    case And(l, r) =>
      AppendBinary(a, AND, SlotOf(u, l), SlotOf(u, r), SlotOf(u, i));
    case Or(l, r) =>
      AppendBinary(a, ORR, SlotOf(u, l), SlotOf(u, r), SlotOf(u, i));
    case Not(l) =>
      AppendNot(a, SlotOf(u, l), SlotOf(u, i));
  }

  method AppendPlane(a: ScratchpadCache, u: Plan, i: nat)
    requires i < |u.p| && i !in u.skip && !IsMask(u.p[i].op) && TablesOk(a.View())
    modifies a
    ensures
      var e := EmitNode(u, i, old(a.View()));
      a.code == old(a.code) + Stream(e.code) && a.View() == e.cache && TablesOk(a.View())
  {
    if u.p[i].op.Select? {
      AppendSelect(a, u, i, SlotOf(u, u.p[i].op.cond));
    } else if IsAdder(u.p[i].op) {
      if HasCarry(u, i) {
        AppendAdder(a, u, i, CarryReg(u, i));
      } else {
        a.Append(I(Undefined));
      }
    }
  }

  method AppendNode(a: ScratchpadCache, u: Plan, i: nat)
    requires LaidOut(u.p, u.order, u.a) && i in u.order && i < |u.p| && TablesOk(a.View())
    modifies a
    ensures
      var e := EmitNode(u, i, old(a.View()));
      a.code == old(a.code) + Stream(e.code) && a.View() == e.cache && TablesOk(a.View())
  {
    if i !in u.skip {
      if IsMask(u.p[i].op) {
        AppendMask(a, u, i);
      } else {
        AppendPlane(a, u, i);
      }
    }
  }

  lemma {:induction false} NextPrefix(u: Plan, k: nat, before: seq<Instr>, mid: seq<Instr>, after: seq<Instr>)
    requires InPool(u) && k < |u.order|
    requires mid == before + Stream(EmitPrefix(u, k).code)
    requires after == mid + Stream(EmitNode(u, u.order[k], EmitPrefix(u, k).cache).code)
    ensures after == before + Stream(EmitPrefix(u, k + 1).code)
    ensures EmitNode(u, u.order[k], EmitPrefix(u, k).cache).cache == EmitPrefix(u, k + 1).cache
  {
  }

  method AppendNodes(a: ScratchpadCache, u: Plan)
    requires LaidOut(u.p, u.order, u.a) && InPool(u) && a.View() == EmptyCache()
    modifies a
    ensures a.code == old(a.code) + Stream(EmitPrefix(u, |u.order|).code)
  {
    var k := 0;
    while k < |u.order|
      invariant 0 <= k <= |u.order| && TablesOk(a.View())
      invariant a.View() == EmitPrefix(u, k).cache
      invariant a.code == old(a.code) + Stream(EmitPrefix(u, k).code)
    {
      ghost var mid := a.code;
      AppendNode(a, u, u.order[k]);
      NextPrefix(u, k, old(a.code), mid, a.code);
      k := k + 1;
    }
  }

  lemma {:induction false} NextInit(u: Plan, k: nat, before: seq<Instr>, mid: seq<Instr>, after: seq<Instr>)
    requires InPool(u) && k < |u.order| && mid == before + Stream(InitPrefix(u, k))
    requires after == mid + Stream(InitNode(u, u.order[k]))
    ensures after == before + Stream(InitPrefix(u, k + 1))
  {
    hide InitNode;
    var c := InitPrefix(u, k + 1);
    assert c == Then(InitPrefix(u, k), InitNode(u, u.order[k]));
    assert Stream(c) == Stream(c.first) + Stream(c.second);
  }

  method AppendPrologue(a: ScratchpadCache, u: Plan)
    requires InPool(u)
    modifies a`code
    ensures a.code == old(a.code) + Stream(InitPrefix(u, |u.order|))
  {
    a.Append(InitPrefix(u, 0));
    var k := 0;
    while k < |u.order|
      invariant 0 <= k <= |u.order|
      invariant a.code == old(a.code) + Stream(InitPrefix(u, k))
    {
      ghost var mid := a.code;
      a.Append(InitNode(u, u.order[k]));
      NextInit(u, k, old(a.code), mid, a.code);
      k := k + 1;
    }
  }

  /** What a caller of the compiler gets: the layout and the instructions. */
  datatype Machined = Machined(plan: Plan, instrs: seq<Instr>)

  method Assemble(u: Plan, root: nat) returns (code: seq<Instr>)
    requires LaidOut(u.p, u.order, u.a) && InPool(u) && root < |u.p|
    ensures code == Stream(KernelCode(u, root))
  {
    var a := new ScratchpadCache();
    AppendPrologue(a, u);
    AppendNodes(a, u);
    a.Append(Finish(u, root));
    code := a.code;
    Grouping(u, root, code);
  }

  lemma {:induction false} Grouping(u: Plan, root: nat, code: seq<Instr>)
    requires InPool(u) && root < |u.p|
    requires code == [] + Stream(InitPrefix(u, |u.order|)) + Stream(EmitPrefix(u, |u.order|).code) +
      Stream(Finish(u, root))
    ensures code == Stream(KernelCode(u, root))
  {
  }

  /** Every node that gets code reads planes where planes are and masks where masks are. */
  ghost predicate Compilable(p: Dag, root: nat, skip: set<nat>)
    requires root < |p|
  {
    forall n :: n in Order(p, root) && n !in skip ==> n < |p| && NodeReady(MakePlan(p, root, skip), n)
  }

  lemma {:induction false} CompilablePlan(p: Dag, root: nat, skip: set<nat>)
    requires root < |p| && Compilable(p, root, skip) && !MakePlan(p, root, skip).a.Failed?
    ensures PlanOk(MakePlan(p, root, skip)) && InPool(MakePlan(p, root, skip))
  {
    OrderIsTopological(p, root);
    AllocAllSound(p, Order(p, root));
  }

  /** compile_expression, for any operands: ill-typed ones get the code that the source emits for them. */
  method CompileExpression(p: Dag, root: nat, skip: set<nat>) returns (r: Option<Machined>)
    requires root < |p|
    ensures r.None? <==> Compile(p, root, skip).None?
    ensures r.Some? ==>
      && r.value.plan == Compile(p, root, skip).value.plan
      && r.value.instrs == Stream(Compile(p, root, skip).value.code)
  {
    OrderIsTopological(p, root);
    var analyzer := new ExpressionAnalyzer(p);
    analyzer.Analyze(root);
    var order := analyzer.allNodes;
    var names := AssignFields(p, order);
    if |names| > MAX_FIELDS {
      return None;
    }
    var alloc := AllocateAll(p, order);
    if alloc.Failed? {
      return None;
    }
    var u := Plan(p, order, skip, alloc, names);
    AllocAllSound(p, order);
    var code := Assemble(u, root);
    r := Some(Machined(u, code));
  }
}
