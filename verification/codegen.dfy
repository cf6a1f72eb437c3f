/**
 compile_expression (src/jit/compiler.cpp): the code emitted for every node of an
 expression graph, given the layout of its slots, fields and carry registers.
 */
module Codegen {
  import opened Words
  import opened Machine
  import opened Ir
  import opened Scratchpad
  import opened RegisterCache
  import opened Layout

  // Register roles.
  const PLANE_A: Reg := 2
  const PLANE_B: Reg := 3
  const RESULT: Reg := 4
  const MASK_GT: Reg := 5
  const MASK_EQ: Reg := 6
  const SCRATCH1: Reg := 7
  const HOISTED_LEFT: Reg := 16
  const HOISTED_RIGHT: Reg := 17
  const FIELDS: Reg := 19
  const BIT_INDEX: Reg := 21

  /** Everything the emitter consults. Nodes in `skip` keep their slots but get no code. */
  datatype Plan = Plan(p: Dag, order: seq<nat>, skip: set<nat>, a: Alloc, names: seq<string>)

  /** Node c leaves 64 bit-planes that other code may read. */
  predicate PlaneRef(u: Plan, c: nat) {
    && c < |u.p| && c in u.order
    && (IsLeaf(u.p[c].op) || (c !in u.skip && (u.p[c].op.Add? || u.p[c].op.Sub? || u.p[c].op.Select?)))
  }

  /** Node c leaves a mask that other code may read. */
  predicate MaskRef(u: Plan, c: nat) {
    c < |u.p| && c in u.order && c !in u.skip && IsMask(u.p[c].op)
  }

  predicate NodeReady(u: Plan, i: nat)
    requires i < |u.p|
  {
    match u.p[i].op
    case Load(_) => true
    case Const(_) => true
    case Add(l, r) => PlaneRef(u, l) && PlaneRef(u, r)
    case Sub(l, r) => PlaneRef(u, l) && PlaneRef(u, r)
    case Compare(_, l, r) => PlaneRef(u, l) && PlaneRef(u, r)
    case And(l, r) => MaskRef(u, l) && MaskRef(u, r)
    case Or(l, r) => MaskRef(u, l) && MaskRef(u, r)
    case Not(l) => MaskRef(u, l)
    case Select(c, l, r) => MaskRef(u, c) && PlaneRef(u, l) && PlaneRef(u, r)
    case Sum(_) => false
    case Inert(_) => false
  }

  /** A slot that belongs to a mask node. */
  ghost predicate MaskSlot(u: Plan, x: int) {
    exists n :: n in u.order && n < |u.p| && IsMask(u.p[n].op) && (x == SlotOf(u, n) || x == EqSlotOf(u, n))
  }

  lemma {:induction false} MaskSlots(u: Plan, n: nat)
    requires PlanOk(u) && n in u.order && IsMask(u.p[n].op)
    ensures 0 <= SlotOf(u, n) < MAX_SLOTS && MaskSlot(u, SlotOf(u, n))
    ensures u.p[n].op.Compare? ==>
      0 <= EqSlotOf(u, n) < MAX_SLOTS && EqSlotOf(u, n) != SlotOf(u, n) && MaskSlot(u, EqSlotOf(u, n))
  {
    assert Owns(u.p, u.a, n, u.a.slot[n]);
    if u.p[n].op.Compare? {
      assert Owns(u.p, u.a, n, u.a.eq[n]);
    }
  }

  /** A plan as the front half of the compiler makes it, for an expression it can compile. */
  ghost predicate PlanOk(u: Plan) {
    && TopoOrder(u.p, u.order)
    && LaidOut(u.p, u.order, u.a)
    && u.names == FieldNames(u.p, u.order)
    && (forall n :: n in u.order && n !in u.skip ==> NodeReady(u, n))
  }

  function FieldIdx(u: Plan, n: nat): nat
    requires n < |u.p| && u.p[n].op.Load?
  {
    if u.p[n].op.field in u.names then IndexOf(u.names, u.p[n].op.field) else |u.names|
  }

  function SlotOf(u: Plan, n: nat): int {
    if u.a.Alloc? && n in u.a.slot then u.a.slot[n] else -1
  }

  function EqSlotOf(u: Plan, n: nat): int {
    if u.a.Alloc? && n in u.a.eq then u.a.eq[n] else -1
  }

  function ConstWord(v: int): Word {
    ToWord(Wrap(v))
  }

  // ----- operands -----

  /** Put what is constant over all bits of an operand into register h. */
  function Hoist(u: Plan, n: nat, h: Reg): Code
    requires n < |u.p|
  {
    match u.p[n].op
    case Load(_) => I(Ldr(h, Imm(FIELDS, FieldIdx(u, n) * 8)))
    case Const(v) => I(MovImm(h, W(ConstWord(v))))
    case _ => Two(MovImm(h, N(SlotOf(u, n) * 8)), AddR(h, h, SCRATCH))
  }

  /** Bit-plane `bit` of a hoisted operand. */
  function LoadBit(u: Plan, n: nat, h: Reg, d: Reg, bit: nat): Instr
    requires n < |u.p|
  {
    match u.p[n].op
    case Const(v) => if NatBit(Wrap(v), bit) then MvnR(d, XZR) else Mov(d, XZR)
    case _ => Ldr(d, Imm(h, bit * 8))
  }

  /** Bit-plane x21 of an operand, as SELECT fetches it. */
  function LoadIndexed(u: Plan, n: nat, d: Reg): Code
    requires n < |u.p|
  {
    match u.p[n].op
    case Load(_) => Two(Ldr(TEMP, Imm(FIELDS, FieldIdx(u, n) * 8)), Ldr(d, Idx8(TEMP, BIT_INDEX)))
    case Const(v) => Four(MovImm(SCRATCH1, W(ConstWord(v))), LsrR(d, SCRATCH1, BIT_INDEX), AndOne(d, d), NegR(d, d))
    case _ =>
      Three(MovImm(SCRATCH1, N(SlotOf(u, n) * 8)), AddLsl3(SCRATCH1, SCRATCH1, BIT_INDEX),
            Ldr(d, Idx(SCRATCH, SCRATCH1)))
  }

  // ----- ADD and SUB -----

  function AdderLogic(carry: Reg): Code {
    Five(Alu(EOR, RESULT, PLANE_A, PLANE_B),
         Alu(EOR, SCRATCH1, RESULT, carry),
         Alu(AND, PLANE_A, PLANE_A, PLANE_B),
         Alu(AND, RESULT, RESULT, carry),
         Alu(ORR, carry, PLANE_A, RESULT))
  }

  function AdderBit(u: Plan, i: nat, carry: Reg, bit: nat): Code
    requires i < |u.p| && IsAdder(u.p[i].op)
  {
    var l, r := u.p[i].op.left, u.p[i].op.right;
    assert l in Children(u.p[i].op) && r in Children(u.p[i].op);
    var fetch := Two(LoadBit(u, l, HOISTED_LEFT, PLANE_A, bit), LoadBit(u, r, HOISTED_RIGHT, PLANE_B, bit));
    var negate := if u.p[i].op.Sub? then I(MvnR(PLANE_B, PLANE_B)) else Nop;
    Then(Then(fetch, negate), Then(AdderLogic(carry), I(Str(SCRATCH1, Imm(TEMP, bit * 8)))))
  }

  /** Bits 0 .. n-1, least significant first. */
  function AdderBits(u: Plan, i: nat, carry: Reg, n: nat): Code
    requires i < |u.p| && IsAdder(u.p[i].op)
  {
    if n == 0 then Nop else Then(AdderBits(u, i, carry, n - 1), AdderBit(u, i, carry, n - 1))
  }

  /** The literal 1 that seeds a SUB is set in lane 0 only. */
  function CarrySeedWord(op: Op): Word {
    if op.Sub? then {0} else {}
  }

  function EmitAdder(u: Plan, i: nat, carry: Reg): Code
    requires i < |u.p| && IsAdder(u.p[i].op)
  {
    var l, r := u.p[i].op.left, u.p[i].op.right;
    assert l in Children(u.p[i].op) && r in Children(u.p[i].op);
    var hoists := Then(Hoist(u, l, HOISTED_LEFT), Hoist(u, r, HOISTED_RIGHT));
    var target := Two(MovImm(TEMP, N(SlotOf(u, i) * 8)), AddR(TEMP, TEMP, SCRATCH));
    Then(Then(I(MovImm(carry, W(CarrySeedWord(u.p[i].op)))), Then(hoists, target)), AdderBits(u, i, carry, 64))
  }

  // ----- comparisons -----

  predicate Swaps(cmp: CompareOp) {
    cmp == LT || cmp == LE
  }

  function CompareLogic(): Code {
    Five(Alu(BIC, RESULT, PLANE_A, PLANE_B),
         Alu(AND, RESULT, RESULT, MASK_EQ),
         Alu(ORR, MASK_GT, MASK_GT, RESULT),
         Alu(EOR, RESULT, PLANE_A, PLANE_B),
         Alu(BIC, MASK_EQ, MASK_EQ, RESULT))
  }

  function CompareBit(u: Plan, i: nat, bit: nat): Code
    requires i < |u.p| && u.p[i].op.Compare?
  {
    var l, r := u.p[i].op.left, u.p[i].op.right;
    assert l in Children(u.p[i].op) && r in Children(u.p[i].op);
    var fetch :=
      if Swaps(u.p[i].op.cmp)
      then Two(LoadBit(u, r, HOISTED_RIGHT, PLANE_A, bit), LoadBit(u, l, HOISTED_LEFT, PLANE_B, bit))
      else Two(LoadBit(u, l, HOISTED_LEFT, PLANE_A, bit), LoadBit(u, r, HOISTED_RIGHT, PLANE_B, bit));
    Then(fetch, CompareLogic())
  }

  /** Bits 63 .. 64-n, most significant first. */
  function CompareBits(u: Plan, i: nat, n: nat): Code
    requires i < |u.p| && u.p[i].op.Compare? && n <= 64
  {
    if n == 0 then Nop else Then(CompareBits(u, i, n - 1), CompareBit(u, i, 64 - n))
  }

  function CompareBody(u: Plan, i: nat): Code
    requires i < |u.p| && u.p[i].op.Compare?
  {
    var l, r := u.p[i].op.left, u.p[i].op.right;
    assert l in Children(u.p[i].op) && r in Children(u.p[i].op);
    Then(Then(Hoist(u, l, HOISTED_LEFT), Hoist(u, r, HOISTED_RIGHT)), CompareBits(u, i, 64))
  }

  // ----- code together with the cache it leaves behind -----

  datatype Emitted = Emitted(code: Code, cache: Cache)

  /** GE and LE join the two masks, EQ keeps the second. */
  predicate Joins(cmp: CompareOp) {
    cmp == GE || cmp == LE || cmp == EQ
  }

  /** A comparison with its mask in slot s and its equality mask in slot q. */
  function EmitCompare(u: Plan, i: nat, s: int, q: int, c: Cache): Emitted
    requires i < |u.p| && u.p[i].op.Compare?
  {
    var c1 := AfterAccess(c, q);
    var c2 := AfterAccess(c1, s);
    var c3 := AfterAccess(c2, s);
    var c4 := AfterAccess(c3, q);
    var loads := Then(LoadCode(c, q, MASK_EQ), LoadCode(c1, s, MASK_GT));
    var stores := Then(StoreCode(c2, s, MASK_GT), StoreCode(c3, q, MASK_EQ));
    var body := Then(loads, Then(CompareBody(u, i), stores));
    if !Joins(u.p[i].op.cmp) then Emitted(body, c4)
    else
      var j := EmitJoin(u.p[i].op.cmp, s, q, c4);
      Emitted(Then(body, j.code), j.cache)
  }

  function EmitJoin(cmp: CompareOp, s: int, q: int, c: Cache): Emitted {
    var c1 := AfterAccess(c, s);
    var c2 := AfterAccess(c1, q);
    var c3 := AfterAccess(c2, s);
    var join := if cmp == EQ then Mov(RESULT, PLANE_B) else Alu(ORR, RESULT, PLANE_A, PLANE_B);
    Emitted(Then(Then(LoadCode(c, s, PLANE_A), LoadCode(c1, q, PLANE_B)), Then(I(join), StoreCode(c2, s, RESULT))), c3)
  }

  /** NOT of the mask in slot l, into slot s. */
  function EmitNot(l: int, s: int, c: Cache): Emitted {
    var c1 := AfterAccess(c, l);
    var c2 := AfterAccess(c1, s);
    Emitted(Then(LoadCode(c, l, PLANE_A), Then(I(MvnR(RESULT, PLANE_A)), StoreCode(c1, s, RESULT))), c2)
  }

  /** AND or OR of the masks in slots l and r, into slot s. */
  function EmitBinary(op: AluOp, l: int, r: int, s: int, c: Cache): Emitted {
    var c1 := AfterAccess(c, l);
    var c2 := AfterAccess(c1, r);
    var c3 := AfterAccess(c2, s);
    Emitted(Then(Then(LoadCode(c, l, PLANE_A), LoadCode(c1, r, PLANE_B)),
                 Then(I(Alu(op, RESULT, PLANE_A, PLANE_B)), StoreCode(c2, s, RESULT))), c3)
  }

  function SelectLogic(): Code {
    Three(Alu(AND, SCRATCH1, MASK_GT, PLANE_A),
          Alu(BIC, TEMP, PLANE_B, MASK_GT),
          Alu(ORR, SCRATCH1, SCRATCH1, TEMP))
  }

  function SelectBit(u: Plan, i: nat, bit: nat): Code
    requires i < |u.p| && u.p[i].op.Select?
  {
    var l, r := u.p[i].op.left, u.p[i].op.right;
    assert l in Children(u.p[i].op) && r in Children(u.p[i].op);
    var fetch := Then(LoadIndexed(u, l, PLANE_A), LoadIndexed(u, r, PLANE_B));
    var store := Two(MovImm(TEMP, N((SlotOf(u, i) + bit) * 8)), Str(SCRATCH1, Idx(SCRATCH, TEMP)));
    Then(Then(I(MovImm(BIT_INDEX, N(bit))), fetch), Then(SelectLogic(), store))
  }

  function SelectBits(u: Plan, i: nat, n: nat): Code
    requires i < |u.p| && u.p[i].op.Select?
  {
    if n == 0 then Nop else Then(SelectBits(u, i, n - 1), SelectBit(u, i, n - 1))
  }

  /** A selection on the mask in slot m. */
  function EmitSelect(u: Plan, i: nat, m: int, c: Cache): Emitted
    requires i < |u.p| && u.p[i].op.Select?
  {
    Emitted(Then(LoadCode(c, m, MASK_GT), SelectBits(u, i, 64)), AfterAccess(c, m))
  }

  predicate HasCarry(u: Plan, i: nat) {
    u.a.Alloc? && i in u.a.carry && u.a.carry[i] < 6
  }

  function CarryReg(u: Plan, i: nat): Reg
    requires HasCarry(u, i)
  {
    23 + u.a.carry[i]
  }

  /** An adder without a carry register would index the register table with -1. */
  function EmitNode(u: Plan, i: nat, c: Cache): Emitted
    requires i < |u.p|
  {
    if i in u.skip then Emitted(Nop, c)
    else
      match u.p[i].op
      case Add(_, _) => if HasCarry(u, i) then Emitted(EmitAdder(u, i, CarryReg(u, i)), c) else Emitted(I(Undefined), c)
      case Sub(_, _) => if HasCarry(u, i) then Emitted(EmitAdder(u, i, CarryReg(u, i)), c) else Emitted(I(Undefined), c)
      case Compare(_, _, _) => EmitCompare(u, i, SlotOf(u, i), EqSlotOf(u, i), c)
      case And(l, r) => EmitBinary(AND, SlotOf(u, l), SlotOf(u, r), SlotOf(u, i), c)
      case Or(l, r) => EmitBinary(ORR, SlotOf(u, l), SlotOf(u, r), SlotOf(u, i), c)
      case Not(l) => EmitNot(SlotOf(u, l), SlotOf(u, i), c)
      case Select(m, _, _) => EmitSelect(u, i, SlotOf(u, m), c)
      case _ => Emitted(Nop, c)
  }

  predicate InPool(u: Plan) {
    forall k :: 0 <= k < |u.order| ==> u.order[k] < |u.p|
  }

  /** The first k nodes of the order. */
  function EmitPrefix(u: Plan, k: nat): Emitted
    requires InPool(u) && k <= |u.order|
  {
    if k == 0 then Emitted(Nop, EmptyCache())
    else
      var e := EmitPrefix(u, k - 1);
      var n := EmitNode(u, u.order[k - 1], e.cache);
      Emitted(Then(e.code, n.code), n.cache)
  }

  // ----- before and after the nodes -----

  function InitNode(u: Plan, n: nat): Code
    requires n < |u.p|
  {
    var carry := if HasCarry(u, n) && u.p[n].op.Sub? then I(MovImm(CarryReg(u, n), W({0}))) else Nop;
    var clear :=
      if IsMask(u.p[n].op) then Two(MovImm(TEMP, N(SlotOf(u, n) * 8)), Str(XZR, Idx(SCRATCH, TEMP))) else Nop;
    var ones :=
      if u.p[n].op.Compare?
      then Three(MovImm(TEMP, N(EqSlotOf(u, n) * 8)), MovImm(SCRATCH1, W(Ones())), Str(SCRATCH1, Idx(SCRATCH, TEMP)))
      else Nop;
    Then(carry, Then(clear, ones))
  }

  function InitPrefix(u: Plan, k: nat): Code
    requires InPool(u) && k <= |u.order|
  {
    if k == 0 then
      Then(Two(Mov(FIELDS, 0), Mov(SCRATCH, 1)),
           Then(Three(MovImm(23, W({})), MovImm(24, W({})), MovImm(25, W({}))),
                Three(MovImm(26, W({})), MovImm(27, W({})), MovImm(28, W({})))))
    else Then(InitPrefix(u, k - 1), InitNode(u, u.order[k - 1]))
  }

  /** Copy the root's planes to slots 0 .. n-1. */
  function CopyPlanes(n: nat): Code {
    if n == 0 then Nop
    else
      Then(CopyPlanes(n - 1),
           Three(Ldr(RESULT, Idx(SCRATCH, TEMP)), Str(RESULT, Imm(SCRATCH, (n - 1) * 8)), AddImm(TEMP, TEMP, 8)))
  }

  function Finish(u: Plan, root: nat): Code
    requires root < |u.p|
  {
    if root in u.skip then I(MovImm(0, W({})))
    else if IsMask(u.p[root].op) then Two(MovImm(TEMP, N(SlotOf(u, root) * 8)), Ldr(0, Idx(SCRATCH, TEMP)))
    else Then(I(MovImm(TEMP, N(SlotOf(u, root) * 8))), Then(CopyPlanes(64), I(MovImm(0, W({})))))
  }

  function KernelCode(u: Plan, root: nat): Code
    requires InPool(u) && root < |u.p|
  {
    Then(InitPrefix(u, |u.order|), Then(EmitPrefix(u, |u.order|).code, Finish(u, root)))
  }
}
