/**
 Correctness of the emitted kernels: executing them leaves, in the slot of every
 node, the row-wise value of that node on all 64 lanes.
 */
module KernelCorrect {
  import opened Words
  import opened Machine
  import opened Circuits
  import opened Ir
  import opened Scratchpad
  import opened RegisterCache
  import opened Layout
  import opened Codegen

  // ----- what 64 rows make of a node -----

  function ZeroRow(f: string): U64 {
    0
  }

  type Chunk = c: seq<Row> | |c| == 64 witness seq<Row>(64, i => ZeroRow)

  /** A plane node on 64 rows; only lane 0 has a borrow seed of 1. */
  function Col(p: Dag, n: nat, rows: Chunk): (c: Column)
    requires n < |p|
    ensures forall r: nat :: r < 64 ==> c[r] == Value(p, n, rows[r], r == 0)
  {
    ColTo(p, n, rows, 64)
  }

  function ColTo(p: Dag, n: nat, rows: Chunk, k: nat): (c: seq<U64>)
    requires n < |p| && k <= 64
    ensures |c| == k && forall r: nat :: r < k ==> c[r] == Value(p, n, rows[r], r == 0)
  {
    if k == 0 then [] else ColTo(p, n, rows, k - 1) + [Value(p, n, rows[k - 1], k - 1 == 0)]
  }

  function MaskOf(p: Dag, n: nat, rows: Chunk): (w: Word)
    requires n < |p|
    ensures forall r: nat :: r in w <==> Lane(r) && Holds(p, n, rows[r], r == 0)
  {
    set r: nat | r < 64 && Holds(p, n, rows[r], r == 0)
  }

  function FieldCol(rows: Chunk, f: string): (c: Column)
    ensures forall r: nat :: r < 64 ==> c[r] == rows[r](f)
  {
    FieldColTo(rows, f, 64)
  }

  function FieldColTo(rows: Chunk, f: string, k: nat): (c: seq<U64>)
    requires k <= 64
    ensures |c| == k && forall r: nat :: r < k ==> c[r] == rows[r](f)
  {
    if k == 0 then [] else FieldColTo(rows, f, k - 1) + [rows[k - 1](f)]
  }

  /** A block of 64 words holds the bit-planes of a column. */
  ghost predicate HoldsPlanes(m: seq<Word>, at: int, c: Column) {
    0 <= at && at + 64 <= |m| && forall b: nat :: b < 64 ==> m[at + b] == Plane(c, b)
  }

  /** The field table points at the sliced columns. */
  ghost predicate FieldsOk(u: Plan, rows: Chunk, fields: seq<seq<Word>>) {
    && |u.names| <= |fields|
    && forall k: nat :: k < |u.names| ==> HoldsPlanes(fields[k], 0, FieldCol(rows, u.names[k]))
  }

  /** What holds of the machine between any two nodes. */
  ghost predicate Base(u: Plan, rows: Chunk, s: State) {
    && s.Run? && |s.scratch| >= MAX_SLOTS
    && s.regs[FIELDS] == P(FieldTable, 0) && s.regs[SCRATCH] == P(Scratch, 0)
    && FieldsOk(u, rows, s.fields)
  }

  /** Node n has left its result in its slots. */
  ghost predicate Done(u: Plan, rows: Chunk, s: State, n: nat)
    requires n < |u.p| && s.Run?
  {
    if IsMask(u.p[n].op)
    then 0 <= SlotOf(u, n) < |s.scratch| && s.scratch[SlotOf(u, n)] == MaskOf(u.p, n, rows)
    else HoldsPlanes(s.scratch, SlotOf(u, n), Col(u.p, n, rows))
  }

  /** The planes of node n's column can be fetched from where the node keeps them. */
  ghost predicate Readable(u: Plan, rows: Chunk, s: State, n: nat)
    requires s.Run?
  {
    n < |u.p| &&
    match u.p[n].op
    case Load(_) => FieldIdx(u, n) < |s.fields| && HoldsPlanes(s.fields[FieldIdx(u, n)], 0, Col(u.p, n, rows))
    case Const(_) => true
    case _ => HoldsPlanes(s.scratch, SlotOf(u, n), Col(u.p, n, rows))
  }

  // ----- operands -----

  ghost predicate Hoisted(u: Plan, s: State, n: nat, h: Reg)
    requires s.Run? && n < |u.p|
  {
    match u.p[n].op
    case Load(_) => s.regs[h] == P(Field(FieldIdx(u, n)), 0)
    case Const(_) => true
    case _ => s.regs[h] == P(Scratch, SlotOf(u, n) * 8)
  }

  lemma {:induction false} OperandReadable(u: Plan, rows: Chunk, s: State, n: nat)
    requires PlanOk(u) && Base(u, rows, s) && PlaneRef(u, n)
    requires IsLeaf(u.p[n].op) || Done(u, rows, s, n)
    ensures Readable(u, rows, s, n)
  {
    if u.p[n].op.Load? {
      FieldNamesCover(u.p, u.order);
      var k := FieldIdx(u, n);
      assert Col(u.p, n, rows) == FieldCol(rows, u.names[k]);
    }
  }

  /** Registers and memory are as before, except for the registers in `touched`. */
  ghost predicate OnlyRegs(s: State, t: State, touched: set<Reg>)
    requires s.Run?
  {
    && t.Run? && t.fields == s.fields && t.scratch == s.scratch
    && (forall r: Reg :: r !in touched ==> t.regs[r] == s.regs[r])
  }

  lemma {:induction false} HoistSlot(s: State, h: Reg, off: int, code: Code)
    requires s.Run? && s.regs[SCRATCH] == P(Scratch, 0) && code == Two(MovImm(h, N(off)), AddR(h, h, SCRATCH))
    requires h == HOISTED_LEFT || h == HOISTED_RIGHT || h == TEMP
    ensures OnlyRegs(s, Exec(code, s), {h}) && Exec(code, s).regs[h] == P(Scratch, off)
  {
    ExecTwo(MovImm(h, N(off)), AddR(h, h, SCRATCH), s);
  }

  lemma {:induction false} HoistEffect(u: Plan, rows: Chunk, s: State, n: nat, h: Reg, code: Code)
    requires s.Run? && s.regs[FIELDS] == P(FieldTable, 0) && s.regs[SCRATCH] == P(Scratch, 0)
    requires Readable(u, rows, s, n) && code == Hoist(u, n, h)
    requires h == HOISTED_LEFT || h == HOISTED_RIGHT
    ensures OnlyRegs(s, Exec(code, s), {h}) && Hoisted(u, Exec(code, s), n, h)
  {
    match u.p[n].op
    case Load(_) =>
    case Const(v) =>
    case _ =>
      HoistSlot(s, h, SlotOf(u, n) * 8, code);
  }

  /** Both operands of a node are hoisted. */
  lemma {:induction false} HoistBoth(u: Plan, rows: Chunk, s: State, l: nat, r: nat, code: Code)
    requires s.Run? && s.regs[FIELDS] == P(FieldTable, 0) && s.regs[SCRATCH] == P(Scratch, 0)
    requires Readable(u, rows, s, l) && Readable(u, rows, s, r)
    requires code == Then(Hoist(u, l, HOISTED_LEFT), Hoist(u, r, HOISTED_RIGHT))
    ensures OnlyRegs(s, Exec(code, s), {HOISTED_LEFT, HOISTED_RIGHT})
    ensures Hoisted(u, Exec(code, s), l, HOISTED_LEFT) && Hoisted(u, Exec(code, s), r, HOISTED_RIGHT)
  {
    HoistEffect(u, rows, s, l, HOISTED_LEFT, code.first);
    HoistEffect(u, rows, Exec(code.first, s), r, HOISTED_RIGHT, code.second);
    ExecThen(code, s);
  }

  /** One load delivers one plane of the operand's column. */
  lemma {:induction false} LoadBitEffect(u: Plan, rows: Chunk, s: State, n: nat, h: Reg, d: Reg, bit: nat, i: Instr)
    requires s.Run? && Readable(u, rows, s, n) && Hoisted(u, s, n, h) && i == LoadBit(u, n, h, d, bit)
    requires h != XZR && bit < 64
    ensures Step(i, s) == Set(s, d, W(Plane(Col(u.p, n, rows), bit)))
  {
    match u.p[n].op
    case Load(_) =>
    case Const(v) =>
      assert Col(u.p, n, rows) == ConstColumn(Wrap(v));
      ConstPlane(Wrap(v), bit);
      assert Mvn({}) == Ones();
    case _ =>
  }

  // ----- ADD and SUB -----

  /** The five instructions of a full adder on whole words. */
  lemma {:induction false} AdderLogicEffect(s: State, carry: Reg, code: Code, a: Word, b: Word, c: Word)
    requires s.Run? && 23 <= carry < 29 && code == AdderLogic(carry)
    requires s.regs[PLANE_A] == W(a) && s.regs[PLANE_B] == W(b) && s.regs[carry] == W(c)
    ensures OnlyRegs(s, Exec(code, s), {PLANE_A, RESULT, SCRATCH1, carry})
    ensures Exec(code, s).regs[SCRATCH1] == W(Eor(Eor(a, b), c))
    ensures Exec(code, s).regs[carry] == W((a * b) + (Eor(a, b) * c))
  {
    ExecFive(Alu(EOR, RESULT, PLANE_A, PLANE_B), Alu(EOR, SCRATCH1, RESULT, carry),
             Alu(AND, PLANE_A, PLANE_A, PLANE_B), Alu(AND, RESULT, RESULT, carry),
             Alu(ORR, carry, PLANE_A, RESULT), s);
  }

  /** What the second input of the adder is: the right operand, complemented for SUB. */
  function Addend(op: Op, b: Column): Column {
    if op.Sub? then Complement(b) else b
  }

  lemma {:induction false} AdderRow(p: Dag, i: nat, row: Row, exact: bool)
    requires i < |p| && IsAdder(p[i].op) && p[i].op.left < i && p[i].op.right < i
    ensures
      var x, y := Value(p, p[i].op.left, row, exact), Value(p, p[i].op.right, row, exact);
      Value(p, i, row, exact) ==
        if p[i].op.Sub? then Wrap(x + (TWO64 - 1 - y) + BitValue(exact)) else Wrap(x + y)
  {
    var x, y := Value(p, p[i].op.left, row, exact), Value(p, p[i].op.right, row, exact);
    if p[i].op.Sub? {
      var n := x - y - if exact then 0 else 1;
      assert x + (TWO64 - 1 - y) + BitValue(exact) == n + TWO64;
    }
  }

  lemma {:induction false} AdderLane(p: Dag, rows: Chunk, i: nat, c: Column, x: Column, y: Column, r: nat)
    requires i < |p| && IsAdder(p[i].op) && p[i].op.left < i && p[i].op.right < i && r < 64
    requires c[r] == Value(p, i, rows[r], r == 0)
    requires x[r] == Value(p, p[i].op.left, rows[r], r == 0)
    requires y[r] == Value(p, p[i].op.right, rows[r], r == 0)
    ensures c[r] == Wrap(x[r] + Addend(p[i].op, y)[r] + BitValue(r in CarrySeedWord(p[i].op)))
  {
    AdderRow(p, i, rows[r], r == 0);
  }

  lemma {:induction false} ColumnsAgree(a: Column, b: Column)
    requires forall r: nat :: r < 64 ==> a[r] == b[r]
    ensures a == b
  {
  }

  lemma {:induction false} AdderColumn(p: Dag, rows: Chunk, i: nat, c: Column, x: Column, y: Column)
    requires i < |p| && IsAdder(p[i].op) && p[i].op.left < i && p[i].op.right < i
    requires c == Col(p, i, rows) && x == Col(p, p[i].op.left, rows) && y == Col(p, p[i].op.right, rows)
    ensures c == RippleColumn(x, Addend(p[i].op, y), CarrySeedWord(p[i].op))
  {
    forall r: nat | r < 64
      ensures c[r] == RippleColumn(x, Addend(p[i].op, y), CarrySeedWord(p[i].op))[r]
    {
      AdderLane(p, rows, i, c, x, y, r);
    }
    ColumnsAgree(c, RippleColumn(x, Addend(p[i].op, y), CarrySeedWord(p[i].op)));
  }

  /** The two operand planes arrive in PLANE_A and PLANE_B. */
  lemma {:induction false} FetchEffect(u: Plan, rows: Chunk, s: State, l: nat, hl: Reg, r: nat, hr: Reg, bit: nat,
      code: Code)
    requires s.Run? && bit < 64
    requires Readable(u, rows, s, l) && Hoisted(u, s, l, hl) && 16 <= hl < 18
    requires Readable(u, rows, s, r) && Hoisted(u, s, r, hr) && 16 <= hr < 18
    requires code == Two(LoadBit(u, l, hl, PLANE_A, bit), LoadBit(u, r, hr, PLANE_B, bit))
    ensures OnlyRegs(s, Exec(code, s), {PLANE_A, PLANE_B})
    ensures Exec(code, s).regs[PLANE_A] == W(Plane(Col(u.p, l, rows), bit))
    ensures Exec(code, s).regs[PLANE_B] == W(Plane(Col(u.p, r, rows), bit))
  {
    var i1, i2 := LoadBit(u, l, hl, PLANE_A, bit), LoadBit(u, r, hr, PLANE_B, bit);
    LoadBitEffect(u, rows, s, l, hl, PLANE_A, bit, i1);
    LoadBitEffect(u, rows, Step(i1, s), r, hr, PLANE_B, bit, i2);
    ExecTwo(i1, i2, s);
  }

  lemma {:induction false} AdderStore(s: State, carry: Reg, base: nat, bit: nat, a: Word, b: Word, c: Word, code: Code)
    requires s.Run? && 23 <= carry < 29 && base + bit < |s.scratch|
    requires s.regs[PLANE_A] == W(a) && s.regs[PLANE_B] == W(b) && s.regs[carry] == W(c)
    requires s.regs[TEMP] == P(Scratch, base * 8)
    requires code == Then(AdderLogic(carry), I(Str(SCRATCH1, Imm(TEMP, bit * 8))))
    ensures
      var t := Exec(code, s);
      && t.Run? && t.fields == s.fields
      && t.scratch == s.scratch[base + bit := Eor(Eor(a, b), c)]
      && t.regs[carry] == W((a * b) + (Eor(a, b) * c))
      && (forall r: Reg :: r !in {PLANE_A, RESULT, SCRATCH1, carry} ==> t.regs[r] == s.regs[r])
  {
    AdderLogicEffect(s, carry, code.first, a, b, c);
  }

  /** Everything that the code of an adder's next bit relies on. */
  ghost predicate AdderReady(u: Plan, rows: Chunk, s: State, i: nat, carry: Reg)
    requires i < |u.p| && IsAdder(u.p[i].op)
  {
    && s.Run? && 23 <= carry < 29
    && u.p[i].op.left < i && u.p[i].op.right < i
    && Readable(u, rows, s, u.p[i].op.left) && Hoisted(u, s, u.p[i].op.left, HOISTED_LEFT)
    && Readable(u, rows, s, u.p[i].op.right) && Hoisted(u, s, u.p[i].op.right, HOISTED_RIGHT)
    && 0 <= SlotOf(u, i) && SlotOf(u, i) + 64 <= |s.scratch| && s.regs[TEMP] == P(Scratch, SlotOf(u, i) * 8)
  }

  /** The carry word that an adder holds before bit k. */
  function CarryAt(u: Plan, rows: Chunk, i: nat, k: nat): Word
    requires i < |u.p| && IsAdder(u.p[i].op) && u.p[i].op.left < i && u.p[i].op.right < i
  {
    CarryWord(Col(u.p, u.p[i].op.left, rows), Addend(u.p[i].op, Col(u.p, u.p[i].op.right, rows)),
              CarrySeedWord(u.p[i].op), k)
  }

  /** The words of one bit of the sum. */
  lemma {:induction false} AdderWords(u: Plan, rows: Chunk, i: nat, bit: nat, b: Word)
    requires i < |u.p| && IsAdder(u.p[i].op) && u.p[i].op.left < i && u.p[i].op.right < i && bit < 64
    requires
      var y := Plane(Col(u.p, u.p[i].op.right, rows), bit);
      b == if u.p[i].op.Sub? then Mvn(y) else y
    ensures
      var a, c := Plane(Col(u.p, u.p[i].op.left, rows), bit), CarryAt(u, rows, i, bit);
      && Plane(Col(u.p, i, rows), bit) == Eor(Eor(a, b), c)
      && CarryAt(u, rows, i, bit + 1) == (a * b) + (Eor(a, b) * c)
  {
    var x, y := Col(u.p, u.p[i].op.left, rows), Col(u.p, u.p[i].op.right, rows);
    var seed := CarrySeedWord(u.p[i].op);
    AdderColumn(u.p, rows, i, Col(u.p, i, rows), x, y);
    ComplementPlane(y, bit);
    RippleSum(x, Addend(u.p[i].op, y), seed, bit);
    RippleCarry(x, Addend(u.p[i].op, y), seed, bit);
  }

  /** Fetching the planes of an adder, the second one complemented for SUB. */
  lemma {:induction false} AdderFetch(u: Plan, rows: Chunk, s: State, i: nat, carry: Reg, bit: nat, code: Code, b: Word)
    requires i < |u.p| && IsAdder(u.p[i].op) && bit < 64 && AdderReady(u, rows, s, i, carry)
    requires code.Then?
    requires code.first == Two(LoadBit(u, u.p[i].op.left, HOISTED_LEFT, PLANE_A, bit),
                               LoadBit(u, u.p[i].op.right, HOISTED_RIGHT, PLANE_B, bit))
    requires code.second == if u.p[i].op.Sub? then I(MvnR(PLANE_B, PLANE_B)) else Nop
    requires
      var y := Plane(Col(u.p, u.p[i].op.right, rows), bit);
      b == if u.p[i].op.Sub? then Mvn(y) else y
    ensures OnlyRegs(s, Exec(code, s), {PLANE_A, PLANE_B})
    ensures Exec(code, s).regs[PLANE_A] == W(Plane(Col(u.p, u.p[i].op.left, rows), bit))
    ensures Exec(code, s).regs[PLANE_B] == W(b)
  {
    FetchEffect(u, rows, s, u.p[i].op.left, HOISTED_LEFT, u.p[i].op.right, HOISTED_RIGHT, bit, code.first);
  }

  lemma {:induction false} AdderBitEffect(u: Plan, rows: Chunk, s: State, i: nat, carry: Reg, bit: nat, code: Code)
    requires i < |u.p| && IsAdder(u.p[i].op) && bit < 64
    requires AdderReady(u, rows, s, i, carry) && code == AdderBit(u, i, carry, bit)
    requires s.regs[carry] == W(CarryAt(u, rows, i, bit))
    ensures
      var t := Exec(code, s);
      && t.Run? && t.fields == s.fields
      && t.scratch == s.scratch[SlotOf(u, i) + bit := Plane(Col(u.p, i, rows), bit)]
      && t.regs[carry] == W(CarryAt(u, rows, i, bit + 1))
      && (forall r: Reg :: r !in AdderTouches(carry) ==> t.regs[r] == s.regs[r])
  {
    var a, y := Plane(Col(u.p, u.p[i].op.left, rows), bit), Plane(Col(u.p, u.p[i].op.right, rows), bit);
    var b := if u.p[i].op.Sub? then Mvn(y) else y;
    AdderFetch(u, rows, s, i, carry, bit, code.first, b);
    AdderWords(u, rows, i, bit, b);
    AdderStore(Exec(code.first, s), carry, SlotOf(u, i), bit, a, b, CarryAt(u, rows, i, bit), code.second);
  }

  /** Only the n slots from `lo` on may differ. */
  ghost predicate OnlySlots(s: State, t: State, lo: int, n: nat)
    requires s.Run? && t.Run?
  {
    && |t.scratch| == |s.scratch|
    && (forall x :: 0 <= x < |s.scratch| && !(lo <= x < lo + n) ==> t.scratch[x] == s.scratch[x])
  }

  /** The planes of m are not in the block of i. */
  ghost predicate Apart(u: Plan, i: nat, m: nat) {
    m < |u.p| && (IsLeaf(u.p[m].op) || SlotOf(u, m) + 64 <= SlotOf(u, i) || SlotOf(u, i) + 64 <= SlotOf(u, m))
  }

  lemma {:induction false} ReadableKept(u: Plan, rows: Chunk, s: State, t: State, i: nat, m: nat)
    requires s.Run? && t.Run? && t.fields == s.fields && OnlySlots(s, t, SlotOf(u, i), 64)
    requires Readable(u, rows, s, m) && Apart(u, i, m)
    ensures Readable(u, rows, t, m)
  {
    if !IsLeaf(u.p[m].op) {
      var at := SlotOf(u, m);
      forall b: nat | b < 64
        ensures t.scratch[at + b] == Plane(Col(u.p, m, rows), b)
      {
        assert t.scratch[at + b] == s.scratch[at + b];
      }
    }
  }

  /** Registers that the per-bit code of an adder may change. */
  function AdderTouches(carry: Reg): set<Reg> {
    {PLANE_A, PLANE_B, RESULT, SCRATCH1, carry}
  }

  /** Where an adder that started in s stands after n bits. */
  ghost predicate AdderAfter(u: Plan, rows: Chunk, s: State, i: nat, carry: Reg, n: nat, t: State)
    requires s.Run? && i < |u.p| && IsAdder(u.p[i].op) && u.p[i].op.left < i && u.p[i].op.right < i
    requires 0 <= SlotOf(u, i) && SlotOf(u, i) + 64 <= |s.scratch| && n <= 64
  {
    && t.Run? && t.fields == s.fields && OnlySlots(s, t, SlotOf(u, i), 64)
    && t.regs[carry] == W(CarryAt(u, rows, i, n))
    && (forall b: nat :: b < n ==> t.scratch[SlotOf(u, i) + b] == Plane(Col(u.p, i, rows), b))
    && (forall r: Reg :: r !in AdderTouches(carry) ==> t.regs[r] == s.regs[r])
  }

  lemma {:induction false} AdderStillReady(u: Plan, rows: Chunk, s: State, i: nat, carry: Reg, n: nat, t: State)
    requires i < |u.p| && IsAdder(u.p[i].op) && n <= 64
    requires AdderReady(u, rows, s, i, carry) && AdderAfter(u, rows, s, i, carry, n, t)
    requires Apart(u, i, u.p[i].op.left) && Apart(u, i, u.p[i].op.right)
    ensures AdderReady(u, rows, t, i, carry)
  {
    ReadableKept(u, rows, s, t, i, u.p[i].op.left);
    ReadableKept(u, rows, s, t, i, u.p[i].op.right);
  }

  lemma {:induction false} AdderGrows(u: Plan, rows: Chunk, s: State, i: nat, carry: Reg, n: nat, t: State, t': State)
    requires s.Run? && i < |u.p| && IsAdder(u.p[i].op) && u.p[i].op.left < i && u.p[i].op.right < i
    requires 0 <= SlotOf(u, i) && SlotOf(u, i) + 64 <= |s.scratch| && n < 64
    requires AdderAfter(u, rows, s, i, carry, n, t)
    requires t'.Run? && t'.fields == t.fields
    requires t'.scratch == t.scratch[SlotOf(u, i) + n := Plane(Col(u.p, i, rows), n)]
    requires t'.regs[carry] == W(CarryAt(u, rows, i, n + 1))
    requires forall r: Reg :: r !in AdderTouches(carry) ==> t'.regs[r] == t.regs[r]
    ensures AdderAfter(u, rows, s, i, carry, n + 1, t')
  {
  }

  lemma {:induction false} AdderLoop(u: Plan, rows: Chunk, s: State, i: nat, carry: Reg, n: nat, code: Code)
    requires i < |u.p| && IsAdder(u.p[i].op) && n <= 64
    requires AdderReady(u, rows, s, i, carry) && code == AdderBits(u, i, carry, n)
    requires Apart(u, i, u.p[i].op.left) && Apart(u, i, u.p[i].op.right)
    requires s.regs[carry] == W(CarryAt(u, rows, i, 0))
    ensures AdderAfter(u, rows, s, i, carry, n, Exec(code, s))
    decreases n
  {
    if n > 0 {
      AdderLoop(u, rows, s, i, carry, n - 1, code.first);
      var t := Exec(code.first, s);
      AdderStillReady(u, rows, s, i, carry, n - 1, t);
      AdderBitEffect(u, rows, t, i, carry, n - 1, code.second);
      AdderGrows(u, rows, s, i, carry, n - 1, t, Exec(code.second, t));
    }
  }

  /** Seed the carry, hoist the operands, point x22 at the target block. */
  lemma {:induction false} SetupEffect(u: Plan, rows: Chunk, s: State, l: nat, r: nat, carry: Reg, seed: Word,
      off: int, code: Code)
    requires s.Run? && s.regs[FIELDS] == P(FieldTable, 0) && s.regs[SCRATCH] == P(Scratch, 0) && 23 <= carry < 29
    requires Readable(u, rows, s, l) && Readable(u, rows, s, r)
    requires code.Then? && code.second.Then? && code.first == I(MovImm(carry, W(seed)))
    requires code.second.first == Then(Hoist(u, l, HOISTED_LEFT), Hoist(u, r, HOISTED_RIGHT))
    requires code.second.second == Two(MovImm(TEMP, N(off)), AddR(TEMP, TEMP, SCRATCH))
    ensures OnlyRegs(s, Exec(code, s), {carry, HOISTED_LEFT, HOISTED_RIGHT, TEMP})
    ensures Hoisted(u, Exec(code, s), l, HOISTED_LEFT) && Hoisted(u, Exec(code, s), r, HOISTED_RIGHT)
    ensures Exec(code, s).regs[carry] == W(seed) && Exec(code, s).regs[TEMP] == P(Scratch, off)
  {
    var s1 := Exec(code.first, s);
    var s2 := Exec(code.second.first, s1);
    HoistBoth(u, rows, s1, l, r, code.second.first);
    HoistSlot(s2, TEMP, off, code.second.second);
    ExecThen(code.second, s1);
    ExecThen(code, s);
  }

  lemma {:induction false} SetupReady(u: Plan, rows: Chunk, s: State, i: nat, carry: Reg, t: State)
    requires i < |u.p| && IsAdder(u.p[i].op) && u.p[i].op.left < i && u.p[i].op.right < i && 23 <= carry < 29
    requires s.Run? && Readable(u, rows, s, u.p[i].op.left) && Readable(u, rows, s, u.p[i].op.right)
    requires 0 <= SlotOf(u, i) && SlotOf(u, i) + 64 <= |s.scratch|
    requires t.Run? && t.fields == s.fields && t.scratch == s.scratch
    requires Hoisted(u, t, u.p[i].op.left, HOISTED_LEFT) && Hoisted(u, t, u.p[i].op.right, HOISTED_RIGHT)
    requires t.regs[carry] == W(CarrySeedWord(u.p[i].op)) && t.regs[TEMP] == P(Scratch, SlotOf(u, i) * 8)
    ensures AdderReady(u, rows, t, i, carry)
    ensures t.regs[carry] == W(CarryAt(u, rows, i, 0))
  {
    CarrySeed(Col(u.p, u.p[i].op.left, rows), Addend(u.p[i].op, Col(u.p, u.p[i].op.right, rows)),
      CarrySeedWord(u.p[i].op));
  }

  /** What a node with a plane result must achieve: its block filled, all else kept. */
  ghost predicate PlaneNodeEffect(u: Plan, rows: Chunk, s: State, i: nat, t: State)
    requires s.Run? && i < |u.p|
  {
    && t.Run? && t.fields == s.fields && OnlySlots(s, t, SlotOf(u, i), 64)
    && HoldsPlanes(t.scratch, SlotOf(u, i), Col(u.p, i, rows))
    && t.regs[FIELDS] == s.regs[FIELDS] && t.regs[SCRATCH] == s.regs[SCRATCH]
    && (forall r: Reg :: 8 <= r < 16 ==> t.regs[r] == s.regs[r])
  }

  lemma {:induction false} AdderEffect(u: Plan, rows: Chunk, s: State, i: nat, carry: Reg, code: Code)
    requires i < |u.p| && IsAdder(u.p[i].op) && u.p[i].op.left < i && u.p[i].op.right < i && 23 <= carry < 29
    requires s.Run? && s.regs[FIELDS] == P(FieldTable, 0) && s.regs[SCRATCH] == P(Scratch, 0)
    requires Readable(u, rows, s, u.p[i].op.left) && Readable(u, rows, s, u.p[i].op.right)
    requires Apart(u, i, u.p[i].op.left) && Apart(u, i, u.p[i].op.right)
    requires 0 <= SlotOf(u, i) && SlotOf(u, i) + 64 <= |s.scratch|
    requires code == EmitAdder(u, i, carry)
    ensures PlaneNodeEffect(u, rows, s, i, Exec(code, s))
  {
    var s1 := Exec(code.first, s);
    var l, r := u.p[i].op.left, u.p[i].op.right;
    SetupEffect(u, rows, s, l, r, carry, CarrySeedWord(u.p[i].op), SlotOf(u, i) * 8, code.first);
    SetupReady(u, rows, s, i, carry, s1);
    AdderLoop(u, rows, s1, i, carry, 64, code.second);
    ExecThen(code, s);
    AdderFinishes(u, rows, s, i, carry, s1, Exec(code.second, s1));
  }

  lemma {:induction false} AdderFinishes(u: Plan, rows: Chunk, s: State, i: nat, carry: Reg, s1: State, t: State)
    requires s.Run? && i < |u.p| && IsAdder(u.p[i].op) && u.p[i].op.left < i && u.p[i].op.right < i && 23 <= carry < 29
    requires 0 <= SlotOf(u, i) && SlotOf(u, i) + 64 <= |s.scratch|
    requires OnlyRegs(s, s1, {carry, HOISTED_LEFT, HOISTED_RIGHT, TEMP})
    requires AdderAfter(u, rows, s1, i, carry, 64, t)
    ensures PlaneNodeEffect(u, rows, s, i, t)
  {
  }

  // ----- comparisons -----

  lemma {:induction false} CompareLogicEffect(s: State, code: Code, a: Word, b: Word, gt: Word, eq: Word)
    requires s.Run? && code == CompareLogic()
    requires s.regs[PLANE_A] == W(a) && s.regs[PLANE_B] == W(b) && s.regs[MASK_GT] == W(gt) && s.regs[MASK_EQ] == W(eq)
    ensures OnlyRegs(s, Exec(code, s), {RESULT, MASK_GT, MASK_EQ})
    ensures Exec(code, s).regs[MASK_GT] == W(gt + ((a - b) * eq))
    ensures Exec(code, s).regs[MASK_EQ] == W(eq - Eor(a, b))
  {
    ExecFive(Alu(BIC, RESULT, PLANE_A, PLANE_B), Alu(AND, RESULT, RESULT, MASK_EQ), Alu(ORR, MASK_GT, MASK_GT, RESULT),
             Alu(EOR, RESULT, PLANE_A, PLANE_B), Alu(BIC, MASK_EQ, MASK_EQ, RESULT), s);
  }

  /** The operand that plays the larger side: the right one for LT and LE. */
  function Major(op: Op): nat
    requires op.Compare?
  {
    if Swaps(op.cmp) then op.right else op.left
  }

  function Minor(op: Op): nat
    requires op.Compare?
  {
    if Swaps(op.cmp) then op.left else op.right
  }

  ghost predicate CompareReady(u: Plan, rows: Chunk, s: State, i: nat)
    requires i < |u.p| && u.p[i].op.Compare?
  {
    && s.Run? && u.p[i].op.left < i && u.p[i].op.right < i
    && Readable(u, rows, s, u.p[i].op.left) && Hoisted(u, s, u.p[i].op.left, HOISTED_LEFT)
    && Readable(u, rows, s, u.p[i].op.right) && Hoisted(u, s, u.p[i].op.right, HOISTED_RIGHT)
  }

  function GtAt(u: Plan, rows: Chunk, i: nat, k: nat): Word
    requires i < |u.p| && u.p[i].op.Compare? && u.p[i].op.left < i && u.p[i].op.right < i
  {
    GtWord(Col(u.p, Major(u.p[i].op), rows), Col(u.p, Minor(u.p[i].op), rows), k)
  }

  function EqAt(u: Plan, rows: Chunk, i: nat, k: nat): Word
    requires i < |u.p| && u.p[i].op.Compare? && u.p[i].op.left < i && u.p[i].op.right < i
  {
    EqWord(Col(u.p, Major(u.p[i].op), rows), Col(u.p, Minor(u.p[i].op), rows), k)
  }

  lemma {:induction false} CompareBitEffect(u: Plan, rows: Chunk, s: State, i: nat, bit: nat, code: Code)
    requires i < |u.p| && u.p[i].op.Compare? && bit < 64
    requires CompareReady(u, rows, s, i) && code == CompareBit(u, i, bit)
    requires s.regs[MASK_GT] == W(GtAt(u, rows, i, bit + 1)) && s.regs[MASK_EQ] == W(EqAt(u, rows, i, bit + 1))
    ensures OnlyRegs(s, Exec(code, s), {PLANE_A, PLANE_B, RESULT, MASK_GT, MASK_EQ})
    ensures Exec(code, s).regs[MASK_GT] == W(GtAt(u, rows, i, bit))
    ensures Exec(code, s).regs[MASK_EQ] == W(EqAt(u, rows, i, bit))
  {
    var x, y := Col(u.p, Major(u.p[i].op), rows), Col(u.p, Minor(u.p[i].op), rows);
    var l, r := u.p[i].op.left, u.p[i].op.right;
    if Swaps(u.p[i].op.cmp) {
      FetchEffect(u, rows, s, r, HOISTED_RIGHT, l, HOISTED_LEFT, bit, code.first);
    } else {
      FetchEffect(u, rows, s, l, HOISTED_LEFT, r, HOISTED_RIGHT, bit, code.first);
    }
    CompareLogicEffect(Exec(code.first, s), code.second, Plane(x, bit), Plane(y, bit),
                       GtAt(u, rows, i, bit + 1), EqAt(u, rows, i, bit + 1));
    CompareStep(x, y, bit);
  }

  lemma {:induction false} CompareLoop(u: Plan, rows: Chunk, s: State, i: nat, n: nat, code: Code)
    requires i < |u.p| && u.p[i].op.Compare? && n <= 64
    requires CompareReady(u, rows, s, i) && code == CompareBits(u, i, n)
    requires s.regs[MASK_GT] == W(GtAt(u, rows, i, 64)) && s.regs[MASK_EQ] == W(EqAt(u, rows, i, 64))
    ensures OnlyRegs(s, Exec(code, s), {PLANE_A, PLANE_B, RESULT, MASK_GT, MASK_EQ})
    ensures Exec(code, s).regs[MASK_GT] == W(GtAt(u, rows, i, 64 - n))
    ensures Exec(code, s).regs[MASK_EQ] == W(EqAt(u, rows, i, 64 - n))
    decreases n
  {
    if n > 0 {
      CompareLoop(u, rows, s, i, n - 1, code.first);
      CompareBitEffect(u, rows, Exec(code.first, s), i, 64 - n, code.second);
    }
  }

  lemma {:induction false} CompareBodyEffect(u: Plan, rows: Chunk, s: State, i: nat, code: Code)
    requires i < |u.p| && u.p[i].op.Compare? && u.p[i].op.left < i && u.p[i].op.right < i
    requires s.Run? && s.regs[FIELDS] == P(FieldTable, 0) && s.regs[SCRATCH] == P(Scratch, 0)
    requires Readable(u, rows, s, u.p[i].op.left) && Readable(u, rows, s, u.p[i].op.right)
    requires s.regs[MASK_GT] == W({}) && s.regs[MASK_EQ] == W(Ones())
    requires code == CompareBody(u, i)
    ensures OnlyRegs(s, Exec(code, s), {HOISTED_LEFT, HOISTED_RIGHT, PLANE_A, PLANE_B, RESULT, MASK_GT, MASK_EQ})
    ensures Exec(code, s).regs[MASK_GT] == W(GtAt(u, rows, i, 0))
    ensures Exec(code, s).regs[MASK_EQ] == W(EqAt(u, rows, i, 0))
  {
    var l, r := u.p[i].op.left, u.p[i].op.right;
    var s1 := Exec(code.first, s);
    HoistBoth(u, rows, s, l, r, code.first);
    CompareStart(Col(u.p, Major(u.p[i].op), rows), Col(u.p, Minor(u.p[i].op), rows));
    assert CompareReady(u, rows, s1, i);
    CompareLoop(u, rows, s1, i, 64, code.second);
    ExecThen(code, s);
  }

  /** Registers outside the cache do not matter to its coherence. */
  lemma {:induction false} CoherentKept(c: Cache, s: State, t: State)
    requires Coherent(c, s) && t.Run? && t.scratch == s.scratch && t.regs[SCRATCH] == s.regs[SCRATCH]
    requires forall r: Reg :: 8 <= r < 16 ==> t.regs[r] == s.regs[r]
    ensures Coherent(c, t)
  {
  }

  /** Two loads through the cache. */
  lemma {:induction false} TwoLoads(c: Cache, c1: Cache, c2: Cache, x: int, dx: Reg, y: int, dy: Reg, s: State,
      code: Code)
    requires Coherent(c, s) && 0 <= x < MAX_SLOTS && 0 <= y < MAX_SLOTS && dx < 8 && dy < 8 && dx != dy
    requires c1 == AfterAccess(c, x) && c2 == AfterAccess(c1, y)
    requires code == Then(LoadCode(c, x, dx), LoadCode(c1, y, dy))
    ensures
      var t := Exec(code, s);
      && Coherent(c2, t)
      && t.scratch == s.scratch && t.fields == s.fields
      && t.regs[dx] == W(s.scratch[x]) && t.regs[dy] == W(s.scratch[y])
      && t.regs[FIELDS] == s.regs[FIELDS]
  {
    LoadEffect(c, x, dx, s, code.first);
    LoadEffect(c1, y, dy, Exec(code.first, s), code.second);
    ExecThen(code, s);
  }

  /** Two stores through the cache. */
  lemma {:induction false} TwoStores(c: Cache, c1: Cache, c2: Cache, x: int, vx: Reg, y: int, vy: Reg, s: State,
      code: Code)
    requires Coherent(c, s) && 0 <= x < MAX_SLOTS && 0 <= y < MAX_SLOTS && vx < 8 && vy < 8
    requires s.regs[vx].W? && s.regs[vy].W?
    requires c1 == AfterAccess(c, x) && c2 == AfterAccess(c1, y)
    requires code == Then(StoreCode(c, x, vx), StoreCode(c1, y, vy))
    ensures
      var t := Exec(code, s);
      && Coherent(c2, t)
      && t.scratch == s.scratch[x := s.regs[vx].w][y := s.regs[vy].w] && t.fields == s.fields
      && t.regs[FIELDS] == s.regs[FIELDS]
  {
    StoreEffect(c, x, vx, s, code.first);
    StoreEffect(c1, y, vy, Exec(code.first, s), code.second);
    ExecThen(code, s);
  }

  /** Store what one instruction makes of loaded masks. */
  lemma {:induction false} ComputeAndStore(c: Cache, s: State, i: Instr, w: Word, slot: int, code: Code)
    requires Coherent(c, s) && 0 <= slot < MAX_SLOTS && Step(i, s) == Set(s, RESULT, W(w))
    requires code == Then(I(i), StoreCode(c, slot, RESULT))
    ensures
      var t := Exec(code, s);
      && Coherent(AfterAccess(c, slot), t)
      && t.scratch == s.scratch[slot := w] && t.fields == s.fields
      && t.regs[FIELDS] == s.regs[FIELDS]
  {
    var s1 := Step(i, s);
    CoherentKept(c, s, s1);
    StoreEffect(c, slot, RESULT, s1, code.second);
    ExecThen(code, s);
  }

  lemma {:induction false} JoinEffect(cmp: CompareOp, x: int, q: int, c: Cache, s: State, code: Code)
    requires Coherent(c, s) && 0 <= x < MAX_SLOTS && 0 <= q < MAX_SLOTS && code == EmitJoin(cmp, x, q, c).code
    ensures
      var t := Exec(code, s);
      && Coherent(EmitJoin(cmp, x, q, c).cache, t)
      && t.scratch == s.scratch[x := if cmp == EQ then s.scratch[q] else s.scratch[x] + s.scratch[q]]
      && t.fields == s.fields && t.regs[FIELDS] == s.regs[FIELDS]
  {
    var c1 := AfterAccess(c, x);
    var c2 := AfterAccess(c1, q);
    TwoLoads(c, c1, c2, x, PLANE_A, q, PLANE_B, s, code.first);
    var s1 := Exec(code.first, s);
    var w: Word := if cmp == EQ then s.scratch[q] else s.scratch[x] + s.scratch[q];
    ComputeAndStore(c2, s1, code.second.first.i, w, x, code.second);
    ExecThen(code, s);
  }

  /** The mask that a comparison finally leaves. */
  lemma {:induction false} CompareMask(u: Plan, rows: Chunk, i: nat)
    requires i < |u.p| && u.p[i].op.Compare? && u.p[i].op.left < i && u.p[i].op.right < i
    ensures
      var gt, eq := GtAt(u, rows, i, 0), EqAt(u, rows, i, 0);
      MaskOf(u.p, i, rows) ==
        match u.p[i].op.cmp
        case GT => gt
        case LT => gt
        case GE => gt + eq
        case LE => gt + eq
        case EQ => eq
  {
    var x, y := Col(u.p, Major(u.p[i].op), rows), Col(u.p, Minor(u.p[i].op), rows);
    forall r: nat | r < 64
      ensures r in GtAt(u, rows, i, 0) <==> x[r] > y[r]
      ensures r in EqAt(u, rows, i, 0) <==> x[r] == y[r]
    {
      CompareEnd(x, y, r);
    }
  }

  /** What a node with a mask result must achieve: its slot filled, all slots it does not own kept. */
  ghost predicate MaskNodeEffect(u: Plan, rows: Chunk, s: State, i: nat, c: Cache, t: State)
    requires s.Run? && i < |u.p|
  {
    && Coherent(c, t) && t.fields == s.fields && t.regs[FIELDS] == s.regs[FIELDS]
    && |t.scratch| == |s.scratch|
    && 0 <= SlotOf(u, i) < |t.scratch| && t.scratch[SlotOf(u, i)] == MaskOf(u.p, i, rows)
    && (forall x :: 0 <= x < |s.scratch| && x != SlotOf(u, i) && x != EqSlotOf(u, i) ==> t.scratch[x] == s.scratch[x])
  }

  /** The five caches that a comparison passes through. */
  ghost predicate CompareCaches(c: Cache, c1: Cache, c2: Cache, c3: Cache, c4: Cache, x: int, q: int) {
    && CacheValid(c) && 0 <= x < MAX_SLOTS && 0 <= q < MAX_SLOTS
    && c1 == AfterAccess(c, q) && c2 == AfterAccess(c1, x) && c3 == AfterAccess(c2, x) && c4 == AfterAccess(c3, q)
  }

  /** Load both masks and compare all bits. */
  lemma {:induction false} CompareLoaded(u: Plan, rows: Chunk, s: State, i: nat, x: int, q: int, c: Cache, c1: Cache,
      c2: Cache, loads: Code, body: Code)
    requires i < |u.p| && u.p[i].op.Compare? && u.p[i].op.left < i && u.p[i].op.right < i
    requires Coherent(c, s) && s.regs[FIELDS] == P(FieldTable, 0)
    requires Readable(u, rows, s, u.p[i].op.left) && Readable(u, rows, s, u.p[i].op.right)
    requires 0 <= x < MAX_SLOTS && 0 <= q < MAX_SLOTS && s.scratch[x] == {} && s.scratch[q] == Ones()
    requires c1 == AfterAccess(c, q) && c2 == AfterAccess(c1, x)
    requires loads == Then(LoadCode(c, q, MASK_EQ), LoadCode(c1, x, MASK_GT)) && body == CompareBody(u, i)
    ensures
      var t := Exec(body, Exec(loads, s));
      && Coherent(c2, t) && t.scratch == s.scratch && t.fields == s.fields && t.regs[FIELDS] == s.regs[FIELDS]
      && t.regs[MASK_GT] == W(GtAt(u, rows, i, 0)) && t.regs[MASK_EQ] == W(EqAt(u, rows, i, 0))
  {
    TwoLoads(c, c1, c2, q, MASK_EQ, x, MASK_GT, s, loads);
    var s1 := Exec(loads, s);
    ReadableSame(u, rows, s, s1, u.p[i].op.left);
    ReadableSame(u, rows, s, s1, u.p[i].op.right);
    CompareOnLoaded(u, rows, s1, i, c2, body);
  }

  lemma {:induction false} CompareOnLoaded(u: Plan, rows: Chunk, s: State, i: nat, c: Cache, body: Code)
    requires i < |u.p| && u.p[i].op.Compare? && u.p[i].op.left < i && u.p[i].op.right < i
    requires Coherent(c, s) && s.regs[FIELDS] == P(FieldTable, 0)
    requires Readable(u, rows, s, u.p[i].op.left) && Readable(u, rows, s, u.p[i].op.right)
    requires s.regs[MASK_GT] == W({}) && s.regs[MASK_EQ] == W(Ones())
    requires body == CompareBody(u, i)
    ensures
      var t := Exec(body, s);
      && Coherent(c, t) && t.scratch == s.scratch && t.fields == s.fields && t.regs[FIELDS] == s.regs[FIELDS]
      && t.regs[MASK_GT] == W(GtAt(u, rows, i, 0)) && t.regs[MASK_EQ] == W(EqAt(u, rows, i, 0))
  {
    CompareBodyEffect(u, rows, s, i, body);
    CoherentKept(c, s, Exec(body, s));
  }

  lemma {:induction false} ReadableSame(u: Plan, rows: Chunk, s: State, t: State, n: nat)
    requires s.Run? && t.Run? && t.fields == s.fields && t.scratch == s.scratch && Readable(u, rows, s, n)
    ensures Readable(u, rows, t, n)
  {
  }

  /** Load, compare all bits, store both masks. */
  lemma {:induction false} CompareThroughCache(u: Plan, rows: Chunk, s: State, i: nat, x: int, q: int,
                            c: Cache, c1: Cache, c2: Cache, c3: Cache, c4: Cache, code: Code)
    requires i < |u.p| && u.p[i].op.Compare? && u.p[i].op.left < i && u.p[i].op.right < i
    requires CompareCaches(c, c1, c2, c3, c4, x, q)
    requires Coherent(c, s) && s.regs[FIELDS] == P(FieldTable, 0)
    requires Readable(u, rows, s, u.p[i].op.left) && Readable(u, rows, s, u.p[i].op.right)
    requires s.scratch[x] == {} && s.scratch[q] == Ones()
    requires code.Then? && code.second.Then?
    requires code.first == Then(LoadCode(c, q, MASK_EQ), LoadCode(c1, x, MASK_GT))
    requires code.second.first == CompareBody(u, i)
    requires code.second.second == Then(StoreCode(c2, x, MASK_GT), StoreCode(c3, q, MASK_EQ))
    ensures
      var t := Exec(code, s);
      && Coherent(c4, t)
      && t.scratch == s.scratch[x := GtAt(u, rows, i, 0)][q := EqAt(u, rows, i, 0)]
      && t.fields == s.fields && t.regs[FIELDS] == s.regs[FIELDS]
  {
    CompareLoaded(u, rows, s, i, x, q, c, c1, c2, code.first, code.second.first);
    var s1 := Exec(code.first, s);
    TwoStores(c2, c3, c4, x, MASK_GT, q, MASK_EQ, Exec(code.second.first, s1), code.second.second);
    ExecThen(code.second, s1);
    ExecThen(code, s);
  }

  /** GE, LE and EQ add the join to the strict comparison. */
  lemma {:induction false} CompareJoined(u: Plan, rows: Chunk, s: State, i: nat, x: int, q: int, c4: Cache,
      s1: State, j: Emitted, code: Code)
    requires i < |u.p| && u.p[i].op.Compare? && u.p[i].op.left < i && u.p[i].op.right < i && Joins(u.p[i].op.cmp)
    requires 0 <= x < MAX_SLOTS && 0 <= q < MAX_SLOTS && x != q && s.Run? && |s.scratch| >= MAX_SLOTS
    requires Coherent(c4, s1) && s1.scratch == s.scratch[x := GtAt(u, rows, i, 0)][q := EqAt(u, rows, i, 0)]
    requires j == EmitJoin(u.p[i].op.cmp, x, q, c4) && code == j.code
    ensures
      var t := Exec(code, s1);
      && Coherent(j.cache, t) && t.fields == s1.fields && t.regs[FIELDS] == s1.regs[FIELDS]
      && t.scratch == s1.scratch[x := MaskOf(u.p, i, rows)]
  {
    CompareMask(u, rows, i);
    JoinEffect(u.p[i].op.cmp, x, q, c4, s1, code);
  }

  /** GT and LT keep the first mask. */
  lemma {:induction false} CompareStrict(u: Plan, rows: Chunk, i: nat, x: int, q: int, m: seq<Word>, s1: State)
    requires i < |u.p| && u.p[i].op.Compare? && u.p[i].op.left < i && u.p[i].op.right < i && !Joins(u.p[i].op.cmp)
    requires 0 <= x < |m| && 0 <= q < |m| && x != q && s1.Run?
    requires s1.scratch == m[x := GtAt(u, rows, i, 0)][q := EqAt(u, rows, i, 0)]
    ensures s1.scratch == s1.scratch[x := MaskOf(u.p, i, rows)]
  {
    CompareMask(u, rows, i);
  }

  /** The strict comparison, with the join behind it where there is one. */
  lemma {:induction false} CompareCombine(u: Plan, rows: Chunk, s: State, i: nat, x: int, q: int, c4: Cache,
      body: Code, e: Emitted)
    requires i < |u.p| && u.p[i].op.Compare? && u.p[i].op.left < i && u.p[i].op.right < i
    requires x == SlotOf(u, i) && q == EqSlotOf(u, i) && s.Run? && |s.scratch| >= MAX_SLOTS
    requires 0 <= x < MAX_SLOTS && 0 <= q < MAX_SLOTS && x != q
    requires
      var s1 := Exec(body, s);
      && Coherent(c4, s1) && s1.scratch == s.scratch[x := GtAt(u, rows, i, 0)][q := EqAt(u, rows, i, 0)]
      && s1.fields == s.fields && s1.regs[FIELDS] == s.regs[FIELDS]
    requires
      if Joins(u.p[i].op.cmp)
      then e.code == Then(body, EmitJoin(u.p[i].op.cmp, x, q, c4).code) &&
        e.cache == EmitJoin(u.p[i].op.cmp, x, q, c4).cache
      else e == Emitted(body, c4)
    ensures MaskNodeEffect(u, rows, s, i, e.cache, Exec(e.code, s))
  {
    var s1 := Exec(body, s);
    if Joins(u.p[i].op.cmp) {
      CompareJoined(u, rows, s, i, x, q, c4, s1, EmitJoin(u.p[i].op.cmp, x, q, c4), e.code.second);
      ExecThen(e.code, s);
    } else {
      CompareStrict(u, rows, i, x, q, s.scratch, s1);
    }
    CompareSettles(u, rows, s, i, e.cache, Exec(e.code, s), s1.scratch);
  }

  lemma {:induction false} CompareEffect(u: Plan, rows: Chunk, s: State, i: nat, x: int, q: int, c: Cache, e: Emitted)
    requires i < |u.p| && u.p[i].op.Compare? && u.p[i].op.left < i && u.p[i].op.right < i
    requires Coherent(c, s) && s.regs[FIELDS] == P(FieldTable, 0)
    requires Readable(u, rows, s, u.p[i].op.left) && Readable(u, rows, s, u.p[i].op.right)
    requires x == SlotOf(u, i) && q == EqSlotOf(u, i)
    requires 0 <= x < MAX_SLOTS && 0 <= q < MAX_SLOTS && x != q && s.scratch[x] == {} && s.scratch[q] == Ones()
    requires e == EmitCompare(u, i, x, q, c)
    ensures MaskNodeEffect(u, rows, s, i, e.cache, Exec(e.code, s))
  {
    var c1 := AfterAccess(c, q);
    var c2 := AfterAccess(c1, x);
    var c3 := AfterAccess(c2, x);
    var c4 := AfterAccess(c3, q);
    var body := if Joins(u.p[i].op.cmp) then e.code.first else e.code;
    CompareThroughCache(u, rows, s, i, x, q, c, c1, c2, c3, c4, body);
    CompareCombine(u, rows, s, i, x, q, c4, body, e);
  }

  lemma {:induction false} CompareSettles(u: Plan, rows: Chunk, s: State, i: nat, c: Cache, t: State, m: seq<Word>)
    requires i < |u.p| && s.Run? && Coherent(c, t) && t.fields == s.fields && t.regs[FIELDS] == s.regs[FIELDS]
    requires 0 <= SlotOf(u, i) < |s.scratch| == |m| && t.scratch == m[SlotOf(u, i) := MaskOf(u.p, i, rows)]
    requires forall x :: 0 <= x < |m| && x != SlotOf(u, i) && x != EqSlotOf(u, i) ==> m[x] == s.scratch[x]
    ensures MaskNodeEffect(u, rows, s, i, c, t)
  {
  }

  // ----- AND, OR, NOT -----

  lemma {:induction false} NotEffect(s: State, c: Cache, l: int, x: int, e: Emitted)
    requires Coherent(c, s) && 0 <= l < MAX_SLOTS && 0 <= x < MAX_SLOTS && e == EmitNot(l, x, c)
    ensures
      var t := Exec(e.code, s);
      && Coherent(e.cache, t)
      && t.scratch == s.scratch[x := Mvn(s.scratch[l])] && t.fields == s.fields && t.regs[FIELDS] == s.regs[FIELDS]
  {
    LoadEffect(c, l, PLANE_A, s, e.code.first);
    ComputeAndStore(AfterAccess(c, l), Exec(e.code.first, s), MvnR(RESULT, PLANE_A), Mvn(s.scratch[l]), x,
      e.code.second);
    ExecThen(e.code, s);
  }

  lemma {:induction false} BinaryEffect(s: State, c: Cache, op: AluOp, l: int, r: int, x: int, e: Emitted)
    requires Coherent(c, s) && 0 <= l < MAX_SLOTS && 0 <= r < MAX_SLOTS && 0 <= x < MAX_SLOTS
    requires e == EmitBinary(op, l, r, x, c)
    ensures
      var t := Exec(e.code, s);
      && Coherent(e.cache, t)
      && t.scratch == s.scratch[x := AluResult(op, s.scratch[l], s.scratch[r])]
      && t.fields == s.fields && t.regs[FIELDS] == s.regs[FIELDS]
  {
    var c1 := AfterAccess(c, l);
    var c2 := AfterAccess(c1, r);
    TwoLoads(c, c1, c2, l, PLANE_A, r, PLANE_B, s, e.code.first);
    ComputeAndStore(c2, Exec(e.code.first, s), Alu(op, RESULT, PLANE_A, PLANE_B),
                    AluResult(op, s.scratch[l], s.scratch[r]), x, e.code.second);
    ExecThen(e.code, s);
  }

  lemma {:induction false} LogicMask(p: Dag, rows: Chunk, i: nat)
    requires i < |p| && (p[i].op.And? || p[i].op.Or? || p[i].op.Not?)
    requires p[i].op.left < i && (!p[i].op.Not? ==> p[i].op.right < i)
    ensures MaskOf(p, i, rows) ==
      if p[i].op.Not? then Mvn(MaskOf(p, p[i].op.left, rows))
      else AluResult(if p[i].op.And? then AND else ORR, MaskOf(p, p[i].op.left, rows), MaskOf(p, p[i].op.right, rows))
  {
  }

  lemma {:induction false} LogicEffect(u: Plan, rows: Chunk, s: State, i: nat, c: Cache, e: Emitted)
    requires i < |u.p| && Coherent(c, s)
    requires u.p[i].op.And? || u.p[i].op.Or? || u.p[i].op.Not?
    requires u.p[i].op.left < i && IsMask(u.p[u.p[i].op.left].op) && Done(u, rows, s, u.p[i].op.left)
    requires 0 <= SlotOf(u, i) < MAX_SLOTS && 0 <= SlotOf(u, u.p[i].op.left) < MAX_SLOTS
    requires !u.p[i].op.Not? ==>
      && u.p[i].op.right < i && IsMask(u.p[u.p[i].op.right].op) && Done(u, rows, s, u.p[i].op.right)
      && 0 <= SlotOf(u, u.p[i].op.right) < MAX_SLOTS
    requires
      var l, x := SlotOf(u, u.p[i].op.left), SlotOf(u, i);
      e == if u.p[i].op.Not? then EmitNot(l, x, c)
           else EmitBinary(if u.p[i].op.And? then AND else ORR, l, SlotOf(u, u.p[i].op.right), x, c)
    ensures MaskNodeEffect(u, rows, s, i, e.cache, Exec(e.code, s))
  {
    LogicMask(u.p, rows, i);
    var l, x := SlotOf(u, u.p[i].op.left), SlotOf(u, i);
    if u.p[i].op.Not? {
      NotEffect(s, c, l, x, e);
    } else {
      BinaryEffect(s, c, if u.p[i].op.And? then AND else ORR, l, SlotOf(u, u.p[i].op.right), x, e);
    }
  }

  // ----- SELECT -----

  lemma {:induction false} LoadIndexedConst(s: State, v: U64, d: Reg, bit: nat, code: Code)
    requires s.Run? && s.regs[BIT_INDEX] == N(bit) && bit < 64 && (d == PLANE_A || d == PLANE_B)
    requires code == Four(MovImm(SCRATCH1, W(ToWord(v))), LsrR(d, SCRATCH1, BIT_INDEX), AndOne(d, d), NegR(d, d))
    ensures OnlyRegs(s, Exec(code, s), {SCRATCH1, d}) && Exec(code, s).regs[d] == W(Plane(ConstColumn(v), bit))
  {
    hide Plane, ConstColumn, LsrWord, NegWord, ToWord;
    var i1, i2, i3, i4 := MovImm(SCRATCH1, W(ToWord(v))), LsrR(d, SCRATCH1, BIT_INDEX), AndOne(d, d), NegR(d, d);
    var s2 := Step(i2, Step(i1, s));
    assert OnlyRegs(s, s2, {SCRATCH1, d}) && s2.regs[d] == W(LsrWord(ToWord(v), bit));
    var s4 := Step(i4, Step(i3, s2));
    assert OnlyRegs(s2, s4, {d}) && s4.regs[d] == W(NegWord(LsrWord(ToWord(v), bit) * {0}));
    ExecFour(i1, i2, i3, i4, s);
    BroadcastBit(v, bit);
  }

  lemma {:induction false} LoadIndexedField(s: State, k: nat, d: Reg, bit: nat, code: Code)
    requires s.Run? && s.regs[BIT_INDEX] == N(bit) && (d == PLANE_A || d == PLANE_B)
    requires s.regs[FIELDS] == P(FieldTable, 0)
    requires k < |s.fields| && bit < |s.fields[k]|
    requires code == Two(Ldr(TEMP, Imm(FIELDS, k * 8)), Ldr(d, Idx8(TEMP, BIT_INDEX)))
    ensures OnlyRegs(s, Exec(code, s), {TEMP, d}) && Exec(code, s).regs[d] == W(s.fields[k][bit])
  {
    ExecTwo(Ldr(TEMP, Imm(FIELDS, k * 8)), Ldr(d, Idx8(TEMP, BIT_INDEX)), s);
  }

  lemma {:induction false} LoadIndexedSlot(s: State, at: nat, d: Reg, bit: nat, code: Code)
    requires s.Run? && s.regs[BIT_INDEX] == N(bit) && (d == PLANE_A || d == PLANE_B) && s.regs[SCRATCH] == P(Scratch, 0)
    requires at + bit < |s.scratch|
    requires code == Three(MovImm(SCRATCH1, N(at * 8)), AddLsl3(SCRATCH1, SCRATCH1, BIT_INDEX),
      Ldr(d, Idx(SCRATCH, SCRATCH1)))
    ensures OnlyRegs(s, Exec(code, s), {SCRATCH1, d}) && Exec(code, s).regs[d] == W(s.scratch[at + bit])
  {
    var i1, i2, i3 := MovImm(SCRATCH1, N(at * 8)), AddLsl3(SCRATCH1, SCRATCH1, BIT_INDEX),
      Ldr(d, Idx(SCRATCH, SCRATCH1));
    var s2 := Step(i2, Step(i1, s));
    assert s2.regs[SCRATCH1] == N((at + bit) * 8);
    ExecThree(i1, i2, i3, s);
  }

  lemma {:induction false} LoadIndexedEffect(u: Plan, rows: Chunk, s: State, n: nat, d: Reg, bit: nat, code: Code)
    requires s.Run? && s.regs[BIT_INDEX] == N(bit) && bit < 64 && (d == PLANE_A || d == PLANE_B)
    requires s.regs[FIELDS] == P(FieldTable, 0) && s.regs[SCRATCH] == P(Scratch, 0)
    requires Readable(u, rows, s, n) && code == LoadIndexed(u, n, d)
    ensures OnlyRegs(s, Exec(code, s), {TEMP, SCRATCH1, d}) && Exec(code, s).regs[d] == W(Plane(Col(u.p, n, rows), bit))
  {
    hide Exec, Step, Plane, ToWord, Wrap;
    match u.p[n].op
    case Load(_) =>
      LoadIndexedField(s, FieldIdx(u, n), d, bit, code);
    case Const(v) =>
      ColumnsAgree(Col(u.p, n, rows), ConstColumn(Wrap(v)));
      LoadIndexedConst(s, Wrap(v), d, bit, code);
    case _ =>
      LoadIndexedSlot(s, SlotOf(u, n), d, bit, code);
  }

  /** Index the bit and fetch both operand planes. */
  lemma {:induction false} SelectFetch(u: Plan, rows: Chunk, s: State, l: nat, r: nat, bit: nat, code: Code)
    requires s.Run? && bit < 64 && s.regs[FIELDS] == P(FieldTable, 0) && s.regs[SCRATCH] == P(Scratch, 0)
    requires Readable(u, rows, s, l) && Readable(u, rows, s, r)
    requires code == Then(I(MovImm(BIT_INDEX, N(bit))), Then(LoadIndexed(u, l, PLANE_A), LoadIndexed(u, r, PLANE_B)))
    ensures OnlyRegs(s, Exec(code, s), {BIT_INDEX, TEMP, SCRATCH1, PLANE_A, PLANE_B})
    ensures Exec(code, s).regs[PLANE_A] == W(Plane(Col(u.p, l, rows), bit))
    ensures Exec(code, s).regs[PLANE_B] == W(Plane(Col(u.p, r, rows), bit))
  {
    var s1 := Exec(code.first, s);
    var s2 := Exec(code.second.first, s1);
    ReadableSame(u, rows, s, s1, l);
    LoadIndexedEffect(u, rows, s1, l, PLANE_A, bit, code.second.first);
    ReadableSame(u, rows, s, s2, r);
    LoadIndexedEffect(u, rows, s2, r, PLANE_B, bit, code.second.second);
    ExecThen(code.second, s1);
    ExecThen(code, s);
  }

  lemma {:induction false} SelectLogicEffect(s: State, code: Code, m: Word, a: Word, b: Word)
    requires s.Run? && code == SelectLogic()
    requires s.regs[MASK_GT] == W(m) && s.regs[PLANE_A] == W(a) && s.regs[PLANE_B] == W(b)
    ensures OnlyRegs(s, Exec(code, s), {SCRATCH1, TEMP}) && Exec(code, s).regs[SCRATCH1] == W((m * a) + (b - m))
  {
    ExecThree(Alu(AND, SCRATCH1, MASK_GT, PLANE_A), Alu(BIC, TEMP, PLANE_B, MASK_GT),
      Alu(ORR, SCRATCH1, SCRATCH1, TEMP), s);
  }

  lemma {:induction false} StoreAt(s: State, at: nat, w: Word, code: Code)
    requires s.Run? && s.regs[SCRATCH] == P(Scratch, 0) && at < |s.scratch| && s.regs[SCRATCH1] == W(w)
    requires code == Two(MovImm(TEMP, N(at * 8)), Str(SCRATCH1, Idx(SCRATCH, TEMP)))
    ensures Exec(code, s) == Run(s.regs[TEMP := N(at * 8)], s.flags, s.fields, s.scratch[at := w])
  {
    ExecTwo(MovImm(TEMP, N(at * 8)), Str(SCRATCH1, Idx(SCRATCH, TEMP)), s);
  }

  lemma {:induction false} SelectStore(s: State, at: nat, m: Word, a: Word, b: Word, code: Code)
    requires s.Run? && s.regs[SCRATCH] == P(Scratch, 0) && at < |s.scratch|
    requires s.regs[MASK_GT] == W(m) && s.regs[PLANE_A] == W(a) && s.regs[PLANE_B] == W(b)
    requires code == Then(SelectLogic(), Two(MovImm(TEMP, N(at * 8)), Str(SCRATCH1, Idx(SCRATCH, TEMP))))
    ensures
      var t := Exec(code, s);
      && t.Run? && t.fields == s.fields && t.scratch == s.scratch[at := (m * a) + (b - m)]
      && (forall r: Reg :: r !in {SCRATCH1, TEMP} ==> t.regs[r] == s.regs[r])
  {
    SelectLogicEffect(s, code.first, m, a, b);
    StoreAt(Exec(code.first, s), at, (m * a) + (b - m), code.second);
    ExecThen(code, s);
  }

  lemma {:induction false} SelectWord(p: Dag, rows: Chunk, i: nat, bit: nat)
    requires i < |p| && p[i].op.Select? && p[i].op.cond < i && p[i].op.left < i && p[i].op.right < i && bit < 64
    ensures
      var m, a, b := MaskOf(p, p[i].op.cond, rows), Plane(Col(p, p[i].op.left, rows), bit),
        Plane(Col(p, p[i].op.right, rows), bit);
      Plane(Col(p, i, rows), bit) == (m * a) + (b - m)
  {
  }

  function SelectTouches(): set<Reg> {
    {BIT_INDEX, TEMP, SCRATCH1, PLANE_A, PLANE_B}
  }

  lemma {:induction false} SelectBitEffect(u: Plan, rows: Chunk, s: State, i: nat, bit: nat, code: Code)
    requires i < |u.p| && u.p[i].op.Select? && u.p[i].op.cond < i && u.p[i].op.left < i && u.p[i].op.right < i
    requires bit < 64
    requires s.Run? && s.regs[FIELDS] == P(FieldTable, 0) && s.regs[SCRATCH] == P(Scratch, 0)
    requires Readable(u, rows, s, u.p[i].op.left) && Readable(u, rows, s, u.p[i].op.right)
    requires s.regs[MASK_GT] == W(MaskOf(u.p, u.p[i].op.cond, rows))
    requires 0 <= SlotOf(u, i) && SlotOf(u, i) + 64 <= |s.scratch| && code == SelectBit(u, i, bit)
    ensures
      var t := Exec(code, s);
      && t.Run? && t.fields == s.fields
      && t.scratch == s.scratch[SlotOf(u, i) + bit := Plane(Col(u.p, i, rows), bit)]
      && (forall r: Reg :: r !in SelectTouches() ==> t.regs[r] == s.regs[r])
  {
    var l, r := u.p[i].op.left, u.p[i].op.right;
    SelectFetch(u, rows, s, l, r, bit, code.first);
    SelectWord(u.p, rows, i, bit);
    SelectStore(Exec(code.first, s), SlotOf(u, i) + bit, MaskOf(u.p, u.p[i].op.cond, rows),
                Plane(Col(u.p, l, rows), bit), Plane(Col(u.p, r, rows), bit), code.second);
    ExecThen(code, s);
  }

  /** Where a selection that started in s stands after n bits. */
  ghost predicate SelectAfter(u: Plan, rows: Chunk, s: State, i: nat, n: nat, t: State)
    requires s.Run? && i < |u.p| && 0 <= SlotOf(u, i) && SlotOf(u, i) + 64 <= |s.scratch| && n <= 64
  {
    && t.Run? && t.fields == s.fields && OnlySlots(s, t, SlotOf(u, i), 64)
    && (forall b: nat :: b < n ==> t.scratch[SlotOf(u, i) + b] == Plane(Col(u.p, i, rows), b))
    && (forall r: Reg :: r !in SelectTouches() ==> t.regs[r] == s.regs[r])
  }

  lemma {:induction false} SelectGrows(u: Plan, rows: Chunk, s: State, i: nat, n: nat, t: State, t': State)
    requires s.Run? && i < |u.p| && 0 <= SlotOf(u, i) && SlotOf(u, i) + 64 <= |s.scratch| && n < 64
    requires SelectAfter(u, rows, s, i, n, t)
    requires t'.Run? && t'.fields == t.fields
    requires t'.scratch == t.scratch[SlotOf(u, i) + n := Plane(Col(u.p, i, rows), n)]
    requires forall r: Reg :: r !in SelectTouches() ==> t'.regs[r] == t.regs[r]
    ensures SelectAfter(u, rows, s, i, n + 1, t')
  {
  }

  lemma {:induction false} SelectLoop(u: Plan, rows: Chunk, s: State, i: nat, n: nat, code: Code)
    requires i < |u.p| && u.p[i].op.Select? && u.p[i].op.cond < i && u.p[i].op.left < i && u.p[i].op.right < i
    requires n <= 64
    requires s.Run? && s.regs[FIELDS] == P(FieldTable, 0) && s.regs[SCRATCH] == P(Scratch, 0)
    requires Readable(u, rows, s, u.p[i].op.left) && Readable(u, rows, s, u.p[i].op.right)
    requires Apart(u, i, u.p[i].op.left) && Apart(u, i, u.p[i].op.right)
    requires s.regs[MASK_GT] == W(MaskOf(u.p, u.p[i].op.cond, rows))
    requires 0 <= SlotOf(u, i) && SlotOf(u, i) + 64 <= |s.scratch| && code == SelectBits(u, i, n)
    ensures SelectAfter(u, rows, s, i, n, Exec(code, s))
    decreases n
  {
    if n > 0 {
      SelectLoop(u, rows, s, i, n - 1, code.first);
      var t := Exec(code.first, s);
      ReadableKept(u, rows, s, t, i, u.p[i].op.left);
      ReadableKept(u, rows, s, t, i, u.p[i].op.right);
      SelectBitEffect(u, rows, t, i, n - 1, code.second);
      SelectGrows(u, rows, s, i, n - 1, t, Exec(code.second, t));
    }
  }

  /** Slot x is one of node i's. */
  predicate Mine(u: Plan, i: nat, x: int)
    requires i < |u.p|
  {
    if IsMask(u.p[i].op) then x == SlotOf(u, i) || x == EqSlotOf(u, i)
    else SlotOf(u, i) <= x < SlotOf(u, i) + 64
  }

  /** What the code of node i must achieve: the node done, everybody else's slots kept, the cache coherent. */
  ghost predicate NodeEffect(u: Plan, rows: Chunk, s: State, i: nat, c: Cache, t: State)
    requires s.Run? && i < |u.p|
  {
    && Coherent(c, t) && t.fields == s.fields && t.regs[FIELDS] == s.regs[FIELDS]
    && |t.scratch| == |s.scratch| && Done(u, rows, t, i)
    && (forall x :: 0 <= x < |s.scratch| && !Mine(u, i, x) ==> t.scratch[x] == s.scratch[x])
  }

  /** No cached slot lies in the block of plane node i. */
  ghost predicate Uncached(u: Plan, c: Cache, i: nat) {
    forall x :: x in c.slotToReg ==> !(SlotOf(u, i) <= x < SlotOf(u, i) + 64)
  }

  lemma {:induction false} PlaneNode(u: Plan, rows: Chunk, s: State, i: nat, c: Cache, t: State)
    requires i < |u.p| && !IsMask(u.p[i].op) && Coherent(c, s) && Uncached(u, c, i)
    requires PlaneNodeEffect(u, rows, s, i, t)
    ensures NodeEffect(u, rows, s, i, c, t)
  {
    DirectStore(c, s, t, SlotOf(u, i), 64);
  }

  lemma {:induction false} SelectPlaneEffect(u: Plan, rows: Chunk, s: State, i: nat, t: State)
    requires i < |u.p| && s.Run? && 0 <= SlotOf(u, i) && SlotOf(u, i) + 64 <= |s.scratch|
    requires SelectAfter(u, rows, s, i, 64, t)
    ensures PlaneNodeEffect(u, rows, s, i, t)
  {
  }

  lemma {:induction false} SelectEffect(u: Plan, rows: Chunk, s: State, i: nat, m: int, c: Cache, e: Emitted)
    requires i < |u.p| && u.p[i].op.Select? && u.p[i].op.cond < i && u.p[i].op.left < i && u.p[i].op.right < i
    requires Coherent(c, s) && s.regs[FIELDS] == P(FieldTable, 0)
    requires Readable(u, rows, s, u.p[i].op.left) && Readable(u, rows, s, u.p[i].op.right)
    requires Apart(u, i, u.p[i].op.left) && Apart(u, i, u.p[i].op.right)
    requires 0 <= m < MAX_SLOTS && s.scratch[m] == MaskOf(u.p, u.p[i].op.cond, rows)
    requires 0 <= SlotOf(u, i) && SlotOf(u, i) + 64 <= |s.scratch|
    requires Uncached(u, AfterAccess(c, m), i) && e == EmitSelect(u, i, m, c)
    ensures NodeEffect(u, rows, s, i, e.cache, Exec(e.code, s))
  {
    LoadEffect(c, m, MASK_GT, s, e.code.first);
    var s1 := Exec(e.code.first, s);
    ReadableSame(u, rows, s, s1, u.p[i].op.left);
    ReadableSame(u, rows, s, s1, u.p[i].op.right);
    SelectLoop(u, rows, s1, i, 64, e.code.second);
    var t := Exec(e.code.second, s1);
    SelectPlaneEffect(u, rows, s1, i, t);
    PlaneNode(u, rows, s1, i, e.cache, t);
    ExecThen(e.code, s);
    SelectFrame(u, rows, s, s1, i, e.cache, t);
  }

  lemma {:induction false} SelectFrame(u: Plan, rows: Chunk, s: State, s1: State, i: nat, c: Cache, t: State)
    requires i < |u.p| && s.Run? && s1.Run? && s1.fields == s.fields && s1.scratch == s.scratch
    requires s1.regs[FIELDS] == s.regs[FIELDS]
    requires NodeEffect(u, rows, s1, i, c, t)
    ensures NodeEffect(u, rows, s, i, c, t)
  {
  }
}
