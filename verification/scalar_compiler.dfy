/**
 compile_scalar_expression (src/jit/compiler.cpp): a kernel that evaluates the
 expression row by row on raw columns, and its agreement with the bit-sliced kernel.
 */
module ScalarCompiler {
  import opened Words
  import opened Machine
  import opened Ir
  import opened Scratchpad
  import opened Layout
  import opened KernelCorrect
  import opened KernelTheorem
  import opened Compiler
  import CompilerDriver

  const FIELDS: Reg := 19
  const PAD: Reg := 20
  const MASK: Reg := 21
  const ROW: Reg := 22
  const TEMP: Reg := 23
  const LEFT: Reg := 16
  const RIGHT: Reg := 17
  const RES: Reg := 5

  // ----- slots -----

  function NonLeaves(p: Dag, order: seq<nat>): nat
    requires forall n :: n in order ==> n < |p|
  {
    if order == [] then 0
    else
      var front, last := order[..|order| - 1], order[|order| - 1];
      assert (forall n :: n in front ==> n in order) && last in order;
      NonLeaves(p, front) + if IsLeaf(p[last].op) then 0 else 1
  }

  /** Every operator gets the next slot. */
  function SlotMap(p: Dag, order: seq<nat>): map<nat, nat>
    requires forall n :: n in order ==> n < |p|
  {
    if order == [] then map[]
    else
      var front, last := order[..|order| - 1], order[|order| - 1];
      assert (forall n :: n in front ==> n in order) && last in order;
      if IsLeaf(p[last].op) then SlotMap(p, front) else SlotMap(p, front)[last := NonLeaves(p, front)]
  }

  ghost predicate SlotsOk(p: Dag, order: seq<nat>, slot: map<nat, nat>)
    requires forall n :: n in order ==> n < |p|
  {
    && (forall n :: n in slot <==> n in order && !IsLeaf(p[n].op))
    && (forall n :: n in slot ==> slot[n] < NonLeaves(p, order))
    && (forall n, m :: n in slot && m in slot && slot[n] == slot[m] ==> n == m)
  }

  lemma {:induction false} SlotsSnoc(p: Dag, front: seq<nat>, last: nat, slot: map<nat, nat>, order: seq<nat>)
    requires (forall n :: n in front ==> n < |p|) && last < |p| && last !in front && order == front + [last]
    requires SlotsOk(p, front, slot) && NonLeaves(p, order) == NonLeaves(p, front) + if IsLeaf(p[last].op) then 0 else 1
    ensures SlotsOk(p, order, if IsLeaf(p[last].op) then slot else slot[last := NonLeaves(p, front)])
  {
    hide NonLeaves, IsLeaf;
  }

  lemma {:induction false} SlotsSound(p: Dag, order: seq<nat>)
    requires (forall n :: n in order ==> n < |p|) && NoDuplicates(order)
    ensures SlotsOk(p, order, SlotMap(p, order)) && NonLeaves(p, order) <= |order|
    decreases |order|
  {
    if order != [] {
      hide SlotsOk, IsLeaf;
      var front, last := order[..|order| - 1], order[|order| - 1];
      assert (forall n :: n in front ==> n in order) && last in order;
      assert order == front + [last] && last !in front;
      SlotsSound(p, front);
      SlotsSnoc(p, front, last, SlotMap(p, front), order);
    } else {
      NoSlotsYet(p);
    }
  }

  lemma {:induction false} NoSlotsYet(p: Dag)
    ensures SlotsOk(p, [], SlotMap(p, []))
  {
  }

  /** The allocation loop: first fit on an empty pad hands out 0, 1, 2 and so on. */
  method AllocateSlots(p: Dag, order: seq<nat>) returns (slot: map<nat, nat>)
    requires (forall n :: n in order ==> n < |p|) && NoDuplicates(order) && |order| <= MAX_SLOTS
    ensures slot == SlotMap(p, order)
  {
    var manager := new ScratchpadManager();
    slot := map[];
    var i, n := 0, 0;
    ghost var none: seq<nat> := [];
    assert order[..0] == none;
    while i < |order|
      invariant 0 <= n <= i <= |order| && (forall x :: x in order[..i] ==> x < |p|)
      invariant fresh(manager) && fresh(manager.used) && manager.used.Length == MAX_SLOTS
      invariant forall x :: 0 <= x < MAX_SLOTS ==> manager.used[x] == (x < n)
      invariant n == NonLeaves(p, order[..i]) && slot == SlotMap(p, order[..i])
    {
      Prefix(p, order, i);
      if !IsLeaf(p[order[i]].op) {
        FirstFreeIs(manager.used[..], n);
        var s := manager.AllocSlot();
        slot := slot[order[i] := s];
        n := n + 1;
      }
      i := i + 1;
    }
    assert order[..i] == order;
  }

  lemma {:induction false} Prefix(p: Dag, order: seq<nat>, i: nat)
    requires (forall n :: n in order ==> n < |p|) && i < |order|
    ensures order[i] < |p| && order[..i + 1][..i] == order[..i] && order[..i + 1][i] == order[i]
    ensures forall x :: x in order[..i] ==> x < |p|
    ensures
      var next := order[..i + 1];
      forall x :: x in next ==> x < |p|
  {
    var next := order[..i + 1];
    assert order[i] in order;
    assert (forall x :: x in order[..i] ==> x in order) && forall x :: x in next ==> x in order;
  }

  // ----- emitted code -----

  datatype Plan = Plan(p: Dag, order: seq<nat>, slot: map<nat, nat>, names: seq<string>)

  function SlotIn(u: Plan, n: nat): int {
    if n in u.slot then u.slot[n] else -1
  }

  function FieldIn(u: Plan, f: string): nat {
    if f in u.names then IndexOf(u.names, f) else |u.names|
  }

  function GetOperand(u: Plan, n: nat, d: Reg): Code
    requires n < |u.p|
  {
    match u.p[n].op
    case Load(f) => Two(Ldr(TEMP, Imm(FIELDS, FieldIn(u, f) * 8)), Ldr(d, Idx8(TEMP, ROW)))
    case Const(v) => I(MovImm(d, W(ToWord(Wrap(v)))))
    case _ => I(Ldr(d, Imm(PAD, SlotIn(u, n) * 8)))
  }

  /** The left operand into x16 and the right one into x17, for operators that have them. */
  function Operands(u: Plan, n: nat): Code
    requires n < |u.p|
  {
    match u.p[n].op
    case Add(l, r) => assert l in Children(u.p[n].op) && r in Children(u.p[n].op); Both(u, l, r)
    case Sub(l, r) => assert l in Children(u.p[n].op) && r in Children(u.p[n].op); Both(u, l, r)
    case Compare(_, l, r) => assert l in Children(u.p[n].op) && r in Children(u.p[n].op); Both(u, l, r)
    case And(l, r) => assert l in Children(u.p[n].op) && r in Children(u.p[n].op); Both(u, l, r)
    case Or(l, r) => assert l in Children(u.p[n].op) && r in Children(u.p[n].op); Both(u, l, r)
    case Select(_, l, r) => assert l in Children(u.p[n].op) && r in Children(u.p[n].op); Both(u, l, r)
    case Not(l) => assert l in Children(u.p[n].op); GetOperand(u, l, LEFT)
    case _ => Nop
  }

  function Both(u: Plan, l: nat, r: nat): Code
    requires l < |u.p| && r < |u.p|
  {
    Then(GetOperand(u, l, LEFT), GetOperand(u, r, RIGHT))
  }

  function CondOf(cmp: CompareOp): Cond {
    match cmp
    case GT => HI
    case LT => LO
    case GE => HS
    case LE => LS
    case EQ => IS
  }

  /** No case for NOT and SUM: x5 keeps what it held. */
  function Operate(u: Plan, op: Op): Code {
    match op
    case Add(_, _) => I(AddR(RES, LEFT, RIGHT))
    case Sub(_, _) => I(SubR(RES, LEFT, RIGHT))
    case Compare(cmp, _, _) => Two(Cmp(LEFT, RIGHT), Cset(RES, CondOf(cmp)))
    case And(_, _) => I(Alu(AND, RES, LEFT, RIGHT))
    case Or(_, _) => I(Alu(ORR, RES, LEFT, RIGHT))
    case Select(c, _, _) => Three(Ldr(TEMP, Imm(PAD, SlotIn(u, c) * 8)), CmpZero(TEMP), Csel(RES, LEFT, RIGHT, NE))
    case _ => Nop
  }

  function NodeCode(u: Plan, n: nat): Code
    requires n < |u.p|
  {
    if IsLeaf(u.p[n].op) then Nop
    else Then(Operands(u, n), Then(Operate(u, u.p[n].op), I(Str(RES, Imm(PAD, SlotIn(u, n) * 8)))))
  }

  function NodesCode(u: Plan, k: nat): Code
    requires k <= |u.order| && forall n :: n in u.order ==> n < |u.p|
  {
    if k == 0 then Nop
    else
      assert u.order[k - 1] in u.order;
      Then(NodesCode(u, k - 1), NodeCode(u, u.order[k - 1]))
  }

  function RowEnd(): Code {
    Three(LslR(TEMP, RES, ROW), Alu(ORR, MASK, MASK, TEMP), AddImm(ROW, ROW, 1))
  }

  /** The loop body: all nodes, then the result bit into the mask. */
  function Body(u: Plan): Code
    requires forall n :: n in u.order ==> n < |u.p|
  {
    Then(NodesCode(u, |u.order|), RowEnd())
  }

  function Prologue(): Code {
    Four(Mov(FIELDS, 0), Mov(PAD, 1), MovImm(MASK, W({})), MovImm(ROW, N(0)))
  }

  // ----- the code as written, on one row -----

  /** What the operators listed so far left in their slots, and the last of these words, still in x5. */
  datatype Progress = Progress(words: map<nat, Word>, last: Word)

  function OperandWord(p: Dag, done: Progress, n: nat, row: Row): Word
    requires n < |p|
  {
    match p[n].op
    case Load(f) => ToWord(row(f))
    case Const(v) => ToWord(Wrap(v))
    case _ => if n in done.words then done.words[n] else {}
  }

  function BinaryWord(op: Op, l: Word, r: Word, cond: Word): Word
    requires HasTwo(op)
  {
    match op
    case Add(_, _) => ToWord(Wrap(Val(l) + Val(r)))
    case Sub(_, _) => ToWord(Wrap(Val(l) - Val(r)))
    case Compare(cmp, _, _) => if Compares(cmp, Val(l), Val(r)) then {0} else {}
    case And(_, _) => l * r
    case Or(_, _) => l + r
    case Select(_, _, _) => if Val(cond) != 0 then l else r
  }

  predicate HasTwo(op: Op) {
    op.Add? || op.Sub? || op.Compare? || op.And? || op.Or? || op.Select?
  }

  /** The word an operator leaves in its slot; NOT has no case of its own and leaves the word before it. */
  function OperatorWord(p: Dag, done: Progress, n: nat, row: Row): Word
    requires n < |p|
  {
    var op := p[n].op;
    if HasTwo(op) then
      assert op.left in Children(op) && op.right in Children(op) && (op.Select? ==> op.cond in Children(op));
      var cond := if op.Select? then OperandWord(p, done, op.cond, row) else {};
      BinaryWord(op, OperandWord(p, done, op.left, row), OperandWord(p, done, op.right, row), cond)
    else done.last
  }

  function Listed(p: Dag, done: Progress, n: nat, row: Row): Progress
    requires n < |p|
  {
    if IsLeaf(p[n].op) then done
    else
      var w := OperatorWord(p, done, n, row);
      Progress(done.words[n := w], w)
  }

  /** After the first k nodes of the order. */
  function Written(p: Dag, order: seq<nat>, k: nat, row: Row): Progress
    requires k <= |order| && forall n :: n in order ==> n < |p|
  {
    if k == 0 then Progress(map[], {})
    else
      assert order[k - 1] in order;
      Listed(p, Written(p, order, k - 1, row), order[k - 1], row)
  }

  /** The word in x5 at the end of a row. */
  function RowWord(p: Dag, order: seq<nat>, row: Row): Word
    requires forall n :: n in order ==> n < |p|
  {
    Written(p, order, |order|, row).last
  }

  /** The words of the first k rows, each moved up by its row number. */
  function RowWords(p: Dag, order: seq<nat>, rows: Chunk, k: nat): Word
    requires k <= 64 && forall n :: n in order ==> n < |p|
  {
    if k == 0 then {} else RowWords(p, order, rows, k - 1) + LslWord(RowWord(p, order, rows[k - 1]), k - 1)
  }

  /** Nothing is written before the first node, nothing for a LOAD or CONST, and one word for every other node. */
  lemma {:induction false} WrittenGrows(p: Dag, order: seq<nat>, k: nat, row: Row)
    requires k < |order| && (forall n :: n in order ==> n < |p|) && order[k] < |p|
    ensures Written(p, order, 0, row) == Progress(map[], {})
    ensures
      var done, n := Written(p, order, k, row), order[k];
      Written(p, order, k + 1, row) ==
        if p[n].op.Load? || p[n].op.Const? then done
        else Progress(done.words[n := OperatorWord(p, done, n, row)], OperatorWord(p, done, n, row))
  {
    hide OperatorWord;
  }

  lemma {:induction false} OperandIs(p: Dag, done: Progress, n: nat, row: Row)
    requires n < |p|
    ensures p[n].op.Load? ==> OperandWord(p, done, n, row) == ToWord(row(p[n].op.field))
    ensures p[n].op.Const? ==> OperandWord(p, done, n, row) == ToWord(p[n].op.value % 0x1_0000_0000_0000_0000)
    ensures !p[n].op.Load? && !p[n].op.Const? && n in done.words ==> OperandWord(p, done, n, row) == done.words[n]
  {
    hide ToWord, Wrap;
    if p[n].op.Const? {
      WrapIsMod(p[n].op.value);
    }
  }

  /** The word of an operator whose operand words stand for a and b, in plain arithmetic. */
  lemma {:induction false} OperatorIs(p: Dag, done: Progress, n: nat, l: nat, r: nat, row: Row, a: nat, b: nat)
    requires n < |p| && l < n && r < n && a < 0x1_0000_0000_0000_0000 && b < 0x1_0000_0000_0000_0000
    requires OperandWord(p, done, l, row) == ToWord(a) && OperandWord(p, done, r, row) == ToWord(b)
    ensures p[n].op == Add(l, r) ==> OperatorWord(p, done, n, row) == ToWord((a + b) % 0x1_0000_0000_0000_0000)
    ensures p[n].op == Sub(l, r) ==> OperatorWord(p, done, n, row) == ToWord((a - b) % 0x1_0000_0000_0000_0000)
    ensures p[n].op == Compare(GT, l, r) ==> OperatorWord(p, done, n, row) == if a > b then {0} else {}
    ensures p[n].op == Compare(LT, l, r) ==> OperatorWord(p, done, n, row) == if a < b then {0} else {}
    ensures p[n].op == Compare(GE, l, r) ==> OperatorWord(p, done, n, row) == if a >= b then {0} else {}
    ensures p[n].op == Compare(LE, l, r) ==> OperatorWord(p, done, n, row) == if a <= b then {0} else {}
    ensures p[n].op == Compare(EQ, l, r) ==> OperatorWord(p, done, n, row) == if a == b then {0} else {}
    ensures p[n].op == And(l, r) ==> OperatorWord(p, done, n, row) == ToWord(a) * ToWord(b)
    ensures p[n].op == Or(l, r) ==> OperatorWord(p, done, n, row) == ToWord(a) + ToWord(b)
    ensures p[n].op.Not? ==> OperatorWord(p, done, n, row) == done.last
  {
    hide ToWord, Wrap, Val, OperandWord;
    NatRoundTrip(a);
    NatRoundTrip(b);
    WrapIsMod(a + b);
    WrapIsMod(a - b);
  }

  /** A SELECT takes its left operand's word exactly when the word of its condition is not zero. */
  lemma {:induction false} SelectIs(p: Dag, done: Progress, n: nat, c: nat, l: nat, r: nat, row: Row)
    requires n < |p| && c < n && l < n && r < n && p[n].op == Select(c, l, r)
    ensures OperatorWord(p, done, n, row) ==
      if OperandWord(p, done, c, row) != {} then OperandWord(p, done, l, row) else OperandWord(p, done, r, row)
  {
    hide OperandWord, Val, ToWord;
    var w := OperandWord(p, done, c, row);
    WordRoundTrip(w);
    TruthWords();
    WordRoundTrip({});
  }

  /** Bit i of the result is the union over the rows of the bits that land on it. */
  lemma {:induction false} RowWordsBit(p: Dag, order: seq<nat>, rows: Chunk, k: nat, i: nat)
    requires k <= 64 && (forall n :: n in order ==> n < |p|) && i < 64
    ensures i in RowWords(p, order, rows, k) <==>
      exists r: nat :: r < k && r <= i && i - r in RowWord(p, order, rows[r])
    decreases k
  {
    hide RowWord;
    if k > 0 {
      RowWordsBit(p, order, rows, k - 1, i);
    }
  }

  lemma {:induction false} WrittenKeys(p: Dag, order: seq<nat>, k: nat, row: Row)
    requires k <= |order| && forall n :: n in order ==> n < |p|
    ensures forall n :: n in Written(p, order, k, row).words <==> n in order[..k] && n < |p| && !IsLeaf(p[n].op)
    decreases k
  {
    hide OperatorWord, IsLeaf;
    if k > 0 {
      WrittenKeys(p, order, k - 1, row);
      assert order[k - 1] in order && forall n :: n in order[..k] <==> n in order[..k - 1] || n == order[k - 1];
    }
  }

  /** Leaves change nothing. */
  lemma {:induction false} LeavesBetween(p: Dag, order: seq<nat>, j: nat, k: nat, row: Row)
    requires j <= k <= |order| && forall n :: n in order ==> n < |p|
    requires forall i :: j <= i < k ==> order[i] < |p| && IsLeaf(p[order[i]].op)
    ensures Written(p, order, k, row) == Written(p, order, j, row)
    decreases k
  {
    hide OperatorWord, IsLeaf;
    if j < k {
      LeavesBetween(p, order, j, k - 1, row);
    }
  }

  /** A NOT gets the word of the operator listed before it, whatever its operand is. */
  lemma {:induction false} NotTakesPredecessor(p: Dag, order: seq<nat>, j: nat, k: nat, row: Row)
    requires j < k < |order| && forall n :: n in order ==> n < |p|
    requires order[j] < |p| && !IsLeaf(p[order[j]].op) && order[k] < |p| && p[order[k]].op.Not?
    requires forall i :: j < i < k ==> order[i] < |p| && IsLeaf(p[order[i]].op)
    ensures
      var before, after := Written(p, order, k, row), Written(p, order, k + 1, row);
      && order[j] in before.words && before.last == before.words[order[j]]
      && after == Progress(before.words[order[k] := before.words[order[j]]], before.last)
  {
    LeavesBetween(p, order, j + 1, k, row);
  }

  // ----- the machine on one row -----

  ghost predicate RawFields(u: Plan, rows: Chunk, fields: seq<seq<Word>>) {
    |u.names| <= |fields| && forall k: nat :: k < |u.names| ==> RawField(fields[k], rows, u.names[k])
  }

  ghost predicate RawField(f: seq<Word>, rows: Chunk, name: string) {
    |f| == 64 && forall r: nat :: r < 64 ==> f[r] == ToWord(rows[r](name))
  }

  /** A plan as the front half of the scalar compiler makes it. */
  ghost predicate PlanOk(u: Plan) {
    && TopoOrder(u.p, u.order) && SlotsOk(u.p, u.order, u.slot)
    && |u.order| <= MAX_SLOTS && NonLeaves(u.p, u.order) <= |u.order|
    && (forall n :: n in u.order && n < |u.p| && u.p[n].op.Load? ==> u.p[n].op.field in u.names)
  }

  ghost predicate Ready(u: Plan, rows: Chunk, r: nat, s: State) {
    && s.Run? && r < 64 && |s.scratch| >= MAX_SLOTS && RawFields(u, rows, s.fields)
    && s.regs[FIELDS] == P(FieldTable, 0) && s.regs[PAD] == P(Scratch, 0) && s.regs[ROW] == N(r)
  }

  /** The slots and x5 are as the operators listed so far left them. */
  ghost predicate Kept(u: Plan, done: Progress, s: State) {
    && s.Run?
    && (forall n :: n in done.words ==> 0 <= SlotIn(u, n) < |s.scratch| && s.scratch[SlotIn(u, n)] == done.words[n])
    && (done.words != map[] ==> s.regs[RES] == W(done.last))
  }

  /** Operand n can be read: it is a leaf, or its slot has been written. */
  ghost predicate Readable(u: Plan, done: Progress, n: nat) {
    n < |u.p| && (u.p[n].op.Load? ==> u.p[n].op.field in u.names) && (!IsLeaf(u.p[n].op) ==> n in done.words)
  }

  /** t differs from s in the given registers and the flags only. */
  ghost predicate OnlyRegs(s: State, t: State, touched: set<Reg>)
    requires s.Run?
  {
    && t.Run? && t.fields == s.fields && t.scratch == s.scratch
    && (forall x: Reg :: x !in touched ==> t.regs[x] == s.regs[x])
  }

  lemma {:induction false} GetEffect(u: Plan, rows: Chunk, r: nat, done: Progress, s: State, n: nat, d: Reg, code: Code)
    requires Ready(u, rows, r, s) && Kept(u, done, s) && Readable(u, done, n)
    requires (d == LEFT || d == RIGHT) && code == GetOperand(u, n, d)
    ensures OnlyRegs(s, Exec(code, s), {TEMP, d}) && Exec(code, s).regs[d] == W(OperandWord(u.p, done, n, rows[r]))
  {
    hide ToWord, Wrap;
    match u.p[n].op
    case Load(f) => LoadEffect(u, rows, r, s, f, d, code);
    case Const(v) =>
    case _ => SlotEffect(s, SlotIn(u, n), d, code);
  }

  lemma {:induction false} LoadEffect(u: Plan, rows: Chunk, r: nat, s: State, f: string, d: Reg, code: Code)
    requires Ready(u, rows, r, s) && f in u.names && (d == LEFT || d == RIGHT)
    requires code == Two(Ldr(TEMP, Imm(FIELDS, FieldIn(u, f) * 8)), Ldr(d, Idx8(TEMP, ROW)))
    ensures OnlyRegs(s, Exec(code, s), {TEMP, d}) && Exec(code, s).regs[d] == W(ToWord(rows[r](f)))
  {
    hide ToWord;
    var k := FieldIn(u, f);
    assert RawField(s.fields[k], rows, u.names[k]);
    assert (k * 8) / 8 == k && (k * 8) % 8 == 0 && (0 + 8 * r) / 8 == r && (0 + 8 * r) % 8 == 0;
    ExecTwo(Ldr(TEMP, Imm(FIELDS, k * 8)), Ldr(d, Idx8(TEMP, ROW)), s);
  }

  lemma {:induction false} SlotEffect(s: State, x: int, d: Reg, code: Code)
    requires s.Run? && s.regs[PAD] == P(Scratch, 0) && 0 <= x < |s.scratch| && code == I(Ldr(d, Imm(PAD, x * 8)))
    ensures OnlyRegs(s, Exec(code, s), {d}) && Exec(code, s).regs[d] == W(s.scratch[x])
  {
    assert (x * 8) / 8 == x && (x * 8) % 8 == 0;
  }

  lemma {:induction false} BothEffect(u: Plan, rows: Chunk, r: nat, done: Progress, s: State, a: nat, b: nat,
      code: Code)
    requires Ready(u, rows, r, s) && Kept(u, done, s) && Readable(u, done, a) && Readable(u, done, b)
    requires code == Both(u, a, b)
    ensures OnlyRegs(s, Exec(code, s), {TEMP, LEFT, RIGHT})
    ensures Exec(code, s).regs[LEFT] == W(OperandWord(u.p, done, a, rows[r]))
    ensures Exec(code, s).regs[RIGHT] == W(OperandWord(u.p, done, b, rows[r]))
  {
    hide OperandWord, GetOperand, RawFields;
    GetEffect(u, rows, r, done, s, a, LEFT, code.first);
    GetEffect(u, rows, r, done, Exec(code.first, s), b, RIGHT, code.second);
    ExecThen(code, s);
  }

  // ----- one operator -----

  /** The operand words that an operator's code loads are there to be loaded. */
  ghost predicate Loadable(u: Plan, done: Progress, n: nat)
    requires n < |u.p|
  {
    var op := u.p[n].op;
    && (op.Not? || HasTwo(op)) && Readable(u, done, op.left)
    && (op.Not? ==> !IsLeaf(u.p[op.left].op)) && (HasTwo(op) ==> Readable(u, done, op.right))
    && (op.Select? ==> Readable(u, done, op.cond) && !IsLeaf(u.p[op.cond].op))
  }

  lemma {:induction false} AluEffect(u: Plan, op: Op, s: State, l: Word, r: Word, code: Code)
    requires (op.Add? || op.Sub? || op.And? || op.Or?) && s.Run? && code == Operate(u, op)
    requires s.regs[LEFT] == W(l) && s.regs[RIGHT] == W(r)
    ensures OnlyRegs(s, Exec(code, s), {RES}) && Exec(code, s).regs[RES] == W(BinaryWord(op, l, r, {}))
  {
    hide ToWord, Wrap, Val;
  }

  lemma {:induction false} CompareEffect(u: Plan, op: Op, s: State, l: Word, r: Word, code: Code)
    requires op.Compare? && s.Run? && code == Operate(u, op)
    requires s.regs[LEFT] == W(l) && s.regs[RIGHT] == W(r)
    ensures OnlyRegs(s, Exec(code, s), {RES}) && Exec(code, s).regs[RES] == W(BinaryWord(op, l, r, {}))
  {
    hide Val;
    ExecTwo(Cmp(LEFT, RIGHT), Cset(RES, CondOf(op.cmp)), s);
  }

  lemma {:induction false} ChooseEffect(s: State, x: int, code: Code)
    requires s.Run? && s.regs[PAD] == P(Scratch, 0) && 0 <= x < |s.scratch| && s.regs[LEFT].W? && s.regs[RIGHT].W?
    requires code == Three(Ldr(TEMP, Imm(PAD, x * 8)), CmpZero(TEMP), Csel(RES, LEFT, RIGHT, NE))
    ensures OnlyRegs(s, Exec(code, s), {RES, TEMP})
    ensures Exec(code, s).regs[RES] == if Val(s.scratch[x]) != 0 then s.regs[LEFT] else s.regs[RIGHT]
  {
    hide Val;
    assert (x * 8) / 8 == x && (x * 8) % 8 == 0;
    ExecThree(Ldr(TEMP, Imm(PAD, x * 8)), CmpZero(TEMP), Csel(RES, LEFT, RIGHT, NE), s);
  }

  lemma {:induction false} StoreEffect(s: State, x: int, w: Word, code: Code)
    requires s.Run? && s.regs[PAD] == P(Scratch, 0) && s.regs[RES] == W(w)
    requires 0 <= x < |s.scratch| && code == I(Str(RES, Imm(PAD, x * 8)))
    ensures Exec(code, s) == Run(s.regs, s.flags, s.fields, s.scratch[x := w])
  {
    assert (x * 8) / 8 == x && (x * 8) % 8 == 0;
  }

  /** An operator with both operands in place leaves its word in x5. */
  lemma {:induction false} OperateEffect(u: Plan, op: Op, s: State, l: Word, r: Word, cond: Word, code: Code)
    requires HasTwo(op) && s.Run? && code == Operate(u, op) && s.regs[LEFT] == W(l) && s.regs[RIGHT] == W(r)
    requires op.Select? ==>
      s.regs[PAD] == P(Scratch, 0) && 0 <= SlotIn(u, op.cond) < |s.scratch| && s.scratch[SlotIn(u, op.cond)] == cond
    ensures OnlyRegs(s, Exec(code, s), {RES, TEMP}) && Exec(code, s).regs[RES] == W(BinaryWord(op, l, r, cond))
  {
    hide Val, ToWord, Wrap, Compares;
    if op.Select? {
      ChooseEffect(s, SlotIn(u, op.cond), code);
    } else if op.Compare? {
      CompareEffect(u, op, s, l, r, code);
    } else {
      AluEffect(u, op, s, l, r, code);
    }
  }

  /** Two operands, then the operator. */
  lemma {:induction false} BinaryEffect(u: Plan, rows: Chunk, r: nat, done: Progress, n: nat, s: State, first: Code,
      second: Code)
    requires Ready(u, rows, r, s) && Kept(u, done, s) && n < |u.p| && Loadable(u, done, n) && HasTwo(u.p[n].op)
    requires first == Operands(u, n) && second == Operate(u, u.p[n].op)
    ensures OnlyRegs(s, Exec(second, Exec(first, s)), {RES, TEMP, LEFT, RIGHT})
    ensures Exec(second, Exec(first, s)).regs[RES] == W(OperatorWord(u.p, done, n, rows[r]))
  {
    hide BinaryWord, Operate, RawFields, GetOperand;
    var op := u.p[n].op;
    var l, x := op.left, op.right;
    assert first == Both(u, l, x);
    BothEffect(u, rows, r, done, s, l, x, first);
    var cond := if op.Select? then OperandWord(u.p, done, op.cond, rows[r]) else {};
    OperateEffect(u, op, Exec(first, s), OperandWord(u.p, done, l, rows[r]), OperandWord(u.p, done, x, rows[r]),
      cond, second);
  }

  /** The code of a NOT loads its operand and then ignores it. */
  lemma {:induction false} NotEffect(u: Plan, rows: Chunk, r: nat, done: Progress, n: nat, s: State, first: Code,
      second: Code)
    requires Ready(u, rows, r, s) && Kept(u, done, s) && n < |u.p| && Loadable(u, done, n) && u.p[n].op.Not?
    requires first == Operands(u, n) && second == Operate(u, u.p[n].op)
    ensures OnlyRegs(s, Exec(second, Exec(first, s)), {RES, TEMP, LEFT, RIGHT})
    ensures Exec(second, Exec(first, s)).regs[RES] == W(OperatorWord(u.p, done, n, rows[r]))
  {
    hide RawFields, GetOperand;
    GetEffect(u, rows, r, done, s, u.p[n].op.left, LEFT, first);
  }

  lemma {:induction false} OperatorEffect(u: Plan, rows: Chunk, r: nat, done: Progress, n: nat, s: State, code: Code)
    requires Ready(u, rows, r, s) && Kept(u, done, s) && n < |u.p| && Loadable(u, done, n) && code == NodeCode(u, n)
    requires 0 <= SlotIn(u, n) < |s.scratch|
    ensures
      var t := Exec(code, s);
      var w := OperatorWord(u.p, done, n, rows[r]);
      && t.Run? && OnlyRegs(s, t.(scratch := s.scratch), {RES, TEMP, LEFT, RIGHT})
      && t.regs[RES] == W(w) && t.scratch == s.scratch[SlotIn(u, n) := w]
  {
    hide OperatorWord, Operate, RawFields, Operands, Kept;
    if u.p[n].op.Not? {
      NotEffect(u, rows, r, done, n, s, code.first, code.second.first);
    } else {
      BinaryEffect(u, rows, r, done, n, s, code.first, code.second.first);
    }
    var s2 := Exec(code.second.first, Exec(code.first, s));
    StoreEffect(s2, SlotIn(u, n), OperatorWord(u.p, done, n, rows[r]), code.second.second);
    ExecThen(code.second, Exec(code.first, s));
    ExecThen(code, s);
  }

  // ----- one row -----

  ghost predicate InPool(u: Plan) {
    forall n :: n in u.order ==> n < |u.p|
  }

  /** Every listed node has code; the operand of a NOT and the condition of a SELECT are operators. */
  ghost predicate Coded(u: Plan) {
    forall n :: n in u.order && n < |u.p| ==> HasCode(u.p, n)
  }

  predicate HasCode(p: Dag, n: nat)
    requires n < |p|
  {
    match p[n].op
    case Not(l) => l < |p| && !IsLeaf(p[l].op)
    case Select(c, _, _) => c < |p| && !IsLeaf(p[c].op)
    case op => IsLeaf(op) || HasTwo(op)
  }

  lemma {:induction false} OperandReadable(u: Plan, k: nat, row: Row, c: nat)
    requires PlanOk(u) && InPool(u) && k < |u.order| && c in Children(u.p[u.order[k]].op)
    ensures Readable(u, Written(u.p, u.order, k, row), c)
  {
    hide Written, SlotsOk, NonLeaves;
    WrittenKeys(u.p, u.order, k, row);
    assert c in u.order[..k] && c in u.order;
  }

  lemma {:induction false} OperatorLoadable(u: Plan, k: nat, row: Row)
    requires PlanOk(u) && InPool(u) && k < |u.order| && u.order[k] < |u.p|
    requires HasCode(u.p, u.order[k]) && !IsLeaf(u.p[u.order[k]].op)
    ensures Loadable(u, Written(u.p, u.order, k, row), u.order[k])
  {
    hide Written, PlanOk, Readable;
    var op := u.p[u.order[k]].op;
    forall c | c in Children(op)
      ensures Readable(u, Written(u.p, u.order, k, row), c)
    {
      OperandReadable(u, k, row, c);
    }
    assert op.left in Children(op) && (HasTwo(op) ==> op.right in Children(op)) &&
      (op.Select? ==> op.cond in Children(op));
  }

  lemma {:induction false} SlotInBounds(u: Plan, n: nat)
    requires PlanOk(u) && n in u.order && n < |u.p| && !IsLeaf(u.p[n].op)
    ensures 0 <= SlotIn(u, n) < MAX_SLOTS
  {
  }

  lemma {:induction false} SlotsDiffer(u: Plan, k: nat, row: Row)
    requires PlanOk(u) && InPool(u) && k < |u.order| && !IsLeaf(u.p[u.order[k]].op)
    ensures forall n :: n in Written(u.p, u.order, k, row).words ==> SlotIn(u, n) != SlotIn(u, u.order[k])
  {
    hide Written, NonLeaves;
    WrittenKeys(u.p, u.order, k, row);
    assert u.order[k] in u.order && forall n :: n in u.order[..k] ==> n in u.order && n != u.order[k];
  }

  /** Writing an operator's own slot keeps what earlier operators left, and adds the operator. */
  lemma {:induction false} KeptGrows(u: Plan, done: Progress, n: nat, w: Word, s: State, t: State)
    requires Kept(u, done, s) && t.Run? && 0 <= SlotIn(u, n) < |s.scratch|
    requires t.scratch == s.scratch[SlotIn(u, n) := w] && t.regs[RES] == W(w)
    requires forall m :: m in done.words ==> SlotIn(u, m) != SlotIn(u, n)
    ensures Kept(u, Progress(done.words[n := w], w), t)
  {
    hide SlotIn;
  }

  /** The k-th node on row r, an operator. */
  lemma {:induction false} OperatorStep(u: Plan, rows: Chunk, r: nat, k: nat, s: State, code: Code)
    requires PlanOk(u) && InPool(u) && Coded(u) && k < |u.order| && Ready(u, rows, r, s) && !IsLeaf(u.p[u.order[k]].op)
    requires Kept(u, Written(u.p, u.order, k, rows[r]), s) && code == NodeCode(u, u.order[k])
    ensures
      var t := Exec(code, s);
      && Ready(u, rows, r, t) && Kept(u, Written(u.p, u.order, k + 1, rows[r]), t) && t.regs[MASK] == s.regs[MASK]
  {
    hide PlanOk, OperatorWord, RawFields, NodeCode, Kept, HasCode, Loadable, SlotIn;
    var n := u.order[k];
    assert n in u.order;
    var done := Written(u.p, u.order, k, rows[r]);
    SlotInBounds(u, n);
    OperatorLoadable(u, k, rows[r]);
    OperatorEffect(u, rows, r, done, n, s, code);
    SlotsDiffer(u, k, rows[r]);
    KeptGrows(u, done, n, OperatorWord(u.p, done, n, rows[r]), s, Exec(code, s));
  }

  lemma {:induction false} LeafCode(u: Plan, k: nat, row: Row)
    requires InPool(u) && k < |u.order| && u.order[k] < |u.p| && IsLeaf(u.p[u.order[k]].op)
    ensures NodeCode(u, u.order[k]) == Nop && Written(u.p, u.order, k + 1, row) == Written(u.p, u.order, k, row)
  {
  }

  /** The k-th node on row r. */
  lemma {:induction false} NodeStep(u: Plan, rows: Chunk, r: nat, k: nat, s: State, code: Code)
    requires PlanOk(u) && InPool(u) && Coded(u) && k < |u.order| && Ready(u, rows, r, s)
    requires Kept(u, Written(u.p, u.order, k, rows[r]), s) && code == NodeCode(u, u.order[k])
    ensures
      var t := Exec(code, s);
      && Ready(u, rows, r, t) && Kept(u, Written(u.p, u.order, k + 1, rows[r]), t) && t.regs[MASK] == s.regs[MASK]
  {
    hide PlanOk, Written, RawFields, NodeCode, Kept, Coded;
    assert u.order[k] in u.order;
    if IsLeaf(u.p[u.order[k]].op) {
      LeafCode(u, k, rows[r]);
    } else {
      OperatorStep(u, rows, r, k, s, code);
    }
  }

  lemma {:induction false} NoneKept(u: Plan, rows: Chunk, r: nat, s: State)
    requires InPool(u) && s.Run? && r < 64
    ensures Kept(u, Written(u.p, u.order, 0, rows[r]), s)
  {
  }

  /** The first k nodes on row r. */
  lemma {:induction false} NodesEffect(u: Plan, rows: Chunk, r: nat, k: nat, s: State, code: Code)
    requires PlanOk(u) && InPool(u) && Coded(u) && k <= |u.order| && Ready(u, rows, r, s) && code == NodesCode(u, k)
    ensures
      var t := Exec(code, s);
      && Ready(u, rows, r, t) && Kept(u, Written(u.p, u.order, k, rows[r]), t) && t.regs[MASK] == s.regs[MASK]
    decreases k
  {
    hide PlanOk, Coded, RawFields, NodeCode, Kept, Written;
    if k == 0 {
      NoneKept(u, rows, r, s);
    } else {
      NodesEffect(u, rows, r, k - 1, s, code.first);
      NodeStep(u, rows, r, k - 1, Exec(code.first, s), code.second);
      ExecThen(code, s);
    }
  }

  // ----- the row loop -----

  lemma {:induction false} RowEndEffect(s: State, r: nat, m: Word, w: Word, code: Code)
    requires s.Run? && r < 64 && s.regs[ROW] == N(r) && s.regs[MASK] == W(m) && s.regs[RES] == W(w) && code == RowEnd()
    ensures
      var t := Exec(code, s);
      && OnlyRegs(s, t, {TEMP, MASK, ROW}) && t.regs[ROW] == N(r + 1) && t.regs[MASK] == W(m + LslWord(w, r))
  {
    hide LslWord;
    ExecThree(LslR(TEMP, RES, ROW), Alu(ORR, MASK, MASK, TEMP), AddImm(ROW, ROW, 1), s);
  }

  /** The comparison of row_index with 64 at the top of the loop. */
  function Tested(s: State): State {
    if s.Run? && s.regs[ROW].N? && s.regs[ROW].n >= 0 then s.(flags := Flags(s.regs[ROW].n, 64)) else Fault
  }

  function Loop(body: Code, s: State, k: nat): State {
    if k == 0 then s else Exec(body, Tested(Loop(body, s, k - 1)))
  }

  ghost predicate LoopState(u: Plan, rows: Chunk, k: nat, s: State) {
    && s.Run? && |s.scratch| >= MAX_SLOTS && RawFields(u, rows, s.fields)
    && s.regs[FIELDS] == P(FieldTable, 0) && s.regs[PAD] == P(Scratch, 0) && s.regs[ROW] == N(k)
  }

  /** A plan whose last node is an operator. */
  ghost predicate Compilable(u: Plan) {
    && PlanOk(u) && InPool(u) && Coded(u)
    && u.order != [] && u.order[|u.order| - 1] < |u.p| && !IsLeaf(u.p[u.order[|u.order| - 1]].op)
  }

  lemma {:induction false} LastWord(u: Plan, rows: Chunk, r: nat, s: State)
    requires Compilable(u) && r < 64 && Kept(u, Written(u.p, u.order, |u.order|, rows[r]), s)
    ensures s.regs[RES] == W(RowWord(u.p, u.order, rows[r]))
  {
    hide PlanOk, OperatorWord;
    assert u.order[|u.order| - 1] in Written(u.p, u.order, |u.order|, rows[r]).words;
  }

  lemma {:induction false} RowEffect(u: Plan, rows: Chunk, r: nat, s: State, mask: Word, code: Code)
    requires Compilable(u) && r < 64 && LoopState(u, rows, r, s) && s.regs[MASK] == W(mask) && code == Body(u)
    ensures
      var t := Exec(code, s);
      LoopState(u, rows, r + 1, t) && t.regs[MASK] == W(mask + LslWord(RowWord(u.p, u.order, rows[r]), r))
  {
    hide PlanOk, RawFields, NodesCode, RowEnd, Written, RowWord, Coded, Kept, LslWord;
    NodesEffect(u, rows, r, |u.order|, s, code.first);
    LastWord(u, rows, r, Exec(code.first, s));
    RowEndEffect(Exec(code.first, s), r, mask, RowWord(u.p, u.order, rows[r]), code.second);
    ExecThen(code, s);
  }

  lemma {:induction false} LoopEffect(u: Plan, rows: Chunk, s: State, k: nat, body: Code)
    requires Compilable(u) && k <= 64 && LoopState(u, rows, 0, s) && s.regs[MASK] == W({}) && body == Body(u)
    ensures LoopState(u, rows, k, Loop(body, s, k)) && Loop(body, s, k).regs[MASK] == W(RowWords(u.p, u.order, rows, k))
    decreases k
  {
    hide PlanOk, RawFields, Body, RowWord, Coded, LslWord;
    if k > 0 {
      LoopEffect(u, rows, s, k - 1, body);
      RowEffect(u, rows, k - 1, Tested(Loop(body, s, k - 1)), RowWords(u.p, u.order, rows, k - 1), body);
    }
  }

  lemma {:induction false} PrologueEffect(u: Plan, rows: Chunk, s: State, code: Code)
    requires Called(u, rows, s) && code == Prologue()
    ensures LoopState(u, rows, 0, Exec(code, s)) && Exec(code, s).regs[MASK] == W({})
  {
    hide RawFields;
    ExecFour(Mov(FIELDS, 0), Mov(PAD, 1), MovImm(MASK, W({})), MovImm(ROW, N(0)), s);
  }

  /** A scalar kernel is called with raw columns and any scratchpad. */
  ghost predicate Called(u: Plan, rows: Chunk, s: State) {
    && s.Run? && |s.scratch| >= MAX_SLOTS && RawFields(u, rows, s.fields)
    && s.regs[0] == P(FieldTable, 0) && s.regs[1] == P(Scratch, 0)
  }

  // ----- the emitted program, with its loop test and branches -----

  /** Branch targets are line numbers. */
  datatype Line = Do(i: Instr) | CmpRow | JumpIfHS(target: nat) | Jump(target: nat)

  datatype Cpu = Cpu(pc: nat, st: State)

  function StepLine(lines: seq<Line>, c: Cpu): Cpu {
    if c.pc >= |lines| then c
    else
      match lines[c.pc]
      case Do(i) => Cpu(c.pc + 1, Machine.Step(i, c.st))
      case CmpRow => Cpu(c.pc + 1, Tested(c.st))
      case JumpIfHS(target) => Cpu(if c.st.Run? && CondHolds(HS, c.st.flags) then target else c.pc + 1, c.st)
      case Jump(target) => Cpu(target, c.st)
  }

  function RunLines(lines: seq<Line>, c: Cpu, steps: nat): Cpu {
    if steps == 0 then c else StepLine(lines, RunLines(lines, c, steps - 1))
  }

  function Lines(code: seq<Instr>): (r: seq<Line>)
    ensures |r| == |code| && forall i :: 0 <= i < |code| ==> r[i] == Do(code[i])
  {
    if code == [] then [] else Lines(code[..|code| - 1]) + [Do(code[|code| - 1])]
  }

  const LOOP_START: nat := 4

  /** loop_start is line 4, loop_end the line behind the backward branch. */
  function Program(body: seq<Instr>): seq<Line> {
    Lines(Stream(Prologue())) + [CmpRow, JumpIfHS(LOOP_START + 3 + |body|)] + Lines(body) +
      [Jump(LOOP_START), Do(Mov(0, MASK))]
  }

  lemma {:induction false} RunLinesAgain(lines: seq<Line>, c: Cpu, a: nat, b: nat)
    ensures RunLines(lines, RunLines(lines, c, a), b) == RunLines(lines, c, a + b)
    decreases b
  {
    hide StepLine;
    if b > 0 {
      RunLinesAgain(lines, c, a, b - 1);
    }
  }

  /** Straight-line code runs as the machine runs its stream. */
  lemma {:induction false} RunStraight(lines: seq<Line>, at: nat, code: seq<Instr>, s: State, k: nat)
    requires k <= |code| && at + |code| <= |lines| && forall i :: 0 <= i < |code| ==> lines[at + i] == Do(code[i])
    ensures RunLines(lines, Cpu(at, s), k) == Cpu(at + k, ExecStream(code[..k], s))
    decreases k
  {
    if k > 0 {
      RunStraight(lines, at, code, s, k - 1);
      assert code[..k] == code[..k - 1] + [code[k - 1]];
      ExecStreamAppend(code[..k - 1], [code[k - 1]], s);
      assert [code[k - 1]][1..] == [];
      hide Machine.Step;
      assert lines[at + (k - 1)] == Do(code[k - 1]);
    } else {
      assert code[..0] == [];
    }
  }

  lemma {:induction false} RunCode(lines: seq<Line>, at: nat, code: Code, s: State)
    requires at + |Stream(code)| <= |lines| && forall i :: 0 <= i < |Stream(code)| ==>
      lines[at + i] == Do(Stream(code)[i])
    ensures RunLines(lines, Cpu(at, s), |Stream(code)|) == Cpu(at + |Stream(code)|, Exec(code, s))
  {
    hide StepLine, Exec, ExecStream;
    RunStraight(lines, at, Stream(code), s, |Stream(code)|);
    assert Stream(code)[..|Stream(code)|] == Stream(code);
    ExecIsStream(code, s);
  }

  lemma {:induction false} ProgramLines(body: seq<Instr>)
    ensures
      var lines := Program(body);
      && |Stream(Prologue())| == LOOP_START && |lines| == LOOP_START + |body| + 4
      && (forall i :: 0 <= i < LOOP_START ==> lines[0 + i] == Do(Stream(Prologue())[i]))
      && lines[LOOP_START] == CmpRow && lines[LOOP_START + 1] == JumpIfHS(LOOP_START + 3 + |body|)
      && (forall i :: 0 <= i < |body| ==> lines[LOOP_START + 2 + i] == Do(body[i]))
      && lines[LOOP_START + 2 + |body|] == Jump(LOOP_START) && lines[LOOP_START + 3 + |body|] == Do(Mov(0, MASK))
  {
    hide Lines;
  }

  lemma {:induction false} TestTaken(lines: seq<Line>, s: State, k: nat, exit: nat)
    requires |lines| > LOOP_START + 1 && lines[LOOP_START] == CmpRow && lines[LOOP_START + 1] == JumpIfHS(exit)
    requires s.Run? && s.regs[ROW] == N(k)
    ensures RunLines(lines, Cpu(LOOP_START, s), 2) == Cpu(if k >= 64 then exit else LOOP_START + 2, Tested(s))
  {
    var one := StepLine(lines, Cpu(LOOP_START, s));
    assert RunLines(lines, Cpu(LOOP_START, s), 0) == Cpu(LOOP_START, s);
    assert RunLines(lines, Cpu(LOOP_START, s), 1) == one;
    assert RunLines(lines, Cpu(LOOP_START, s), 2) == StepLine(lines, one);
  }

  lemma {:induction false} OneLine(lines: seq<Line>, c: Cpu)
    ensures RunLines(lines, c, 1) == StepLine(lines, c)
  {
    assert RunLines(lines, c, 0) == c;
  }

  /** One turn of the loop: the test falls through, the body runs, the branch goes back. */
  lemma {:induction false} LoopTurn(body: Code, s: State, k: nat)
    requires s.Run? && s.regs[ROW] == N(k) && k < 64
    ensures RunLines(Program(Stream(body)), Cpu(LOOP_START, s), |Stream(body)| + 3) ==
      Cpu(LOOP_START, Exec(body, Tested(s)))
  {
    hide Exec, Program, RunLines, Tested;
    var lines := Program(Stream(body));
    var n := |Stream(body)|;
    ProgramLines(Stream(body));
    var c := Cpu(LOOP_START, s);
    TestTaken(lines, s, k, LOOP_START + 3 + n);
    RunCode(lines, LOOP_START + 2, body, Tested(s));
    RunLinesAgain(lines, c, 2, n);
    OneLine(lines, RunLines(lines, c, 2 + n));
    RunLinesAgain(lines, c, 2 + n, 1);
  }

  lemma {:induction false} LoopTurns(body: Code, s: State, k: nat) returns (steps: nat)
    requires k <= 64 && forall j: nat :: j < k ==> Loop(body, s, j).Run? && Loop(body, s, j).regs[ROW] == N(j)
    ensures RunLines(Program(Stream(body)), Cpu(LOOP_START, s), steps) == Cpu(LOOP_START, Loop(body, s, k))
    decreases k
  {
    hide Exec, Program, RunLines, Tested, Stream, Loop;
    LoopUnrolled(body, s, k);
    var c := Cpu(LOOP_START, s);
    var lines := Program(Stream(body));
    if k == 0 {
      steps := 0;
      NoLines(lines, c);
    } else {
      var before := LoopTurns(body, s, k - 1);
      LoopTurn(body, Loop(body, s, k - 1), k - 1);
      RunLinesAgain(lines, c, before, |Stream(body)| + 3);
      steps := before + |Stream(body)| + 3;
    }
  }

  lemma {:induction false} LoopUnrolled(body: Code, s: State, k: nat)
    ensures Loop(body, s, 0) == s && (k > 0 ==> Loop(body, s, k) == Exec(body, Tested(Loop(body, s, k - 1))))
  {
  }

  lemma {:induction false} NoLines(lines: seq<Line>, c: Cpu)
    ensures RunLines(lines, c, 0) == c
  {
  }

  /** The whole kernel: prologue, the loop until row_index reaches 64, and the mask into x0. */
  function RunBody(body: Code, s: State): State {
    Machine.Step(Mov(0, MASK), Tested(Loop(body, Exec(Prologue(), s), 64)))
  }

  /** The program stops behind its last line, having run the prologue, 64 turns of the loop and the exit. */
  lemma {:induction false} ProgramRuns(body: Code, s: State) returns (steps: nat)
    requires
      var start := Exec(Prologue(), s);
      forall k: nat :: k <= 64 ==> Loop(body, start, k).Run? && Loop(body, start, k).regs[ROW] == N(k)
    ensures RunLines(Program(Stream(body)), Cpu(0, s), steps) == Cpu(|Program(Stream(body))|, RunBody(body, s))
  {
    hide Exec, Program, RunLines, Tested, Prologue, Loop;
    var lines := Program(Stream(body));
    var n := |Stream(body)|;
    ProgramLines(Stream(body));
    var c := Cpu(0, s);
    RunCode(lines, 0, Prologue(), s);
    var start := Exec(Prologue(), s);
    var turns := LoopTurns(body, start, 64);
    RunLinesAgain(lines, c, LOOP_START, turns);
    TestTaken(lines, Loop(body, start, 64), 64, LOOP_START + 3 + n);
    RunLinesAgain(lines, c, LOOP_START + turns, 2);
    OneLine(lines, RunLines(lines, c, LOOP_START + turns + 2));
    RunLinesAgain(lines, c, LOOP_START + turns + 2, 1);
    steps := LOOP_START + turns + 3;
  }

  ghost function RunScalar(u: Plan, s: State): State {
    if InPool(u) then RunBody(Body(u), s) else Fault
  }

  /** The emitted program halts, and returns the words of the 64 rows, each moved up by its row number. */
  lemma {:induction false} ScalarKernel(u: Plan, rows: Chunk, s: State) returns (steps: nat)
    requires Compilable(u) && Called(u, rows, s)
    ensures RunLines(Program(Stream(Body(u))), Cpu(0, s), steps) == Cpu(|Program(Stream(Body(u)))|, RunScalar(u, s))
    ensures RunScalar(u, s).Run? && RunScalar(u, s).regs[0] == W(RowWords(u.p, u.order, rows, 64))
  {
    hide PlanOk, RawFields, Body, RowWords, Prologue, Coded, Program, RunLines;
    PrologueEffect(u, rows, s, Prologue());
    var start := Exec(Prologue(), s);
    forall k: nat | k <= 64
      ensures Loop(Body(u), start, k).Run? && Loop(Body(u), start, k).regs[ROW] == N(k)
    {
      LoopEffect(u, rows, start, k, Body(u));
    }
    LoopEffect(u, rows, start, 64, Body(u));
    steps := ProgramRuns(Body(u), s);
  }

  // ----- from expressions to kernels -----

  ghost function MakePlan(p: Dag, root: nat): Plan
    requires root < |p|
  {
    OrderIsTopological(p, root);
    var order := Order(p, root);
    Plan(p, order, SlotMap(p, order), FieldNames(p, order))
  }

  /** No NOT can be reached from i. */
  predicate NotFree(p: Dag, i: nat)
    requires i < |p|
    decreases i
  {
    !p[i].op.Not? && forall c | c in Children(p[i].op) :: NotFree(p, c)
  }

  lemma {:induction false} NoNotBelow(p: Dag, i: nat)
    requires i < |p| && forall n :: 0 <= n <= i ==> !p[n].op.Not?
    ensures NotFree(p, i)
    decreases i
  {
    forall c | c in Children(p[i].op)
      ensures c < i && NotFree(p, c)
    {
      NoNotBelow(p, c);
    }
  }

  lemma {:induction false} PlanMade(p: Dag, root: nat)
    requires root < |p| && |Order(p, root)| <= MAX_SLOTS
    ensures PlanOk(MakePlan(p, root)) && InPool(MakePlan(p, root))
    ensures MakePlan(p, root).order != [] && MakePlan(p, root).order[|MakePlan(p, root).order| - 1] == root
  {
    hide SlotsOk, NonLeaves, SlotMap;
    OrderIsTopological(p, root);
    SlotsSound(p, Order(p, root));
    FieldNamesCover(p, Order(p, root));
  }

  lemma {:induction false} ListedWellTyped(p: Dag, root: nat)
    requires root < |p| && WellTyped(p, root)
    ensures forall n :: n in Order(p, root) ==> n < |p| && WellTyped(p, n) && HasCode(p, n)
  {
    hide HasCode;
    var s := set n: nat | n < |p| && WellTyped(p, n);
    forall n, c | n in s && n < |p| && c in Children(p[n].op)
      ensures c in s
    {
      OperandWellTyped(p, n, c);
    }
    OrderIsReachable(p, root, s);
    forall n | n in Order(p, root)
      ensures HasCode(p, n)
    {
      WellTypedHasCode(p, n);
    }
  }

  lemma {:induction false} WellTypedHasCode(p: Dag, i: nat)
    requires i < |p| && WellTyped(p, i)
    ensures HasCode(p, i)
  {
  }

  /**
   What compile_scalar_expression makes of every well-typed operator, NOT included: its program halts, and
   returns the words that the code as written computes, row by row.
   */
  lemma {:induction false} ScalarReturns(p: Dag, root: nat, rows: Chunk, s: State) returns (steps: nat)
    requires root < |p| && WellTyped(p, root) && !IsLeaf(p[root].op) && |Order(p, root)| <= MAX_SLOTS
    requires Called(MakePlan(p, root), rows, s)
    ensures InPool(MakePlan(p, root))
    ensures
      var u := MakePlan(p, root);
      && RunLines(Program(Stream(Body(u))), Cpu(0, s), steps) == Cpu(|Program(Stream(Body(u)))|, RunScalar(u, s))
      && RunScalar(u, s).Run? && RunScalar(u, s).regs[0] == W(RowWords(u.p, u.order, rows, 64))
  {
    hide PlanOk, RawFields, RunScalar, WellTyped, HasCode, Program, Body, RowWords, RunLines, IsLeaf;
    PlanMade(p, root);
    ListedWellTyped(p, root);
    steps := ScalarKernel(MakePlan(p, root), rows, s);
  }

  // ----- when that is the truth -----

  /** The word that the meaning of an expression calls for. */
  function ScalarWord(p: Dag, n: nat, row: Row): Word
    requires n < |p|
  {
    if IsMask(p[n].op) then (if Holds(p, n, row, true) then {0} else {}) else ToWord(Value(p, n, row, true))
  }

  /** 0/1 words and numbers behave as truth values and numbers. */
  lemma {:induction false} TruthWords()
    ensures Val({0}) == 1 && Val({}) == 0
  {
    var one, none: Word := {0}, {};
    OneHasOneBit();
    assert ToWord(1) == one;
    assert ToWord(0) == none;
    NatRoundTrip(1);
    NatRoundTrip(0);
  }

  lemma {:induction false} OneHasOneBit()
    ensures forall b: nat :: NatBit(1, b) == (b == 0)
    ensures forall b: nat :: !NatBit(0, b)
  {
    forall b: nat
      ensures !NatBit(0, b)
    {
      ZeroHasNoBits(b);
    }
    forall b: nat
      ensures NatBit(1, b) == (b == 0)
    {
      if b > 0 {
        ZeroHasNoBits(b - 1);
      }
    }
  }

  ghost predicate TrueOperand(p: Dag, done: Progress, n: nat, row: Row) {
    n < |p| && OperandWord(p, done, n, row) == ScalarWord(p, n, row)
  }

  lemma {:induction false} PlaneOperatorTruth(p: Dag, done: Progress, n: nat, row: Row)
    requires n < |p| && (p[n].op.Add? || p[n].op.Sub? || p[n].op.Compare?) && WellTyped(p, n)
    requires TrueOperand(p, done, p[n].op.left, row) && TrueOperand(p, done, p[n].op.right, row)
    ensures OperatorWord(p, done, n, row) == ScalarWord(p, n, row)
  {
    hide ToWord, Wrap, Val, OperandWord;
    NatRoundTrip(Value(p, p[n].op.left, row, true));
    NatRoundTrip(Value(p, p[n].op.right, row, true));
  }

  lemma {:induction false} MaskOperatorTruth(p: Dag, done: Progress, n: nat, row: Row)
    requires n < |p| && (p[n].op.And? || p[n].op.Or?) && WellTyped(p, n)
    requires TrueOperand(p, done, p[n].op.left, row) && TrueOperand(p, done, p[n].op.right, row)
    ensures OperatorWord(p, done, n, row) == ScalarWord(p, n, row)
  {
    hide OperandWord;
  }

  lemma {:induction false} SelectTruth(p: Dag, done: Progress, n: nat, row: Row)
    requires n < |p| && p[n].op.Select? && WellTyped(p, n) && TrueOperand(p, done, p[n].op.cond, row)
    requires TrueOperand(p, done, p[n].op.left, row) && TrueOperand(p, done, p[n].op.right, row)
    ensures OperatorWord(p, done, n, row) == ScalarWord(p, n, row)
  {
    hide ToWord, Wrap, Val, OperandWord;
    TruthWords();
  }

  lemma {:induction false} OperatorTruth(p: Dag, done: Progress, n: nat, row: Row)
    requires n < |p| && WellTyped(p, n) && !IsLeaf(p[n].op) && !p[n].op.Not?
    requires forall c :: c in Children(p[n].op) ==> TrueOperand(p, done, c, row)
    ensures OperatorWord(p, done, n, row) == ScalarWord(p, n, row)
  {
    hide OperatorWord, ScalarWord, TrueOperand;
    var op := p[n].op;
    assert HasTwo(op);
    assert op.left in Children(op) && op.right in Children(op) && (op.Select? ==> op.cond in Children(op));
    if op.Select? {
      SelectTruth(p, done, n, row);
    } else if op.And? || op.Or? {
      MaskOperatorTruth(p, done, n, row);
    } else {
      PlaneOperatorTruth(p, done, n, row);
    }
  }

  /** Where no NOT is listed, every word written is the one the meaning calls for. */
  ghost predicate TrueSoFar(p: Dag, order: seq<nat>, k: nat, row: Row)
    requires k <= |order| && forall n :: n in order ==> n < |p|
  {
    forall n :: n in order[..k] ==> TrueOperand(p, Written(p, order, k, row), n, row)
  }

  ghost predicate NoNots(p: Dag, order: seq<nat>, k: nat) {
    k <= |order| && forall j :: 0 <= j < k ==> order[j] < |p| && WellTyped(p, order[j]) && !p[order[j]].op.Not?
  }

  lemma {:induction false} LeafTruth(p: Dag, done: Progress, n: nat, row: Row)
    requires n < |p| && IsLeaf(p[n].op)
    ensures TrueOperand(p, done, n, row)
  {
  }

  lemma {:induction false} ListedTruth(p: Dag, done: Progress, n: nat, m: nat, row: Row)
    requires n < |p| && m != n && TrueOperand(p, done, m, row)
    ensures TrueOperand(p, Listed(p, done, n, row), m, row)
  {
    hide ScalarWord, OperatorWord, ToWord;
  }

  lemma {:induction false} NewlyTrue(p: Dag, done: Progress, n: nat, row: Row)
    requires n < |p| && (!IsLeaf(p[n].op) ==> OperatorWord(p, done, n, row) == ScalarWord(p, n, row))
    ensures TrueOperand(p, Listed(p, done, n, row), n, row)
  {
    hide OperatorWord, Holds, Value;
    if IsLeaf(p[n].op) {
      LeafTruth(p, done, n, row);
    }
  }

  lemma {:induction false} WrittenTruth(p: Dag, order: seq<nat>, k: nat, row: Row)
    requires TopoOrder(p, order) && (forall n :: n in order ==> n < |p|) && NoNots(p, order, k)
    ensures TrueSoFar(p, order, k, row)
    decreases k
  {
    if k > 0 {
      hide TrueOperand, OperatorWord, ScalarWord, Listed, IsLeaf, WellTyped;
      WrittenTruth(p, order, k - 1, row);
      var n := order[k - 1];
      assert n in order;
      var done := Written(p, order, k - 1, row);
      if !IsLeaf(p[n].op) {
        forall c | c in Children(p[n].op)
          ensures TrueOperand(p, done, c, row)
        {
          assert c in order[..k - 1];
        }
        OperatorTruth(p, done, n, row);
      }
      NewlyTrue(p, done, n, row);
      forall m | m in order[..k]
        ensures TrueOperand(p, Written(p, order, k, row), m, row)
      {
        assert order[..k] == order[..k - 1] + [n];
        if m != n {
          ListedTruth(p, done, n, m, row);
        }
      }
    }
  }

  lemma {:induction false} LastTruth(p: Dag, order: seq<nat>, row: Row)
    requires order != [] && (forall n :: n in order ==> n < |p|) && TrueSoFar(p, order, |order|, row)
    requires order[|order| - 1] < |p| && !IsLeaf(p[order[|order| - 1]].op)
    ensures RowWord(p, order, row) == ScalarWord(p, order[|order| - 1], row)
  {
    hide ScalarWord, OperatorWord;
    assert order[|order| - 1] in order[..|order|];
  }

  lemma {:induction false} NotFreeOrder(p: Dag, root: nat)
    requires root < |p| && WellTyped(p, root) && NotFree(p, root)
    ensures NoNots(p, Order(p, root), |Order(p, root)|)
  {
    var s := set n: nat | n < |p| && WellTyped(p, n) && NotFree(p, n);
    forall n, c | n in s && n < |p| && c in Children(p[n].op)
      ensures c in s
    {
      OperandWellTyped(p, n, c);
    }
    OrderIsReachable(p, root, s);
    forall j | 0 <= j < |Order(p, root)|
      ensures Order(p, root)[j] in s
    {
      assert Order(p, root)[j] in Order(p, root);
    }
  }

  /** Without NOT, a row ends with the word of the root. */
  lemma {:induction false} NotFreeRow(p: Dag, root: nat, row: Row)
    requires root < |p| && WellTyped(p, root) && NotFree(p, root) && !IsLeaf(p[root].op)
    requires forall n :: n in Order(p, root) ==> n < |p|
    ensures RowWord(p, Order(p, root), row) == ScalarWord(p, root, row)
  {
    hide RowWord, ScalarWord, TrueSoFar, NoNots, WellTyped, NotFree;
    OrderIsTopological(p, root);
    NotFreeOrder(p, root);
    WrittenTruth(p, Order(p, root), |Order(p, root)|, row);
    LastTruth(p, Order(p, root), row);
  }

  /** Rows that end with a truth value put it into their own bit of the mask. */
  lemma {:induction false} TruthBits(p: Dag, order: seq<nat>, rows: Chunk, k: nat)
    requires k <= 64 && forall n :: n in order ==> n < |p|
    requires forall r: nat :: r < k ==> RowWord(p, order, rows[r]) <= {0}
    ensures forall r: nat :: r in RowWords(p, order, rows, k) <==> r < k && 0 in RowWord(p, order, rows[r])
    decreases k
  {
    hide RowWord;
    if k > 0 {
      TruthBits(p, order, rows, k - 1);
    }
  }

  // ----- NOT -----

  /** The NOTs at the top of an expression, and what is below them. */
  function Nots(p: Dag, i: nat): nat
    requires i < |p|
    decreases i
  {
    if p[i].op.Not? then assert p[i].op.left in Children(p[i].op); Nots(p, p[i].op.left) + 1 else 0
  }

  function Core(p: Dag, i: nat): (r: nat)
    requires i < |p|
    ensures r < |p|
    decreases i
  {
    if p[i].op.Not? then assert p[i].op.left in Children(p[i].op); Core(p, p[i].op.left) else i
  }

  lemma {:induction false} NotOrder(p: Dag, root: nat, x: nat)
    requires root < |p| && p[root].op == Not(x) && x < root
    ensures Order(p, root) == Order(p, x) + [root] && |Order(p, x)| > 0 && Order(p, x)[|Order(p, x)| - 1] == x
  {
    OrderIsTopological(p, x);
    var kids := Children(p[root].op);
    assert kids == [x] && kids[..0] == [];
    assert VisitAll(p, kids, root, []) == Visit(p, x, VisitAll(p, kids[..0], root, []));
  }

  lemma {:induction false} WrittenPrefix(p: Dag, order: seq<nat>, longer: seq<nat>, k: nat, row: Row)
    requires k <= |order| && order <= longer && forall n :: n in longer ==> n < |p|
    requires forall n :: n in order ==> n < |p|
    ensures Written(p, longer, k, row) == Written(p, order, k, row)
    decreases k
  {
    hide Listed;
    if k > 0 {
      WrittenPrefix(p, order, longer, k - 1, row);
    }
  }

  /** NOTs at the top leave the word of what is below them. */
  lemma {:induction false} NotsRow(p: Dag, root: nat, row: Row)
    requires root < |p| && WellTyped(p, root) && IsMask(p[root].op) && NotFree(p, Core(p, root))
    requires forall n :: n in Order(p, root) ==> n < |p|
    ensures IsMask(p[Core(p, root)].op) && RowWord(p, Order(p, root), row) == ScalarWord(p, Core(p, root), row)
    decreases root
  {
    hide ScalarWord, NotFree;
    if p[root].op.Not? {
      var x := p[root].op.left;
      var order := Order(p, x);
      NotOrder(p, root, x);
      OrderIsTopological(p, x);
      assert forall n :: n in order ==> n < |p|;
      NotsRow(p, x, row);
      WrittenPrefix(p, order, Order(p, root), |order|, row);
    } else {
      NotFreeRow(p, root, row);
    }
  }

  lemma {:induction false} NotsTruth(p: Dag, root: nat, row: Row)
    requires root < |p|
    ensures Holds(p, Core(p, root), row, true) <==> (Holds(p, root, row, true) <==> Nots(p, root) % 2 == 0)
    decreases root
  {
    if p[root].op.Not? {
      assert p[root].op.left in Children(p[root].op);
      NotsTruth(p, p[root].op.left, row);
    }
  }

  /**
   NOTs at the top of a NOT-free mask, SUB included: bit r is the truth of the expression on row r when their
   number is even, and its negation when it is odd. The mask is right exactly for even numbers of NOTs.
   */
  lemma {:induction false} ScalarMask(p: Dag, root: nat, rows: Chunk, s: State)
    requires root < |p| && WellTyped(p, root) && IsMask(p[root].op) && NotFree(p, Core(p, root))
    requires |Order(p, root)| <= MAX_SLOTS
    requires Called(MakePlan(p, root), rows, s)
    ensures RunScalar(MakePlan(p, root), s).Run? && RunScalar(MakePlan(p, root), s).regs[0].W?
    ensures forall r: nat :: r < 64 ==>
      (r in RunScalar(MakePlan(p, root), s).regs[0].w <==> (Holds(p, root, rows[r], true) <==> Nots(p, root) % 2 == 0))
  {
    hide RawFields, RunScalar, Holds, WellTyped, NotFree, Nots, Program, Body, RunLines, RowWord, Core, RowWords;
    var order := Order(p, root);
    var steps := ScalarReturns(p, root, rows, s);
    forall r: nat | r < 64
      ensures RowWord(p, order, rows[r]) <= {0}
      ensures 0 in RowWord(p, order, rows[r]) <==> Holds(p, Core(p, root), rows[r], true)
    {
      NotsRow(p, root, rows[r]);
    }
    TruthBits(p, order, rows, 64);
    forall r: nat | r < 64
      ensures Holds(p, Core(p, root), rows[r], true) <==> (Holds(p, root, rows[r], true) <==> Nots(p, root) % 2 == 0)
    {
      NotsTruth(p, root, rows[r]);
    }
  }

  lemma {:induction false} NotFreeCore(p: Dag, root: nat)
    requires root < |p| && NotFree(p, root)
    ensures Nots(p, root) == 0 && Core(p, root) == root
  {
  }

  /** The two compilers agree on expressions without SUB and NOT. */
  lemma {:induction false} CompilersAgree(p: Dag, root: nat, k: Kernel, rows: Chunk, scalar: State, sliced: State)
    requires root < |p| && WellTyped(p, root) && IsMask(p[root].op) && NotFree(p, root) && SubFree(p, root)
    requires Adders(p, root, {}) <= 6 && Compile(p, root, {}) == Some(k) && Entered(k.plan, rows, sliced)
    requires |Order(p, root)| <= MAX_SLOTS && Called(MakePlan(p, root), rows, scalar)
    ensures RunScalar(MakePlan(p, root), scalar).Run? && Exec(k.code, sliced).Run?
    ensures RunScalar(MakePlan(p, root), scalar).regs[0] == Exec(k.code, sliced).regs[0]
  {
    hide Nots, Core, Called, Entered, RunScalar, Holds, WellTyped, NotFree, Compile, Adders, InPool, MakePlan, SubFree;
    NotFreeCore(p, root);
    ScalarMask(p, root, rows, scalar);
    CompiledMaskExact(p, root, k, rows, sliced);
    var v, w := RunScalar(MakePlan(p, root), scalar).regs[0].w, Exec(k.code, sliced).regs[0].w;
    assert v == w;
  }

  /** On NOT x the scalar kernel returns x: every bit is wrong. */
  lemma {:induction false} NotReturnsItsOperand(p: Dag, root: nat, x: nat, rows: Chunk, s: State)
    requires root < |p| && p[root].op == Not(x) && x < root && WellTyped(p, root) && NotFree(p, x)
    requires |Order(p, root)| <= MAX_SLOTS
    requires Called(MakePlan(p, root), rows, s)
    ensures RunScalar(MakePlan(p, root), s).Run? && RunScalar(MakePlan(p, root), s).regs[0].W?
    ensures forall r: nat :: r < 64 ==>
      (r in RunScalar(MakePlan(p, root), s).regs[0].w <==> !Holds(p, root, rows[r], true))
  {
    hide RunScalar, Holds, WellTyped, NotFree, Called;
    NotFreeCore(p, x);
    ScalarMask(p, root, rows, s);
  }

  lemma {:induction false} NotsOnTop(p: Dag, i: nat, x: nat)
    requires i < |p| && x < |p|
    ensures p[i].op == Not(x) ==> x < i && Nots(p, i) == Nots(p, x) + 1 && Core(p, i) == Core(p, x)
    ensures !p[i].op.Not? ==> Nots(p, i) == 0 && Core(p, i) == i
  {
    if p[i].op == Not(x) {
      assert x in Children(p[i].op);
    }
  }

  /** For a comparison of two fields bit r of the scalar kernel's result compares the two values of row r. */
  lemma {:induction false} ScalarComparison(p: Dag, root: nat, l: nat, r: nat, f: string, g: string, rows: Chunk,
      s: State)
    requires root < |p| && l < root && r < root && p[l].op == Load(f) && p[r].op == Load(g)
    requires p[root].op.Compare? && p[root].op.left == l && p[root].op.right == r
    requires |Order(p, root)| <= MAX_SLOTS && Called(MakePlan(p, root), rows, s)
    ensures RunScalar(MakePlan(p, root), s).Run? && RunScalar(MakePlan(p, root), s).regs[0].W?
    ensures
      var w := RunScalar(MakePlan(p, root), s).regs[0].w;
      && (p[root].op.cmp == GT ==> forall i: nat :: i < 64 ==> (i in w <==> rows[i](f) > rows[i](g)))
      && (p[root].op.cmp == LT ==> forall i: nat :: i < 64 ==> (i in w <==> rows[i](f) < rows[i](g)))
      && (p[root].op.cmp == GE ==> forall i: nat :: i < 64 ==> (i in w <==> rows[i](f) >= rows[i](g)))
      && (p[root].op.cmp == LE ==> forall i: nat :: i < 64 ==> (i in w <==> rows[i](f) <= rows[i](g)))
      && (p[root].op.cmp == EQ ==> forall i: nat :: i < 64 ==> (i in w <==> rows[i](f) == rows[i](g)))
  {
    FieldComparison(p, root, l, r);
    NotFreeComparison(p, root, l, r);
    hide Called, Holds, Value, WellTyped, RunScalar, NotFree, Nots, Core, MakePlan;
    NotFreeCore(p, root);
    ScalarMask(p, root, rows, s);
    forall i: nat | i < 64
      ensures ComparesAs(p[root].op.cmp, Holds(p, root, rows[i], true), rows[i](f), rows[i](g))
    {
      ComparisonMeaning(p, root, l, r, rows[i], true);
      NumberMeaning(p, l, rows[i], true);
      NumberMeaning(p, r, rows[i], true);
    }
  }

  lemma {:induction false} NotFreeComparison(p: Dag, root: nat, l: nat, r: nat)
    requires root < |p| && l < root && r < root && p[l].op.Load? && p[r].op.Load?
    requires p[root].op.Compare? && p[root].op.left == l && p[root].op.right == r
    ensures NotFree(p, root)
  {
    assert NotFree(p, l) && NotFree(p, r);
  }

  /** compile_scalar_expression: the prologue, the loop test, the body node by node, the branches and the exit. */
  method CompileScalar(p: Dag, root: nat) returns (u: Plan, lines: seq<Line>)
    requires root < |p| && |Order(p, root)| <= MAX_SLOTS
    ensures u == MakePlan(p, root) && InPool(u) && lines == Program(Stream(Body(u)))
  {
    hide Program, SlotMap, FieldNames, RowEnd, NodesCode, Visit;
    OrderIsTopological(p, root);
    var analyzer := new ExpressionAnalyzer(p);
    analyzer.Analyze(root);
    var order := analyzer.allNodes;
    var names := CompilerDriver.AssignFields(p, order);
    var slot := AllocateSlots(p, order);
    u := Plan(p, order, slot, names);
    var body := AppendNodes(u);
    body := body + Stream(RowEnd());
    lines := AppendLoop(body);
  }

  /** Everything around the loop body. */
  method AppendLoop(body: seq<Instr>) returns (lines: seq<Line>)
    ensures lines == Program(body)
  {
    hide Stream, Prologue, Lines;
    lines := [Do(Mov(FIELDS, 0)), Do(Mov(PAD, 1)), Do(MovImm(MASK, W({}))), Do(MovImm(ROW, N(0)))];
    ProloguePrinted();
    var end := LOOP_START + 3 + |body|;
    lines := lines + [CmpRow, JumpIfHS(end)];
    lines := lines + Lines(body);
    lines := lines + [Jump(LOOP_START), Do(Mov(0, MASK))];
  }

  lemma {:induction false} ProloguePrinted()
    ensures Lines(Stream(Prologue())) ==
      [Do(Mov(FIELDS, 0)), Do(Mov(PAD, 1)), Do(MovImm(MASK, W({}))), Do(MovImm(ROW, N(0)))]
  {
    assert Stream(Prologue()) == [Mov(FIELDS, 0), Mov(PAD, 1), MovImm(MASK, W({})), MovImm(ROW, N(0))];
  }

  method AppendNodes(u: Plan) returns (code: seq<Instr>)
    requires InPool(u)
    ensures code == Stream(NodesCode(u, |u.order|))
  {
    hide NodeCode;
    code := [];
    var k := 0;
    while k < |u.order|
      invariant 0 <= k <= |u.order| && code == Stream(NodesCode(u, k))
    {
      assert u.order[k] in u.order;
      assert NodesCode(u, k + 1) == Then(NodesCode(u, k), NodeCode(u, u.order[k]));
      code := code + Stream(NodeCode(u, u.order[k]));
      k := k + 1;
    }
  }
}
