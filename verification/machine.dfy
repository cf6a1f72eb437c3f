/**
 The part of the AArch64 machine that emitted kernels use (the instructions
 appended in src/jit/compiler.cpp).

 A register holds a data word, a plain number (an immediate used as an offset, an
 index or a shift) or an address inside one of the memory objects a kernel is
 given: the table of field pointers, the bit-planes of a field, or the scratchpad.
 Using a value at the wrong type and accessing memory out of bounds are faults.
 */
module Machine {
  import opened Words

  type Reg = r: nat | r < 32

  /** Register 31 reads as zero. */
  const XZR: Reg := 31

  datatype Base = FieldTable | Field(k: nat) | Scratch

  datatype Datum = W(w: Word) | N(n: int) | P(base: Base, off: int)

  type Regs = s: seq<Datum> | |s| == 32 witness seq(32, i => N(0))

  datatype Flags = Flags(lhs: nat, rhs: nat)

  /** `fields` is read-only for a kernel. Offsets are in bytes, a word has eight. */
  datatype State =
    | Fault
    | Run(regs: Regs, flags: Flags, fields: seq<seq<Word>>, scratch: seq<Word>)

  datatype AluOp = AND | ORR | EOR | BIC

  datatype Cond = HI | LO | HS | LS | IS | NE

  datatype Mem =
    | Imm(base: Reg, off: int)     // [base, #off]
    | Idx(base: Reg, idx: Reg)     // [base, idx]
    | Idx8(base: Reg, idx: Reg)    // [base, idx, lsl #3]

  datatype Instr =
    | MovImm(d: Reg, v: Datum)       // emit_mov_imm64, or mov with an immediate
    | Mov(d: Reg, s: Reg)
    | MvnR(d: Reg, s: Reg)
    | Alu(op: AluOp, d: Reg, a: Reg, b: Reg)
    | AddR(d: Reg, a: Reg, b: Reg)
    | AddLsl3(d: Reg, a: Reg, b: Reg)
    | AddImm(d: Reg, a: Reg, k: int)
    | SubR(d: Reg, a: Reg, b: Reg)
    | LsrR(d: Reg, a: Reg, b: Reg)
    | LslR(d: Reg, a: Reg, b: Reg)
    | AndOne(d: Reg, a: Reg)       // and d, a, #1
    | NegR(d: Reg, a: Reg)
    | Ldr(d: Reg, m: Mem)
    | Str(s: Reg, m: Mem)
    | Cmp(a: Reg, b: Reg)
    | CmpZero(a: Reg)
    | Cset(d: Reg, c: Cond)
    | Csel(d: Reg, a: Reg, b: Reg, c: Cond)
    | Undefined                    // what an out-of-range register table index yields

  function AluResult(op: AluOp, a: Word, b: Word): Word {
    match op
    case AND => a * b
    case ORR => a + b
    case EOR => Eor(a, b)
    case BIC => a - b
  }

  predicate CondHolds(c: Cond, f: Flags) {
    match c
    case HI => f.lhs > f.rhs
    case LO => f.lhs < f.rhs
    case HS => f.lhs >= f.rhs
    case LS => f.lhs <= f.rhs
    case IS => f.lhs == f.rhs
    case NE => f.lhs != f.rhs
  }

  function NegWord(w: Word): Word {
    ToWord(Wrap(0 - Val(w)))
  }

  function Read(s: State, r: Reg): Datum
    requires s.Run?
  {
    if r == XZR then W({}) else s.regs[r]
  }

  function Set(s: State, d: Reg, v: Datum): (t: State)
    requires s.Run?
  {
    s.(regs := s.regs[d := v])
  }

  function SumOf(a: Datum, b: Datum): Datum {
    match (a, b)
    case (N(x), N(y)) => N(x + y)
    case (N(x), P(o, y)) => P(o, x + y)
    case (P(o, x), N(y)) => P(o, x + y)
    case (W(x), W(y)) => W(ToWord(Wrap(Val(x) + Val(y))))
    case _ => P(Scratch, -8)   // not an address of anything
  }

  function Address(s: State, m: Mem): Datum
    requires s.Run?
  {
    match m
    case Imm(b, off) =>
      (match Read(s, b)
       case P(o, x) => P(o, x + off)
       case _ => P(Scratch, -8))
    case Idx(b, i) =>
      (match (Read(s, b), Read(s, i))
       case (P(o, x), N(n)) => P(o, x + n)
       case _ => P(Scratch, -8))
    case Idx8(b, i) =>
      (match (Read(s, b), Read(s, i))
       case (P(o, x), N(n)) => P(o, x + 8 * n)
       case _ => P(Scratch, -8))
  }

  function LoadFrom(s: State, d: Reg, a: Datum): State
    requires s.Run?
  {
    if !a.P? || a.off < 0 || a.off % 8 != 0 then Fault
    else
      var k := a.off / 8;
      match a.base
      case FieldTable => if k < |s.fields| then Set(s, d, P(Field(k), 0)) else Fault
      case Field(f) => if f < |s.fields| && k < |s.fields[f]| then Set(s, d, W(s.fields[f][k])) else Fault
      case Scratch => if k < |s.scratch| then Set(s, d, W(s.scratch[k])) else Fault
  }

  function StoreTo(s: State, v: Datum, a: Datum): State
    requires s.Run?
  {
    if v.W? && a.P? && a.base.Scratch? && 0 <= a.off && a.off % 8 == 0 && a.off / 8 < |s.scratch|
    then s.(scratch := s.scratch[a.off / 8 := v.w])
    else Fault
  }

  function Step(i: Instr, s: State): State {
    if s.Fault? then Fault else
    match i
    case MovImm(d, v) => Set(s, d, v)
    case Mov(d, r) => Set(s, d, Read(s, r))
    case MvnR(d, r) => if Read(s, r).W? then Set(s, d, W(Mvn(Read(s, r).w))) else Fault
    case Alu(op, d, a, b) =>
      if Read(s, a).W? && Read(s, b).W?
      then Set(s, d, W(AluResult(op, Read(s, a).w, Read(s, b).w))) else Fault
    case AddR(d, a, b) => Set(s, d, SumOf(Read(s, a), Read(s, b)))
    case AddLsl3(d, a, b) =>
      if Read(s, a).N? && Read(s, b).N? then Set(s, d, N(Read(s, a).n + 8 * Read(s, b).n)) else Fault
    case AddImm(d, a, k) => Set(s, d, SumOf(Read(s, a), N(k)))
    case SubR(d, a, b) =>
      if Read(s, a).W? && Read(s, b).W?
      then Set(s, d, W(ToWord(Wrap(Val(Read(s, a).w) - Val(Read(s, b).w))))) else Fault
    case LsrR(d, a, b) =>
      if Read(s, a).W? && Read(s, b).N? && 0 <= Read(s, b).n < 64
      then Set(s, d, W(LsrWord(Read(s, a).w, Read(s, b).n))) else Fault
    case LslR(d, a, b) =>
      if Read(s, a).W? && Read(s, b).N? && 0 <= Read(s, b).n < 64
      then Set(s, d, W(LslWord(Read(s, a).w, Read(s, b).n))) else Fault
    case AndOne(d, a) => if Read(s, a).W? then Set(s, d, W(Read(s, a).w * {0})) else Fault
    case NegR(d, a) => if Read(s, a).W? then Set(s, d, W(NegWord(Read(s, a).w))) else Fault
    case Ldr(d, m) => LoadFrom(s, d, Address(s, m))
    case Str(r, m) => StoreTo(s, Read(s, r), Address(s, m))
    case Cmp(a, b) =>
      if Read(s, a).W? && Read(s, b).W?
      then s.(flags := Flags(Val(Read(s, a).w), Val(Read(s, b).w))) else Fault
    case CmpZero(a) => if Read(s, a).W? then s.(flags := Flags(Val(Read(s, a).w), 0)) else Fault
    case Cset(d, c) => Set(s, d, W(if CondHolds(c, s.flags) then {0} else {}))
    case Csel(d, a, b, c) => Set(s, d, if CondHolds(c, s.flags) then Read(s, a) else Read(s, b))
    case Undefined => Fault
  }

  // ----- the instructions in terms of bits and numbers -----

  lemma {:induction false} MoveInstruction(s: State, d: Reg, a: Reg, v: Datum)
    requires s.Run? && a != 31
    ensures Step(MovImm(d, v), s) == s.(regs := s.regs[d := v])
    ensures Step(Mov(d, a), s) == s.(regs := s.regs[d := s.regs[a]])
    ensures Step(Mov(d, 31), s) == s.(regs := s.regs[d := W({})])
    ensures forall i: nat, j: nat :: s.regs[a] == N(i) && v == N(j) ==>
      Step(AddImm(d, a, j), s) == s.(regs := s.regs[d := N(i + j)])
  {
  }

  /** and, orr, eor, bic and mvn, bit by bit. */
  lemma {:induction false} LogicInstruction(s: State, d: Reg, a: Reg, b: Reg, x: Word, y: Word, i: nat)
    requires s.Run? && a != 31 && b != 31 && s.regs[a] == W(x) && s.regs[b] == W(y) && i < 64
    ensures exists w: Word ::
      Step(Alu(AND, d, a, b), s) == s.(regs := s.regs[d := W(w)]) && (i in w <==> i in x && i in y)
    ensures exists w: Word ::
      Step(Alu(ORR, d, a, b), s) == s.(regs := s.regs[d := W(w)]) && (i in w <==> i in x || i in y)
    ensures exists w: Word ::
      Step(Alu(EOR, d, a, b), s) == s.(regs := s.regs[d := W(w)]) && (i in w <==> ((i in x) != (i in y)))
    ensures exists w: Word ::
      Step(Alu(BIC, d, a, b), s) == s.(regs := s.regs[d := W(w)]) && (i in w <==> i in x && i !in y)
    ensures exists w: Word :: Step(MvnR(d, a), s) == s.(regs := s.regs[d := W(w)]) && (i in w <==> i !in x)
  {
    assert Step(Alu(AND, d, a, b), s) == s.(regs := s.regs[d := W(x * y)]);
    assert Step(Alu(ORR, d, a, b), s) == s.(regs := s.regs[d := W(x + y)]);
    assert Step(Alu(EOR, d, a, b), s) == s.(regs := s.regs[d := W(Eor(x, y))]);
    assert Step(Alu(BIC, d, a, b), s) == s.(regs := s.regs[d := W(x - y)]);
    assert Step(MvnR(d, a), s) == s.(regs := s.regs[d := W(Mvn(x))]);
  }

  /** add, sub and neg on the numbers that words stand for. */
  lemma {:induction false} ArithmeticInstruction(s: State, d: Reg, a: Reg, b: Reg, x: nat, y: nat)
    requires s.Run? && a != 31 && b != 31 && x < 0x1_0000_0000_0000_0000 && y < 0x1_0000_0000_0000_0000
    requires s.regs[a] == W(ToWord(x)) && s.regs[b] == W(ToWord(y))
    ensures Step(AddR(d, a, b), s) == s.(regs := s.regs[d := W(ToWord((x + y) % 0x1_0000_0000_0000_0000))])
    ensures Step(SubR(d, a, b), s) == s.(regs := s.regs[d := W(ToWord((x - y) % 0x1_0000_0000_0000_0000))])
    ensures Step(NegR(d, a), s) == s.(regs := s.regs[d := W(ToWord((0 - x) % 0x1_0000_0000_0000_0000))])
    ensures Step(Cmp(a, b), s) == s.(flags := Flags(x, y)) && Step(CmpZero(a), s) == s.(flags := Flags(x, 0))
  {
    hide ToWord, Val, Wrap;
    NatRoundTrip(x);
    NatRoundTrip(y);
    WrapIsMod(x + y);
    WrapIsMod(x - y);
    WrapIsMod(0 - x);
  }

  /** lsr, lsl and the mask of the lowest bit. */
  lemma {:induction false} ShiftInstruction(s: State, d: Reg, a: Reg, b: Reg, x: Word, k: nat, i: nat)
    requires s.Run? && a != 31 && b != 31 && s.regs[a] == W(x) && s.regs[b] == N(k) && k < 64 && i < 64
    ensures exists w: Word ::
      Step(LsrR(d, a, b), s) == s.(regs := s.regs[d := W(w)]) && (i in w <==> i + k < 64 && i + k in x)
    ensures exists w: Word ::
      Step(LslR(d, a, b), s) == s.(regs := s.regs[d := W(w)]) && (i in w <==> k <= i && i - k in x)
    ensures exists w: Word :: Step(AndOne(d, a), s) == s.(regs := s.regs[d := W(w)]) && (i in w <==> i == 0 && 0 in x)
  {
    assert Step(LsrR(d, a, b), s) == s.(regs := s.regs[d := W(LsrWord(x, k))]);
    assert Step(LslR(d, a, b), s) == s.(regs := s.regs[d := W(LslWord(x, k))]);
    assert Step(AndOne(d, a), s) == s.(regs := s.regs[d := W(x * {0})]);
  }

  /** The six conditions after a comparison of m with n, as cset and csel see them. */
  lemma {:induction false} ConditionInstruction(s: State, d: Reg, a: Reg, b: Reg, m: nat, n: nat)
    requires s.Run? && a != 31 && b != 31 && s.flags == Flags(m, n)
    ensures Step(Cset(d, HI), s) == s.(regs := s.regs[d := W(if m > n then {0} else {})])
    ensures Step(Cset(d, LO), s) == s.(regs := s.regs[d := W(if m < n then {0} else {})])
    ensures Step(Cset(d, HS), s) == s.(regs := s.regs[d := W(if m >= n then {0} else {})])
    ensures Step(Cset(d, LS), s) == s.(regs := s.regs[d := W(if m <= n then {0} else {})])
    ensures Step(Cset(d, IS), s) == s.(regs := s.regs[d := W(if m == n then {0} else {})])
    ensures Step(Csel(d, a, b, NE), s) == s.(regs := s.regs[d := if m != n then s.regs[a] else s.regs[b]])
  {
  }

  /** Word k of an object is at byte 8 k, for the three ways of giving an address. */
  lemma {:induction false} MemoryInstruction(s: State, d: Reg, base: Reg, idx: Reg, at: nat, k: nat)
    requires s.Run? && base != 31 && idx != 31 && base != idx
    ensures s.regs[base] == P(Scratch, 8 * at) && at + k < |s.scratch| ==>
      && Step(Ldr(d, Imm(base, 8 * k)), s) == s.(regs := s.regs[d := W(s.scratch[at + k])])
      && (s.regs[idx] == N(8 * k) ==> Step(Ldr(d, Idx(base, idx)), s) == s.(regs := s.regs[d := W(s.scratch[at + k])]))
      && (d != 31 && s.regs[d].W? ==>
            Step(Str(d, Imm(base, 8 * k)), s) == s.(scratch := s.scratch[at + k := s.regs[d].w]))
      && (s.regs[idx] == N(8 * k) ==>
            Step(Str(31, Idx(base, idx)), s) == s.(scratch := s.scratch[at + k := {}]))
    ensures s.regs[base] == P(FieldTable, 0) && k < |s.fields| ==>
      Step(Ldr(d, Imm(base, 8 * k)), s) == s.(regs := s.regs[d := P(Field(k), 0)])
    ensures s.regs[base] == P(Field(at), 0) && at < |s.fields| && k < |s.fields[at]| ==>
      && Step(Ldr(d, Imm(base, 8 * k)), s) == s.(regs := s.regs[d := W(s.fields[at][k])])
      && (s.regs[idx] == N(k) ==> Step(Ldr(d, Idx8(base, idx)), s) == s.(regs := s.regs[d := W(s.fields[at][k])]))
  {
    assert (8 * at + 8 * k) / 8 == at + k && (8 * at + 8 * k) % 8 == 0 && (8 * k) / 8 == k && (8 * k) % 8 == 0;
  }

  /** Emitted code, kept as the tree of the pieces it was appended from. */
  datatype Code = Nop | I(i: Instr) | Then(first: Code, second: Code)

  /** The instruction stream that a piece of code stands for. */
  function Stream(c: Code): seq<Instr> {
    match c
    case Nop => []
    case I(i) => [i]
    case Then(a, b) => Stream(a) + Stream(b)
  }

  function Exec(c: Code, s: State): State {
    match c
    case Nop => s
    case I(i) => Step(i, s)
    case Then(a, b) => Exec(b, Exec(a, s))
  }

  /** Straight-line execution, one instruction after the other. */
  function ExecStream(list: seq<Instr>, s: State): State {
    if list == [] then s else ExecStream(list[1..], Step(list[0], s))
  }

  lemma {:induction false} ExecStreamAppend(a: seq<Instr>, b: seq<Instr>, s: State)
    ensures ExecStream(a + b, s) == ExecStream(b, ExecStream(a, s))
    decreases |a|
  {
    if a == [] {
      assert a + b == b;
    } else {
      assert (a + b)[1..] == a[1..] + b;
      ExecStreamAppend(a[1..], b, Step(a[0], s));
    }
  }

  /** Running the tree is running its stream. */
  lemma {:induction false} ExecIsStream(c: Code, s: State)
    ensures Exec(c, s) == ExecStream(Stream(c), s)
  {
    match c
    case Nop =>
    case I(i) =>
      assert [i][1..] == [];
    case Then(a, b) =>
      ExecIsStream(a, s);
      ExecIsStream(b, Exec(a, s));
      ExecStreamAppend(Stream(a), Stream(b), s);
  }

  function Two(a: Instr, b: Instr): Code {
    Then(I(a), I(b))
  }

  function Three(a: Instr, b: Instr, c: Instr): Code {
    Then(I(a), Two(b, c))
  }

  function Four(a: Instr, b: Instr, c: Instr, d: Instr): Code {
    Then(Two(a, b), Two(c, d))
  }

  function Five(a: Instr, b: Instr, c: Instr, d: Instr, e: Instr): Code {
    Then(Two(a, b), Three(c, d, e))
  }

  lemma {:induction false} StreamThree(a: Instr, b: Instr, c: Instr)
    ensures Stream(Three(a, b, c)) == [a, b] + [c]
  {
    assert Stream(Two(b, c)) == [b, c];
  }

  lemma {:induction false} ExecThen(c: Code, s: State)
    requires c.Then?
    ensures Exec(c, s) == Exec(c.second, Exec(c.first, s))
  {
  }

  lemma {:induction false} ExecTwo(a: Instr, b: Instr, s: State)
    ensures Exec(Two(a, b), s) == Step(b, Step(a, s))
  {
  }

  lemma {:induction false} ExecThree(a: Instr, b: Instr, c: Instr, s: State)
    ensures Exec(Three(a, b, c), s) == Step(c, Step(b, Step(a, s)))
  {
    ExecTwo(b, c, Step(a, s));
  }

  lemma {:induction false} ExecFour(a: Instr, b: Instr, c: Instr, d: Instr, s: State)
    ensures Exec(Four(a, b, c, d), s) == Step(d, Step(c, Step(b, Step(a, s))))
  {
    ExecTwo(a, b, s);
    ExecTwo(c, d, Step(b, Step(a, s)));
  }

  lemma {:induction false} ExecFive(a: Instr, b: Instr, c: Instr, d: Instr, e: Instr, s: State)
    ensures Exec(Five(a, b, c, d, e), s) == Step(e, Step(d, Step(c, Step(b, Step(a, s)))))
  {
    ExecTwo(a, b, s);
    ExecThree(c, d, e, Step(b, Step(a, s)));
  }

  /** A fault is final. */
  lemma {:induction false} ExecFault(c: Code)
    ensures Exec(c, Fault) == Fault
  {
    match c
    case Nop =>
    case I(_) =>
    case Then(a, b) =>
      ExecFault(a);
      ExecFault(b);
  }

  /** A kernel is entered with the two arguments in x0 and x1 and anything in the other registers. */
  function Entry(junk: Regs, flags: Flags, fields: seq<seq<Word>>, scratch: seq<Word>): State {
    Run(junk[0 := P(FieldTable, 0)][1 := P(Scratch, 0)], flags, fields, scratch)
  }

  /** Whatever the registers and flags happen to hold when a kernel is called. */
  method CallerRegisters() returns (junk: Regs, flags: Flags) {
    junk, flags := *, *;
  }
}
