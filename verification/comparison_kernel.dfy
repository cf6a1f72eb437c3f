/**
 compile_comparison (src/jit/compiler.cpp) and the single-field loop of execute that
 runs its kernel (src/api/engine.cpp).
 */
module ComparisonKernel {
  import opened Words
  import opened Machine
  import opened Circuits
  import opened BitSlicer
  import opened Aggregation
  import opened Table
  import opened Gather

  const GT: Reg := 9
  const EQUAL: Reg := 10
  const WALKER: Reg := 11
  const PLANE: Reg := 12
  const TMP: Reg := 13

  // ----- emitted code -----

  /** A load that moves the walker down by one word afterwards. */
  function LoadDown(): Code {
    Two(Ldr(PLANE, Imm(WALKER, 0)), AddImm(WALKER, WALKER, -8))
  }

  function Join(bit: bool): Code {
    if bit then I(Alu(AND, EQUAL, EQUAL, PLANE))
    else Three(Alu(AND, TMP, EQUAL, PLANE), Alu(ORR, GT, GT, TMP), Alu(BIC, EQUAL, EQUAL, PLANE))
  }

  function Start(): Code {
    Three(Alu(ORR, GT, XZR, XZR), MovImm(EQUAL, W(Ones())), AddImm(WALKER, 0, 504))
  }

  /** The blocks of the bits 63 down to k. */
  function DownTo(threshold: U64, k: nat): Code
    requires k <= 64
    decreases 64 - k
  {
    if k == 64 then Start() else Then(DownTo(threshold, k + 1), Then(LoadDown(), Join(NatBit(threshold, k))))
  }

  function ThresholdCode(threshold: U64): Code {
    Then(DownTo(threshold, 0), I(Mov(0, GT)))
  }

  /** compile_comparison as it appends its 64 blocks. */
  method CompileComparison(threshold: U64) returns (code: seq<Instr>)
    ensures code == Stream(ThresholdCode(threshold))
  {
    hide Join, LoadDown, Start;
    code := Stream(Start());
    var bit := 64;
    while bit > 0
      invariant 0 <= bit <= 64 && code == Stream(DownTo(threshold, bit))
    {
      bit := bit - 1;
      ghost var before := code;
      code := code + Stream(LoadDown());
      code := code + Stream(Join(NatBit(threshold, bit)));
      NextBlock(threshold, bit, before, code);
    }
    code := code + [Mov(0, GT)];
  }

  lemma {:induction false} NextBlock(threshold: U64, k: nat, before: seq<Instr>, after: seq<Instr>)
    requires k < 64 && before == Stream(DownTo(threshold, k + 1))
    requires after == (before + Stream(LoadDown())) + Stream(Join(NatBit(threshold, k)))
    ensures after == Stream(DownTo(threshold, k))
  {
    hide Join, LoadDown, Start;
    var c := DownTo(threshold, k);
    assert Stream(c) == Stream(c.first) + Stream(c.second);
    assert Stream(c.second) == Stream(c.second.first) + Stream(c.second.second);
  }

  // ----- what it computes -----

  /** The masks after the bits 63 .. k, and the walker on the plane below. */
  ghost predicate At(c: Column, threshold: U64, k: nat, s: State) {
    && s.Run? && |s.fields| > 0 && |s.fields[0]| == 64 && (forall b: nat :: b < 64 ==> s.fields[0][b] == Plane(c, b))
    && s.regs[GT] == W(GtWord(c, ConstColumn(threshold), k))
    && s.regs[EQUAL] == W(EqWord(c, ConstColumn(threshold), k))
    && s.regs[WALKER] == P(Field(0), 8 * (k - 1))
  }

  lemma {:induction false} LoadEffect(s: State, k: nat, code: Code)
    requires s.Run? && code == LoadDown() && 0 < k && |s.fields| > 0 && k <= |s.fields[0]|
    requires s.regs[WALKER] == P(Field(0), 8 * (k - 1))
    ensures Exec(code, s) == Run(s.regs[PLANE := W(s.fields[0][k - 1])][WALKER := P(Field(0), 8 * (k - 2))], s.flags,
      s.fields, s.scratch)
  {
    ExecTwo(Ldr(PLANE, Imm(WALKER, 0)), AddImm(WALKER, WALKER, -8), s);
    assert (8 * (k - 1)) / 8 == k - 1 && (8 * (k - 1)) % 8 == 0;
  }

  lemma {:induction false} JoinEffect(s: State, bit: bool, g: Word, e: Word, a: Word, code: Code)
    requires s.Run? && code == Join(bit) && s.regs[GT] == W(g) && s.regs[EQUAL] == W(e) && s.regs[PLANE] == W(a)
    ensures
      var t := Exec(code, s);
      && t.Run? && t.fields == s.fields && t.regs[WALKER] == s.regs[WALKER]
      && t.regs[GT] == W(if bit then g else g + (e * a)) && t.regs[EQUAL] == W(if bit then e * a else e - a)
  {
    if !bit {
      ExecThree(Alu(AND, TMP, EQUAL, PLANE), Alu(ORR, GT, GT, TMP), Alu(BIC, EQUAL, EQUAL, PLANE), s);
    }
  }

  /** With one operand constant, a comparison step needs one mask only. */
  lemma {:induction false} ConstantStep(c: Column, threshold: U64, k: nat)
    requires k < 64
    ensures
      var t, bit := ConstColumn(threshold), NatBit(threshold, k);
      && GtWord(c, t, k) == (if bit then GtWord(c, t, k + 1)
                             else GtWord(c, t, k + 1) + (EqWord(c, t, k + 1) * Plane(c, k)))
      && EqWord(c, t, k) == (if bit then EqWord(c, t, k + 1) * Plane(c, k) else EqWord(c, t, k + 1) - Plane(c, k))
  {
    hide GtWord, EqWord, Plane, ConstColumn;
    CompareStep(c, ConstColumn(threshold), k);
    ConstPlane(threshold, k);
  }

  lemma {:induction false} StartEffect(c: Column, threshold: U64, s: State, code: Code)
    requires s.Run? && code == Start() && s.regs[0] == P(Field(0), 0)
    requires |s.fields| > 0 && |s.fields[0]| == 64 && forall b: nat :: b < 64 ==> s.fields[0][b] == Plane(c, b)
    ensures At(c, threshold, 64, Exec(code, s))
  {
    hide GtWord, EqWord, Plane, ConstColumn, Ones;
    ExecThree(Alu(ORR, GT, XZR, XZR), MovImm(EQUAL, W(Ones())), AddImm(WALKER, 0, 504), s);
    CompareStart(c, ConstColumn(threshold));
  }

  lemma {:induction false} BlockEffect(c: Column, threshold: U64, k: nat, s: State, code: Code)
    requires k < 64 && At(c, threshold, k + 1, s) && code == Then(LoadDown(), Join(NatBit(threshold, k)))
    ensures At(c, threshold, k, Exec(code, s))
  {
    hide GtWord, EqWord, Plane, ConstColumn, LoadDown, Join;
    LoadEffect(s, k + 1, code.first);
    var s1 := Exec(code.first, s);
    var t := ConstColumn(threshold);
    JoinEffect(s1, NatBit(threshold, k), GtWord(c, t, k + 1), EqWord(c, t, k + 1), Plane(c, k), code.second);
    ExecThen(code, s);
    ConstantStep(c, threshold, k);
  }

  lemma {:induction false} BlocksEffect(c: Column, threshold: U64, k: nat, s: State, code: Code)
    requires k <= 64 && s.Run? && code == DownTo(threshold, k) && s.regs[0] == P(Field(0), 0)
    requires |s.fields| > 0 && |s.fields[0]| == 64 && forall b: nat :: b < 64 ==> s.fields[0][b] == Plane(c, b)
    ensures At(c, threshold, k, Exec(code, s))
    decreases 64 - k
  {
    hide At, Plane, Start, LoadDown, Join;
    if k == 64 {
      StartEffect(c, threshold, s, code);
    } else {
      BlocksEffect(c, threshold, k + 1, s, code.first);
      BlockEffect(c, threshold, k, Exec(code.first, s), code.second);
      ExecThen(code, s);
    }
  }

  /** For every threshold, bit r of the returned mask says whether value r is above it. */
  lemma {:induction false} KernelCompares(c: Column, threshold: U64, s: State)
    requires s.Run? && s.regs[0] == P(Field(0), 0)
    requires |s.fields| > 0 && |s.fields[0]| == 64 && forall b: nat :: b < 64 ==> s.fields[0][b] == Plane(c, b)
    ensures
      var t := ExecStream(Stream(ThresholdCode(threshold)), s);
      && t.Run? && t.regs[0].W?
      && forall r: nat :: r < 64 ==> (r in t.regs[0].w <==> c[r] > threshold)
  {
    hide Plane, DownTo, GtWord, EqWord, ConstColumn;
    var code := ThresholdCode(threshold);
    ExecIsStream(code, s);
    BlocksEffect(c, threshold, 0, s, code.first);
    ExecThen(code, s);
    forall r: nat | r < 64
      ensures r in GtWord(c, ConstColumn(threshold), 0) <==> c[r] > threshold
    {
      CompareEnd(c, ConstColumn(threshold), r);
    }
  }

  // ----- the engine's single-field loop -----

  /** How many of the first n rows are above the threshold. */
  function Above(mem: Memory, stride: nat, offset: nat, threshold: U64, n: nat): nat {
    if n == 0 then 0
    else Above(mem, stride, offset, threshold, n - 1) + BitValue(mem((n - 1) * stride + offset) > threshold)
  }

  /** As a set of rows. */
  lemma {:induction false} AboveRows(mem: Memory, stride: nat, offset: nat, threshold: U64, n: nat)
    returns (rows: set<nat>)
    ensures Above(mem, stride, offset, threshold, n) == |rows|
    ensures forall g: nat :: g in rows <==> g < n && mem(g * stride + offset) > threshold
  {
    if n == 0 {
      rows := {};
    } else {
      rows := AboveRows(mem, stride, offset, threshold, n - 1);
      if mem((n - 1) * stride + offset) > threshold {
        assert n - 1 !in rows;
        rows := rows + {n - 1};
      }
    }
  }

  /** The columns of a gathered block: n values, then zeros. */
  function BlockColumnTo(mem: Memory, base: int, stride: nat, offset: nat, n: nat, k: nat): (c: seq<U64>)
    ensures |c| == k && forall r: nat :: r < k ==> c[r] == if r < n then mem(base + r * stride + offset) else 0
  {
    if k == 0 then []
    else
      var last := if k - 1 < n then mem(base + (k - 1) * stride + offset) else 0;
      BlockColumnTo(mem, base, stride, offset, n, k - 1) + [last]
  }

  function BlockColumn(mem: Memory, base: int, stride: nat, offset: nat, n: nat): (c: Column)
    ensures forall r: nat :: r < 64 ==> c[r] == if r < n then mem(base + r * stride + offset) else 0
  {
    BlockColumnTo(mem, base, stride, offset, n, 64)
  }

  /** Padding never matches: without a tail mask the whole word still counts the n rows. */
  lemma {:induction false} PaddingNeverMatches(w: Word, mem: Memory, stride: nat, offset: nat, threshold: U64,
      g: nat, n: nat, k: nat)
    requires n <= k <= 64
    requires forall r: nat :: r < 64 ==> (r in w <==> BlockColumn(mem, g * stride, stride, offset, n)[r] > threshold)
    ensures CountIn(w, k) == Above(mem, stride, offset, threshold, g + n) - Above(mem, stride, offset, threshold, g)
    decreases k
  {
    if k > n {
      PaddingNeverMatches(w, mem, stride, offset, threshold, g, n, k - 1);
    } else {
      CountPrefix(w, mem, stride, offset, threshold, g, n);
    }
  }

  lemma {:induction false} RowStart(g: nat, k: nat, stride: nat)
    ensures (g + k) * stride == g * stride + k * stride
  {
  }

  lemma {:induction false} AboveNext(mem: Memory, stride: nat, offset: nat, threshold: U64, n: nat)
    ensures Above(mem, stride, offset, threshold, n + 1) ==
      Above(mem, stride, offset, threshold, n) + BitValue(mem(n * stride + offset) > threshold)
  {
  }

  lemma {:induction false} CountPrefix(w: Word, mem: Memory, stride: nat, offset: nat, threshold: U64, g: nat, n: nat)
    requires n <= 64 && forall r: nat :: r < n ==> (r in w <==> mem(g * stride + r * stride + offset) > threshold)
    ensures CountIn(w, n) == Above(mem, stride, offset, threshold, g + n) - Above(mem, stride, offset, threshold, g)
  {
    hide Above;
    if n > 0 {
      CountPrefix(w, mem, stride, offset, threshold, g, n - 1);
      AboveNext(mem, stride, offset, threshold, g + (n - 1));
      RowStart(g, n - 1, stride);
    }
  }

  /** Gather one field of a block and slice it. */
  method SliceBlock(mem: Memory, base: int, stride: nat, offset: nat, n: nat, buf: Buffer) returns (planes: seq<Word>)
    requires buf.Length == 64 && n <= 64
    modifies buf
    ensures |planes| == 64 && forall b: nat :: b < 64 ==>
      planes[b] == Plane(BlockColumn(mem, base, stride, offset, n), b)
  {
    hide Plane, BlockColumn;
    GatherField(mem, base, stride, offset, n, buf);
    ghost var raw := buf[..];
    SliceN(buf, buf, 64);
    planes := buf[..];
    ZeroWord();
    forall b: nat | b < 64
      ensures planes[b] == Plane(BlockColumn(mem, base, stride, offset, n), b)
    {
      SlicedColumn(BlockColumn(mem, base, stride, offset, n), raw, b);
    }
  }

  lemma {:induction false} ZeroWord()
    ensures ToWord(0) == {}
  {
    forall b: nat | b < 64
      ensures !NatBit(0, b)
    {
      ZeroHasNoBits(b);
    }
  }

  /** The legacy path of execute: popcounts of unmasked words, chunk by chunk. */
  method ExecuteComparison(mem: Memory, stride: nat, offset: nat, rowCount: nat, threshold: U64, kernel: seq<Instr>,
      buf: Buffer)
    returns (total: U64)
    requires buf.Length == 64 && kernel == Stream(ThresholdCode(threshold))
    modifies buf
    ensures total == Wrap(Above(mem, stride, offset, threshold, rowCount))
  {
    hide ThresholdCode, BlockColumn, Above, Wrap;
    total := 0;
    NoRows(mem, stride, offset, threshold);
    var chunk := 0;
    ghost var done := 0;
    while chunk * 64 < rowCount
      invariant 0 <= chunk && done == if chunk * 64 < rowCount then chunk * 64 else rowCount
      invariant total == Wrap(Above(mem, stride, offset, threshold, done))
      decreases rowCount - done
    {
      var n := if rowCount - chunk * 64 < 64 then rowCount - chunk * 64 else 64;
      var mask := RunComparison(mem, stride, offset, chunk * 64, n, threshold, kernel, buf);
      WholeWord(mask, mem, stride, offset, threshold, chunk * 64, n);
      WrapAdd(Above(mem, stride, offset, threshold, done), |mask|);
      total := Wrap(total + |mask|);
      done := done + n;
      chunk := chunk + 1;
    }
  }

  lemma {:induction false} NoRows(mem: Memory, stride: nat, offset: nat, threshold: U64)
    ensures Wrap(Above(mem, stride, offset, threshold, 0)) == 0
  {
  }

  lemma {:induction false} WholeWord(w: Word, mem: Memory, stride: nat, offset: nat, threshold: U64, g: nat, n: nat)
    requires n <= 64 && forall r: nat :: r < 64 ==>
      (r in w <==> BlockColumn(mem, g * stride, stride, offset, n)[r] > threshold)
    ensures |w| == Above(mem, stride, offset, threshold, g + n) - Above(mem, stride, offset, threshold, g)
  {
    hide BlockColumn, Above, CountIn;
    PaddingNeverMatches(w, mem, stride, offset, threshold, g, n, 64);
    CountLanes(w, 64);
    assert w * LowLanes(64) == w;
  }

  method RunComparison(mem: Memory, stride: nat, offset: nat, g: nat, n: nat, threshold: U64, kernel: seq<Instr>,
      buf: Buffer)
    returns (mask: Word)
    requires buf.Length == 64 && n <= 64 && kernel == Stream(ThresholdCode(threshold))
    modifies buf
    ensures forall r: nat :: r < 64 ==> (r in mask <==> BlockColumn(mem, g * stride, stride, offset, n)[r] > threshold)
  {
    hide ThresholdCode, Plane, BlockColumn;
    var planes := SliceBlock(mem, g * stride, stride, offset, n, buf);
    var junk, flags := CallerRegisters();
    var s := Run(junk[0 := P(Field(0), 0)], flags, [planes], []);
    KernelCompares(BlockColumn(mem, g * stride, stride, offset, n), threshold, s);
    var out := ExecStream(kernel, s);
    mask := out.regs[0].w;
  }
}
