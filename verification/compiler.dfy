/**
 compile_expression (src/jit/compiler.cpp) from root node to kernel, and what the
 kernel it returns computes.
 */
module Compiler {
  import opened Words
  import opened Machine
  import opened Ir
  import opened Layout
  import opened Codegen
  import opened KernelCorrect
  import opened KernelTheorem

  datatype Option<T> = None | Some(value: T)

  /** A compiled expression: what the engine keeps of the nodes, and the code. */
  datatype Kernel = Kernel(plan: Plan, code: Code)

  const MAX_FIELDS: nat := 128

  ghost function MakePlan(p: Dag, root: nat, skip: set<nat>): Plan
    requires root < |p|
  {
    OrderIsTopological(p, root);
    var order := Order(p, root);
    Plan(p, order, skip, AllocAll(p, order), FieldNames(p, order))
  }

  /** No kernel when there are too many fields or the scratchpad is full. */
  ghost function Compile(p: Dag, root: nat, skip: set<nat>): Option<Kernel>
    requires root < |p|
  {
    OrderIsTopological(p, root);
    var u := MakePlan(p, root, skip);
    if |u.names| > MAX_FIELDS || u.a.Failed? then None
    else Some(Kernel(u, KernelCode(u, root)))
  }

  /** How many ADD and SUB nodes of an expression get code. */
  ghost function Adders(p: Dag, root: nat, skip: set<nat>): nat
    requires root < |p|
  {
    OrderIsTopological(p, root);
    CompiledAdders(p, Order(p, root), skip)
  }

  /** Node c has code or needs none. */
  predicate Usable(u: Plan, c: nat) {
    c in u.order && (c !in u.skip || (c < |u.p| && IsLeaf(u.p[c].op)))
  }

  lemma {:induction false} PlaneReady(u: Plan, n: nat, c: nat)
    requires n < |u.p| && PlaneOperand(u.p, n, c) && Usable(u, c)
    ensures PlaneRef(u, c)
  {
    assert WellTyped(u.p, c);
  }

  lemma {:induction false} MaskReady(u: Plan, n: nat, c: nat)
    requires n < |u.p| && MaskOperand(u.p, n, c) && Usable(u, c)
    ensures MaskRef(u, c)
  {
  }

  lemma {:induction false} WellTypedReady(u: Plan, n: nat)
    requires n < |u.p| && WellTyped(u.p, n)
    requires forall c :: c in Children(u.p[n].op) ==> Usable(u, c)
    ensures NodeReady(u, n)
  {
    hide Usable, PlaneRef, MaskRef, PlaneOperand, MaskOperand;
    var op := u.p[n].op;
    match op
    case Add(l, r) =>
      assert l in Children(op) && r in Children(op);
      PlaneReady(u, n, l);
      PlaneReady(u, n, r);
    case Sub(l, r) =>
      assert l in Children(op) && r in Children(op);
      PlaneReady(u, n, l);
      PlaneReady(u, n, r);
    case Compare(_, l, r) =>
      assert l in Children(op) && r in Children(op);
      PlaneReady(u, n, l);
      PlaneReady(u, n, r);
    case And(l, r) =>
      assert l in Children(op) && r in Children(op);
      MaskReady(u, n, l);
      MaskReady(u, n, r);
    case Or(l, r) =>
      assert l in Children(op) && r in Children(op);
      MaskReady(u, n, l);
      MaskReady(u, n, r);
    case Not(l) =>
      assert l in Children(op);
      MaskReady(u, n, l);
    case Select(c, l, r) =>
      assert l in Children(op) && r in Children(op) && c in Children(op);
      MaskReady(u, n, c);
      PlaneReady(u, n, l);
      PlaneReady(u, n, r);
    case _ =>
  }

  lemma {:induction false} OperandsListed(p: Dag, order: seq<nat>, n: nat)
    requires TopoOrder(p, order) && n in order
    ensures n < |p| && forall c :: c in Children(p[n].op) ==> c in order
  {
    var k :| 0 <= k < |order| && order[k] == n;
    forall c | c in Children(p[n].op)
      ensures c in order
    {
      assert c in order[..k];
    }
  }

  /** Compilation of a well-typed expression meets everything the kernel theorem asks of a plan. */
  lemma {:induction false} WellTypedPlan(p: Dag, root: nat)
    requires root < |p| && WellTyped(p, root)
    requires !MakePlan(p, root, {}).a.Failed?
    ensures PlanOk(MakePlan(p, root, {}))
    ensures CarriesOk(p, Order(p, root), MakePlan(p, root, {}).a)
  {
    OrderIsTopological(p, root);
    OrderWellTyped(p, root);
    var u := MakePlan(p, root, {});
    AllocAllSound(p, u.order);
    forall n | n in u.order && n !in u.skip
      ensures NodeReady(u, n)
    {
      OperandsListed(p, u.order, n);
      WellTypedReady(u, n);
    }
  }

  /** Every adder that gets code has a carry register exactly when six reach the last of them. */
  lemma {:induction false} CoveredExactly(p: Dag, root: nat, skip: set<nat>)
    requires root < |p| && !MakePlan(p, root, skip).a.Failed? && forall n :: n in Order(p, root) ==> n < |p|
    ensures CarriesCover(MakePlan(p, root, skip)) <==> CarriesNeeded(p, Order(p, root), skip) <= 6
  {
    hide AllocAll, CarriesNeeded;
    OrderIsTopological(p, root);
    AllocAllSound(p, Order(p, root));
    CarriesExactly(p, Order(p, root), skip);
  }

  lemma {:induction false} SixAddersCovered(p: Dag, root: nat)
    requires root < |p| && Adders(p, root, {}) <= 6 && !MakePlan(p, root, {}).a.Failed?
    ensures CarriesCover(MakePlan(p, root, {}))
  {
    hide AllocAll, CarriesNeeded, CompiledAdders;
    OrderIsTopological(p, root);
    AllCompiled(p, Order(p, root), {});
    CoveredExactly(p, root, {});
  }

  /**
   Compiler correctness, mask roots: bit r of the returned word is the truth of the
   expression on row r, whatever the scratchpad and the registers held before.
   */
  lemma {:induction false} CompiledMask(p: Dag, root: nat, k: Kernel, rows: Chunk, s: State)
    requires root < |p| && WellTyped(p, root) && IsMask(p[root].op) && Adders(p, root, {}) <= 6
    requires Compile(p, root, {}) == Some(k) && Entered(k.plan, rows, s)
    ensures Exec(k.code, s).Run? && Exec(k.code, s).regs[0].W?
    ensures forall r: nat :: r < 64 ==> (r in Exec(k.code, s).regs[0].w <==> Holds(p, root, rows[r], r == 0))
  {
    WellTypedPlan(p, root);
    SixAddersCovered(p, root);
    OrderIsTopological(p, root);
    MaskKernel(k.plan, root, rows, s, k.code);
  }

  /** Compiler correctness, plane roots: slots 0 .. 63 hold the bit-planes of the 64 row values. */
  lemma {:induction false} CompiledPlanes(p: Dag, root: nat, k: Kernel, rows: Chunk, s: State)
    requires root < |p| && WellTyped(p, root) && !IsMask(p[root].op) && !IsLeaf(p[root].op) && Adders(p, root, {}) <= 6
    requires Compile(p, root, {}) == Some(k) && Entered(k.plan, rows, s)
    ensures Exec(k.code, s).Run? && |Exec(k.code, s).scratch| == |s.scratch|
    ensures forall b: nat, r: nat :: b < 64 && r < 64 ==>
      (r in Exec(k.code, s).scratch[b] <==> NatBit(Value(p, root, rows[r], r == 0), b))
  {
    WellTypedPlan(p, root);
    SixAddersCovered(p, root);
    OrderIsTopological(p, root);
    PlaneKernel(k.plan, root, rows, s, k.code);
    forall b: nat, r: nat | b < 64 && r < 64
      ensures r in Exec(k.code, s).scratch[b] <==> NatBit(Value(p, root, rows[r], r == 0), b)
    {
      assert Exec(k.code, s).scratch[0 + b] == Plane(Col(p, root, rows), b);
    }
  }

  /** Without SUB every lane has the promised meaning. */
  lemma {:induction false} CompiledMaskExact(p: Dag, root: nat, k: Kernel, rows: Chunk, s: State)
    requires root < |p| && WellTyped(p, root) && IsMask(p[root].op) && Adders(p, root, {}) <= 6 && SubFree(p, root)
    requires Compile(p, root, {}) == Some(k) && Entered(k.plan, rows, s)
    ensures Exec(k.code, s).Run? && Exec(k.code, s).regs[0].W?
    ensures forall r: nat :: r < 64 ==> (r in Exec(k.code, s).regs[0].w <==> Holds(p, root, rows[r], true))
  {
    CompiledMask(p, root, k, rows, s);
    forall r: nat | r < 64
      ensures r in Exec(k.code, s).regs[0].w <==> Holds(p, root, rows[r], true)
    {
      SubFreeIsExact(p, root, rows[r]);
    }
  }

  // ----- one operator over fields, in plain arithmetic -----

  /** Nothing but the root and what is listed below it. */
  lemma {:induction false} OnlyListed(p: Dag, root: nat, s: set<nat>)
    requires root < |p| && root in s && ClosedSet(p, s)
    ensures forall n :: n in Order(p, root) ==> n in s && n < |p|
  {
    OrderIsTopological(p, root);
    OrderIsReachable(p, root, s);
  }

  lemma {:induction false} OneAdderAtMost(p: Dag, root: nat, s: set<nat>)
    requires root < |p| && root in s && ClosedSet(p, s)
    requires forall n :: n in s && n < |p| && n != root ==> !p[n].op.Add? && !p[n].op.Sub?
    ensures Adders(p, root, {}) <= 1
  {
    OrderIsTopological(p, root);
    OnlyListed(p, root, s);
    var adders := AddersCounted(p, Order(p, root), {});
    if adders != {} {
      assert adders == {root};
    }
  }

  /** For a comparison of two fields bit r of the kernel's result compares the two values of row r. */
  lemma {:induction false} CompiledComparison(p: Dag, root: nat, l: nat, r: nat, f: string, g: string, k: Kernel,
      rows: Chunk, s: State)
    requires root < |p| && l < root && r < root && p[l].op == Load(f) && p[r].op == Load(g)
    requires p[root].op.Compare? && p[root].op.left == l && p[root].op.right == r
    requires Compile(p, root, {}) == Some(k) && Entered(k.plan, rows, s)
    ensures Exec(k.code, s).Run? && Exec(k.code, s).regs[0].W?
    ensures
      var w := Exec(k.code, s).regs[0].w;
      && (p[root].op.cmp == GT ==> forall i: nat :: i < 64 ==> (i in w <==> rows[i](f) > rows[i](g)))
      && (p[root].op.cmp == LT ==> forall i: nat :: i < 64 ==> (i in w <==> rows[i](f) < rows[i](g)))
      && (p[root].op.cmp == GE ==> forall i: nat :: i < 64 ==> (i in w <==> rows[i](f) >= rows[i](g)))
      && (p[root].op.cmp == LE ==> forall i: nat :: i < 64 ==> (i in w <==> rows[i](f) <= rows[i](g)))
      && (p[root].op.cmp == EQ ==> forall i: nat :: i < 64 ==> (i in w <==> rows[i](f) == rows[i](g)))
  {
    FieldComparison(p, root, l, r);
    hide Compile, Entered, Holds, Value, WellTyped, Adders;
    CompiledMask(p, root, k, rows, s);
    forall i: nat | i < 64
      ensures ComparesAs(p[root].op.cmp, Holds(p, root, rows[i], i == 0), rows[i](f), rows[i](g))
    {
      ComparisonMeaning(p, root, l, r, rows[i], i == 0);
      NumberMeaning(p, l, rows[i], i == 0);
      NumberMeaning(p, r, rows[i], i == 0);
    }
  }

  ghost predicate ComparesAs(cmp: CompareOp, holds: bool, a: nat, b: nat) {
    match cmp
    case GT => holds <==> a > b
    case LT => holds <==> a < b
    case GE => holds <==> a >= b
    case LE => holds <==> a <= b
    case EQ => holds <==> a == b
  }

  lemma {:induction false} FieldComparison(p: Dag, root: nat, l: nat, r: nat)
    requires root < |p| && l < root && r < root && p[l].op.Load? && p[r].op.Load?
    requires p[root].op.Compare? && p[root].op.left == l && p[root].op.right == r
    ensures WellTyped(p, root) && IsMask(p[root].op) && Adders(p, root, {}) <= 6
  {
    assert WellTyped(p, l) && WellTyped(p, r);
    OneAdderAtMost(p, root, {l, r, root});
  }

  /** For a sum or a difference of two fields lane i of plane b is bit b of that number on row i. */
  lemma {:induction false} CompiledArithmetic(p: Dag, root: nat, l: nat, r: nat, f: string, g: string, k: Kernel,
      rows: Chunk, s: State, b: nat, i: nat)
    requires root < |p| && l < root && r < root && p[l].op == Load(f) && p[r].op == Load(g)
    requires p[root].op == Add(l, r) || p[root].op == Sub(l, r)
    requires Compile(p, root, {}) == Some(k) && Entered(k.plan, rows, s) && b < 64 && i < 64
    ensures Exec(k.code, s).Run? && |Exec(k.code, s).scratch| == |s.scratch|
    ensures
      var bit := i in Exec(k.code, s).scratch[b];
      && (p[root].op == Add(l, r) ==> (bit <==> NatBit((rows[i](f) + rows[i](g)) % 0x1_0000_0000_0000_0000, b)))
      && (p[root].op == Sub(l, r) && i == 0 ==>
            (bit <==> NatBit((rows[i](f) - rows[i](g)) % 0x1_0000_0000_0000_0000, b)))
      && (p[root].op == Sub(l, r) && i > 0 ==>
            (bit <==> NatBit((rows[i](f) - rows[i](g) - 1) % 0x1_0000_0000_0000_0000, b)))
  {
    FieldArithmetic(p, root, l, r);
    hide Compile, Entered, Holds, Value, WellTyped, Adders, NatBit;
    CompiledPlanes(p, root, k, rows, s);
    NumberMeaning(p, root, rows[i], i == 0);
    NumberMeaning(p, l, rows[i], i == 0);
    NumberMeaning(p, r, rows[i], i == 0);
  }

  lemma {:induction false} FieldArithmetic(p: Dag, root: nat, l: nat, r: nat)
    requires root < |p| && l < root && r < root && p[l].op.Load? && p[r].op.Load?
    requires p[root].op == Add(l, r) || p[root].op == Sub(l, r)
    ensures WellTyped(p, root) && !IsMask(p[root].op) && !IsLeaf(p[root].op) && Adders(p, root, {}) <= 6
  {
    hide Adders;
    assert WellTyped(p, l) && WellTyped(p, r);
    OneAdderAtMost(p, root, {l, r, root});
  }

  /** SELECT(l > r, l, r) over two fields is their maximum: a condition that holds picks the left operand. */
  lemma {:induction false} CompiledMaximum(p: Dag, root: nat, c: nat, l: nat, r: nat, f: string, g: string, k: Kernel,
      rows: Chunk, s: State, b: nat, i: nat)
    requires root < |p| && c < root && l < c && r < c && p[l].op == Load(f) && p[r].op == Load(g)
    requires p[root].op == Select(c, l, r) && p[c].op == Compare(GT, l, r)
    requires Compile(p, root, {}) == Some(k) && Entered(k.plan, rows, s) && b < 64 && i < 64
    ensures Exec(k.code, s).Run? && |Exec(k.code, s).scratch| == |s.scratch|
    ensures i in Exec(k.code, s).scratch[b] <==>
      NatBit(if rows[i](f) > rows[i](g) then rows[i](f) else rows[i](g), b)
  {
    FieldMaximum(p, root, c, l, r);
    hide Compile, Entered, Holds, Value, WellTyped, Adders, NatBit;
    CompiledPlanes(p, root, k, rows, s);
    NumberMeaning(p, root, rows[i], i == 0);
    NumberMeaning(p, l, rows[i], i == 0);
    NumberMeaning(p, r, rows[i], i == 0);
    ComparisonMeaning(p, c, l, r, rows[i], i == 0);
  }

  lemma {:induction false} FieldMaximum(p: Dag, root: nat, c: nat, l: nat, r: nat)
    requires root < |p| && c < root && l < c && r < c && p[l].op.Load? && p[r].op.Load?
    requires p[root].op == Select(c, l, r) && p[c].op == Compare(GT, l, r)
    ensures WellTyped(p, root) && !IsMask(p[root].op) && !IsLeaf(p[root].op) && Adders(p, root, {}) <= 6
  {
    hide Adders;
    assert WellTyped(p, l) && WellTyped(p, r) && WellTyped(p, c);
    OneAdderAtMost(p, root, {l, r, c, root});
  }

  /** There is no kernel exactly when more than 128 fields are loaded or an operator finds no room. */
  lemma {:induction false} NoKernelExactly(p: Dag, root: nat, skip: set<nat>)
    requires root < |p| && forall n :: n in Order(p, root) ==> n < |p|
    ensures Compile(p, root, skip).None? <==>
      |FieldNames(p, Order(p, root))| > 128 || AllocAll(p, Order(p, root)).Failed?
  {
    hide AllocAll, FieldNames, Order;
  }

  // ----- more than six adders -----

  lemma {:induction false} UndefinedReached(u: Plan, k: nat, j: nat, s: State)
    requires InPool(u) && j < k <= |u.order|
    requires u.order[j] !in u.skip && IsAdder(u.p[u.order[j]].op) && !HasCarry(u, u.order[j])
    ensures Exec(EmitPrefix(u, k).code, s) == Fault
    decreases k
  {
    var prev := EmitPrefix(u, k - 1);
    var n := EmitNode(u, u.order[k - 1], prev.cache);
    if j == k - 1 {
      assert n.code == I(Undefined);
    } else {
      UndefinedReached(u, k - 1, j, s);
      ExecFault(n.code);
    }
  }

  lemma {:induction false} UncoveredFaults(u: Plan, root: nat, s: State, code: Code)
    requires InPool(u) && root < |u.p| && !CarriesCover(u) && code == KernelCode(u, root)
    ensures Exec(code, s) == Fault
  {
    var n :| n in u.order && n < |u.p| && n !in u.skip && IsAdder(u.p[n].op) && !HasCarry(u, n);
    var j :| 0 <= j < |u.order| && u.order[j] == n;
    var s1 := Exec(code.first, s);
    UndefinedReached(u, |u.order|, j, s1);
    ExecThen(code.second, s1);
    ExecThen(code, s);
    ExecFault(code.second.second);
  }

  /**
   For any sharing and any skipped nodes: the kernel is defined exactly when at most six ADD and SUB nodes are
   listed up to the last one that gets code.
   */
  lemma {:induction false} DefinedExactly(p: Dag, root: nat, skip: set<nat>, k: Kernel, rows: Chunk, s: State)
    requires root < |p| && Compile(p, root, skip) == Some(k) && Entered(k.plan, rows, s)
    requires PlanOk(k.plan) && (root in skip || !IsLeaf(p[root].op)) && forall n :: n in Order(p, root) ==> n < |p|
    ensures Exec(k.code, s).Run? <==> CarriesNeeded(p, Order(p, root), skip) <= 6
  {
    OrderIsTopological(p, root);
    CoveredExactly(p, root, skip);
    hide PlanOk, KernelCode, CarriesCover, Entered, CarriesNeeded, AllocAll;
    if !CarriesCover(k.plan) {
      UncoveredFaults(k.plan, root, s, k.code);
    } else if root in skip {
      SkippedKernel(k.plan, root, rows, s, k.code);
    } else if IsMask(p[root].op) {
      MaskKernel(k.plan, root, rows, s, k.code);
    } else {
      PlaneKernel(k.plan, root, rows, s, k.code);
    }
  }

  /** The kernel of a well-typed expression is defined exactly when it has no more than six ADD and SUB nodes. */
  lemma {:induction false} SixAddersExactly(p: Dag, root: nat, k: Kernel, rows: Chunk, s: State)
    requires root < |p| && WellTyped(p, root) && !IsLeaf(p[root].op)
    requires Compile(p, root, {}) == Some(k) && Entered(k.plan, rows, s)
    ensures Exec(k.code, s).Run? <==> Adders(p, root, {}) <= 6
  {
    hide PlanOk, Entered, CarriesNeeded, CompiledAdders, KernelCode;
    WellTypedPlan(p, root);
    OrderIsTopological(p, root);
    AllCompiled(p, Order(p, root), {});
    DefinedExactly(p, root, {}, k, rows, s);
  }
}
