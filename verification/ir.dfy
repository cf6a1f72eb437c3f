/**
 The expression graph (include/apex/jit/ir.hpp, built by src/jit/jit.cpp), its
 row-wise meaning, and the post-order in which the compiler visits it.
 */
module Ir {
  import opened Words

  datatype CompareOp = GT | LT | GE | LE | EQ

  /** Node operands are indices into the node pool. */
  datatype Op =
    | Load(field: string)
    | Const(value: int)
    | Add(left: nat, right: nat)
    | Sub(left: nat, right: nat)
    | Compare(cmp: CompareOp, left: nat, right: nat)
    | And(left: nat, right: nat)
    | Or(left: nat, right: nat)
    | Not(left: nat)
    | Select(cond: nat, left: nat, right: nat)
    | Sum(operands: seq<nat>)
    // MUL, POPCNT, LSL, LSR and INFERENCE_COUNT: given a slot, but no code.
    | Inert(operands: seq<nat>)

  /** `weight` is read only for operands of a SUM. */
  datatype Node = Node(op: Op, weight: int)

  /** Operands in the order the analyzer visits them: left, right, cond, operands. */
  function Children(op: Op): seq<nat> {
    match op
    case Load(_) => []
    case Const(_) => []
    case Add(l, r) => [l, r]
    case Sub(l, r) => [l, r]
    case Compare(_, l, r) => [l, r]
    case And(l, r) => [l, r]
    case Or(l, r) => [l, r]
    case Not(l) => [l]
    case Select(c, l, r) => [l, r, c]
    case Sum(ops) => ops
    case Inert(ops) => ops
  }

  predicate Built(p: seq<Node>) {
    forall i, c :: 0 <= i < |p| && c in Children(p[i].op) ==> c < i
  }

  /** A builder takes its operands as finished nodes, so they stand earlier in the pool. */
  type Dag = p: seq<Node> | Built(p)

  /** Nodes whose result is one mask word; all others are 64 bit-planes. */
  predicate IsMask(op: Op) {
    op.Compare? || op.And? || op.Or? || op.Not?
  }

  predicate IsLeaf(op: Op) {
    op.Load? || op.Const?
  }

  /** Planes where planes are read, masks where masks are read, and only nodes that emit code. */
  predicate WellTyped(p: Dag, i: nat)
    requires i < |p|
    decreases i
  {
    match p[i].op
    case Load(_) => true
    case Const(_) => true
    case Add(l, r) => PlaneOperand(p, i, l) && PlaneOperand(p, i, r)
    case Sub(l, r) => PlaneOperand(p, i, l) && PlaneOperand(p, i, r)
    case Compare(_, l, r) => PlaneOperand(p, i, l) && PlaneOperand(p, i, r)
    case And(l, r) => MaskOperand(p, i, l) && MaskOperand(p, i, r)
    case Or(l, r) => MaskOperand(p, i, l) && MaskOperand(p, i, r)
    case Not(l) => MaskOperand(p, i, l)
    case Select(c, l, r) => MaskOperand(p, i, c) && PlaneOperand(p, i, l) && PlaneOperand(p, i, r)
    case Sum(_) => false
    case Inert(_) => false
  }

  predicate PlaneOperand(p: Dag, i: nat, c: nat)
    requires i < |p|
    decreases i, 0
  {
    c < i && !IsMask(p[c].op) && WellTyped(p, c)
  }

  predicate MaskOperand(p: Dag, i: nat, c: nat)
    requires i < |p|
    decreases i, 0
  {
    c < i && IsMask(p[c].op) && WellTyped(p, c)
  }

  // ----- meaning of an expression on one row -----

  type Row = string -> U64

  predicate Compares(cmp: CompareOp, a: nat, b: nat) {
    match cmp
    case GT => a > b
    case LT => a < b
    case GE => a >= b
    case LE => a <= b
    case EQ => a == b
  }

  /**
   The unsigned 64-bit value of a plane node on a row. With `exact` this is the
   meaning the builder promises; without it every SUB comes out one too small,
   which is what a lane whose borrow seed is 0 computes.
   */
  function Value(p: Dag, i: nat, row: Row, exact: bool): U64
    requires i < |p|
    decreases i
  {
    match p[i].op
    case Load(f) => row(f)
    case Const(v) => Wrap(v)
    case Add(l, r) =>
      assert l in Children(p[i].op) && r in Children(p[i].op);
      Wrap(Value(p, l, row, exact) + Value(p, r, row, exact))
    case Sub(l, r) =>
      assert l in Children(p[i].op) && r in Children(p[i].op);
      Wrap(Value(p, l, row, exact) - Value(p, r, row, exact) - if exact then 0 else 1)
    case Select(c, l, r) =>
      assert l in Children(p[i].op) && r in Children(p[i].op) && c in Children(p[i].op);
      if Holds(p, c, row, exact) then Value(p, l, row, exact) else Value(p, r, row, exact)
    case _ => 0
  }

  predicate Holds(p: Dag, i: nat, row: Row, exact: bool)
    requires i < |p|
    decreases i
  {
    match p[i].op
    case Compare(cmp, l, r) =>
      assert l in Children(p[i].op) && r in Children(p[i].op);
      Compares(cmp, Value(p, l, row, exact), Value(p, r, row, exact))
    case And(l, r) =>
      assert l in Children(p[i].op) && r in Children(p[i].op);
      Holds(p, l, row, exact) && Holds(p, r, row, exact)
    case Or(l, r) =>
      assert l in Children(p[i].op) && r in Children(p[i].op);
      Holds(p, l, row, exact) || Holds(p, r, row, exact)
    case Not(l) =>
      assert l in Children(p[i].op);
      !Holds(p, l, row, exact)
    case _ => false
  }

  /** The meaning of every kind of node in plain arithmetic; without `exact` a SUB is one too small. */
  lemma {:induction false} NumberMeaning(p: Dag, i: nat, row: Row, exact: bool)
    requires i < |p|
    ensures p[i].op.Load? ==> Value(p, i, row, exact) == row(p[i].op.field)
    ensures p[i].op.Const? ==> Value(p, i, row, exact) == p[i].op.value % 0x1_0000_0000_0000_0000
    ensures p[i].op.Add? ==>
      && p[i].op.left < i && p[i].op.right < i
      && Value(p, i, row, exact) ==
           (Value(p, p[i].op.left, row, exact) + Value(p, p[i].op.right, row, exact)) % 0x1_0000_0000_0000_0000
    ensures p[i].op.Sub? ==>
      && p[i].op.left < i && p[i].op.right < i
      && Value(p, i, row, exact) ==
           (Value(p, p[i].op.left, row, exact) - Value(p, p[i].op.right, row, exact) - (if exact then 0 else 1))
           % 0x1_0000_0000_0000_0000
    ensures p[i].op.Select? ==>
      && p[i].op.cond < i && p[i].op.left < i && p[i].op.right < i
      && Value(p, i, row, exact) ==
           if Holds(p, p[i].op.cond, row, exact) then Value(p, p[i].op.left, row, exact)
           else Value(p, p[i].op.right, row, exact)
  {
    hide Wrap;
    var op := p[i].op;
    match op
    case Const(v) => WrapIsMod(v);
    case Add(l, r) =>
      assert l in Children(op) && r in Children(op);
      WrapIsMod(Value(p, l, row, exact) + Value(p, r, row, exact));
    case Sub(l, r) =>
      assert l in Children(op) && r in Children(op);
      WrapIsMod(Value(p, l, row, exact) - Value(p, r, row, exact) - if exact then 0 else 1);
    case Select(c, l, r) =>
      assert c in Children(op) && l in Children(op) && r in Children(op);
    case _ =>
  }

  lemma {:induction false} ComparisonMeaning(p: Dag, i: nat, l: nat, r: nat, row: Row, exact: bool)
    requires i < |p| && l < i && r < i
    ensures p[i].op == Compare(GT, l, r) ==>
      (Holds(p, i, row, exact) <==> Value(p, l, row, exact) > Value(p, r, row, exact))
    ensures p[i].op == Compare(LT, l, r) ==>
      (Holds(p, i, row, exact) <==> Value(p, l, row, exact) < Value(p, r, row, exact))
    ensures p[i].op == Compare(GE, l, r) ==>
      (Holds(p, i, row, exact) <==> Value(p, l, row, exact) >= Value(p, r, row, exact))
    ensures p[i].op == Compare(LE, l, r) ==>
      (Holds(p, i, row, exact) <==> Value(p, l, row, exact) <= Value(p, r, row, exact))
    ensures p[i].op == Compare(EQ, l, r) ==>
      (Holds(p, i, row, exact) <==> Value(p, l, row, exact) == Value(p, r, row, exact))
  {
    hide Value;
  }

  lemma {:induction false} LogicMeaning(p: Dag, i: nat, l: nat, r: nat, row: Row, exact: bool)
    requires i < |p| && l < i && r < i
    ensures p[i].op == And(l, r) ==> (Holds(p, i, row, exact) <==> Holds(p, l, row, exact) && Holds(p, r, row, exact))
    ensures p[i].op == Or(l, r) ==> (Holds(p, i, row, exact) <==> Holds(p, l, row, exact) || Holds(p, r, row, exact))
    ensures p[i].op == Not(l) ==> (Holds(p, i, row, exact) <==> !Holds(p, l, row, exact))
  {
  }

  /** Every pool in which numbers stand where numbers are read and masks where masks are read is well typed. */
  lemma {:induction false} KindsAreEnough(p: Dag, i: nat)
    requires i < |p|
    requires forall n :: 0 <= n <= i ==> !p[n].op.Sum? && !p[n].op.Inert?
    requires forall n :: 0 <= n <= i && (p[n].op.Add? || p[n].op.Sub? || p[n].op.Compare? || p[n].op.Select?) ==>
      var l, r := p[n].op.left, p[n].op.right;
      && l < |p| && !(p[l].op.Compare? || p[l].op.And? || p[l].op.Or? || p[l].op.Not?)
      && r < |p| && !(p[r].op.Compare? || p[r].op.And? || p[r].op.Or? || p[r].op.Not?)
    requires forall n :: 0 <= n <= i && (p[n].op.And? || p[n].op.Or?) ==>
      var l, r := p[n].op.left, p[n].op.right;
      && l < |p| && (p[l].op.Compare? || p[l].op.And? || p[l].op.Or? || p[l].op.Not?)
      && r < |p| && (p[r].op.Compare? || p[r].op.And? || p[r].op.Or? || p[r].op.Not?)
    requires forall n :: 0 <= n <= i && p[n].op.Not? ==>
      var l := p[n].op.left;
      l < |p| && (p[l].op.Compare? || p[l].op.And? || p[l].op.Or? || p[l].op.Not?)
    requires forall n :: 0 <= n <= i && p[n].op.Select? ==>
      var c := p[n].op.cond;
      c < |p| && (p[c].op.Compare? || p[c].op.And? || p[c].op.Or? || p[c].op.Not?)
    ensures WellTyped(p, i)
    decreases i
  {
    var op := p[i].op;
    forall c | c in Children(op)
      ensures c < i && WellTyped(p, c)
    {
      KindsAreEnough(p, c);
    }
    match op
    case Add(l, r) => assert l in Children(op) && r in Children(op);
    case Sub(l, r) => assert l in Children(op) && r in Children(op);
    case Compare(_, l, r) => assert l in Children(op) && r in Children(op);
    case And(l, r) => assert l in Children(op) && r in Children(op);
    case Or(l, r) => assert l in Children(op) && r in Children(op);
    case Not(l) => assert l in Children(op);
    case Select(c, l, r) => assert c in Children(op) && l in Children(op) && r in Children(op);
    case _ =>
  }

  /** No SUB node can be reached from i. */
  predicate SubFree(p: Dag, i: nat)
    requires i < |p|
    decreases i
  {
    !p[i].op.Sub? && forall c | c in Children(p[i].op) :: SubFree(p, c)
  }

  lemma {:induction false} NoSubBelow(p: Dag, i: nat)
    requires i < |p| && forall n :: 0 <= n <= i ==> !p[n].op.Sub?
    ensures SubFree(p, i)
    decreases i
  {
    forall c | c in Children(p[i].op)
      ensures c < i && SubFree(p, c)
    {
      NoSubBelow(p, c);
    }
  }

  lemma {:induction false} SubFreeIsExact(p: Dag, i: nat, row: Row)
    requires i < |p| && SubFree(p, i)
    ensures Value(p, i, row, false) == Value(p, i, row, true)
    ensures Holds(p, i, row, false) == Holds(p, i, row, true)
    decreases i
  {
    forall c | c in Children(p[i].op)
      ensures c < i
      ensures Value(p, c, row, false) == Value(p, c, row, true)
      ensures Holds(p, c, row, false) == Holds(p, c, row, true)
    {
      SubFreeIsExact(p, c, row);
    }
    match p[i].op
    case Select(c, l, r) =>
      assert l in Children(p[i].op) && r in Children(p[i].op) && c in Children(p[i].op);
    case Compare(_, l, r) =>
      assert l in Children(p[i].op) && r in Children(p[i].op);
    case Add(l, r) =>
      assert l in Children(p[i].op) && r in Children(p[i].op);
    case And(l, r) =>
      assert l in Children(p[i].op) && r in Children(p[i].op);
    case Or(l, r) =>
      assert l in Children(p[i].op) && r in Children(p[i].op);
    case Not(l) =>
      assert l in Children(p[i].op);
    case _ =>
  }

  /**
   A SUB is the difference of its operands exactly on the lanes whose borrow seed is 1, and one less on all
   others. Over SUB-free operands that difference is the one the builder promises.
   */
  lemma {:induction false} SubLaw(p: Dag, i: nat, l: nat, r: nat, row: Row, exact: bool)
    requires i < |p| && p[i].op == Sub(l, r) && l < i && r < i
    ensures
      var difference := Wrap(Value(p, l, row, exact) - Value(p, r, row, exact));
      && (Value(p, i, row, exact) == difference <==> exact)
      && (!exact ==> Value(p, i, row, exact) == Wrap(difference - 1))
      && (SubFree(p, l) && SubFree(p, r) ==> difference == Wrap(Value(p, l, row, true) - Value(p, r, row, true)))
  {
    if SubFree(p, l) && SubFree(p, r) {
      SubFreeIsExact(p, l, row);
      SubFreeIsExact(p, r, row);
    }
    WrapMinusOne(Value(p, l, row, exact) - Value(p, r, row, exact));
  }

  lemma {:induction false} WrapMinusOne(n: int)
    requires 0 - TWO64 < n < TWO64
    ensures Wrap(n - 1) != Wrap(n) && Wrap(n - 1) == Wrap(Wrap(n) - 1)
  {
    if n < 0 {
      assert Wrap(n) == n + TWO64;
    }
  }

  // ----- the analyzer's post-order -----

  ghost predicate Below(s: seq<nat>, n: nat) {
    forall c :: c in s ==> c < n
  }

  lemma {:induction false} BelowPrefix(s: seq<nat>, k: nat, n: nat)
    requires Below(s, n) && k <= |s|
    ensures Below(s[..k], n)
  {
    assert forall c :: c in s[..k] ==> c in s;
  }

  /** The post-order after visiting node i, when `order` has been visited already. */
  function Visit(p: Dag, i: nat, order: seq<nat>): seq<nat>
    requires i < |p|
    decreases i, 1, 0
  {
    if i in order then order
    else VisitAll(p, Children(p[i].op), i, order) + [i]
  }

  function VisitAll(p: Dag, kids: seq<nat>, bound: nat, order: seq<nat>): seq<nat>
    requires bound <= |p| && Below(kids, bound)
    decreases bound, 0, |kids|
  {
    if kids == [] then order
    else
      var front := kids[..|kids| - 1];
      assert (forall c :: c in front ==> c in kids) && kids[|kids| - 1] in kids;
      Visit(p, kids[|kids| - 1], VisitAll(p, front, bound, order))
  }

  predicate NoDuplicates(s: seq<nat>) {
    forall i, j :: 0 <= i < j < |s| ==> s[i] != s[j]
  }

  /** Every node is listed once, after all its operands. */
  ghost predicate TopoOrder(p: Dag, order: seq<nat>) {
    && NoDuplicates(order)
    && (forall k :: 0 <= k < |order| ==> order[k] < |p|)
    && (forall k, c :: 0 <= k < |order| && order[k] < |p| && c in Children(p[order[k]].op) ==> c in order[..k])
  }

  lemma {:induction false} TopoOrderSnoc(p: Dag, order: seq<nat>, i: nat)
    requires TopoOrder(p, order) && i < |p| && i !in order
    requires forall c :: c in Children(p[i].op) ==> c in order
    ensures TopoOrder(p, order + [i])
  {
    var o := order + [i];
    forall k, c | 0 <= k < |o| && o[k] < |p| && c in Children(p[o[k]].op)
      ensures c in o[..k]
    {
      assert o[..k] == order[..k];
      if k == |order| {
        assert order[..k] == order;
      }
    }
  }

  lemma {:induction false} VisitOrders(p: Dag, i: nat, order: seq<nat>)
    requires i < |p| && TopoOrder(p, order)
    ensures
      var o := Visit(p, i, order);
      && TopoOrder(p, o) && order <= o && i in o
      && (forall n :: n in o && n !in order ==> n <= i)
    decreases i, 1, 0
  {
    if i !in order {
      VisitAllOrders(p, Children(p[i].op), i, order);
      TopoOrderSnoc(p, VisitAll(p, Children(p[i].op), i, order), i);
    }
  }

  lemma {:induction false} VisitAllOrders(p: Dag, kids: seq<nat>, bound: nat, order: seq<nat>)
    requires bound <= |p| && Below(kids, bound) && TopoOrder(p, order)
    ensures
      var o := VisitAll(p, kids, bound, order);
      && TopoOrder(p, o) && order <= o
      && (forall c :: c in kids ==> c in o)
      && (forall n :: n in o && n !in order ==> n < bound)
    decreases bound, 0, |kids|
  {
    if kids != [] {
      var front, last := kids[..|kids| - 1], kids[|kids| - 1];
      assert (forall c :: c in front ==> c in kids) && last in kids;
      VisitAllOrders(p, front, bound, order);
      VisitOrders(p, last, VisitAll(p, front, bound, order));
      assert kids == front + [last];
    }
  }

  lemma {:induction false} VisitOne(p: Dag, c: nat, bound: nat, order: seq<nat>)
    requires bound <= |p| && c < bound
    ensures VisitAll(p, [c], bound, order) == Visit(p, c, order)
  {
    assert [c][..0] == [];
  }

  lemma {:induction false} VisitSnoc(p: Dag, kids: seq<nat>, c: nat, bound: nat, order: seq<nat>)
    requires bound <= |p| && Below(kids + [c], bound) && Below(kids, bound) && c < bound
    ensures VisitAll(p, kids + [c], bound, order) == Visit(p, c, VisitAll(p, kids, bound, order))
  {
    assert (kids + [c])[..|kids|] == kids;
  }

  /** Operands are visited left, right, condition; then the node is appended. */
  lemma {:induction false} VisitOperands(p: Dag, i: nat, order: seq<nat>)
    requires i < |p| && i !in order
    ensures p[i].op.Load? || p[i].op.Const? ==> Visit(p, i, order) == order + [i]
    ensures p[i].op.Not? ==> p[i].op.left < i && Visit(p, i, order) == Visit(p, p[i].op.left, order) + [i]
    ensures p[i].op.Add? || p[i].op.Sub? || p[i].op.Compare? || p[i].op.And? || p[i].op.Or? ==>
      && p[i].op.left < i && p[i].op.right < i
      && Visit(p, i, order) == Visit(p, p[i].op.right, Visit(p, p[i].op.left, order)) + [i]
    ensures p[i].op.Select? ==>
      && p[i].op.left < i && p[i].op.right < i && p[i].op.cond < i
      && Visit(p, i, order) ==
           Visit(p, p[i].op.cond, Visit(p, p[i].op.right, Visit(p, p[i].op.left, order))) + [i]
  {
    var op := p[i].op;
    var kids := Children(op);
    assert Visit(p, i, order) == VisitAll(p, kids, i, order) + [i];
    hide Visit, VisitAll;
    if IsLeaf(op) {
      VisitNone(p, i, order);
    } else if !op.Sum? && !op.Inert? {
      assert op.left in kids;
      VisitOne(p, op.left, i, order);
      if !op.Not? {
        assert op.right in kids && [op.left] + [op.right] == [op.left, op.right];
        VisitSnoc(p, [op.left], op.right, i, order);
        if op.Select? {
          assert op.cond in kids && [op.left, op.right] + [op.cond] == kids;
          VisitSnoc(p, [op.left, op.right], op.cond, i, order);
        }
      }
    }
  }

  lemma {:induction false} VisitNone(p: Dag, bound: nat, order: seq<nat>)
    requires bound <= |p|
    ensures VisitAll(p, [], bound, order) == order
  {
  }

  /** The compilation order of an expression. */
  function Order(p: Dag, root: nat): seq<nat>
    requires root < |p|
  {
    Visit(p, root, [])
  }

  /** Compilation lists the root last and everything else after its operands. */
  lemma {:induction false} OrderIsTopological(p: Dag, root: nat)
    requires root < |p|
    ensures TopoOrder(p, Order(p, root))
    ensures Order(p, root) != [] && Order(p, root)[|Order(p, root)| - 1] == root
  {
    VisitOrders(p, root, []);
  }

  /** The list has no node twice, and every operand of a node stands before it. */
  lemma {:induction false} OperandsFirst(p: Dag, root: nat, j: nat, k: nat)
    requires root < |p| && j < k < |Order(p, root)|
    ensures
      var order := Order(p, root);
      && order[j] != order[k] && order[k] < |p| && order[|order| - 1] == root
      && (p[order[k]].op.Not? ==> p[order[k]].op.left in order[..k])
      && (p[order[k]].op.Add? || p[order[k]].op.Sub? || p[order[k]].op.Compare? || p[order[k]].op.And?
          || p[order[k]].op.Or? || p[order[k]].op.Select? ==>
            p[order[k]].op.left in order[..k] && p[order[k]].op.right in order[..k])
      && (p[order[k]].op.Select? ==> p[order[k]].op.cond in order[..k])
      && (p[order[k]].op.Sum? ==> forall o :: o in p[order[k]].op.operands ==> o in order[..k])
  {
    OrderIsTopological(p, root);
    var op := p[Order(p, root)[k]].op;
    hide Order;
    match op
    case Add(l, r) => assert l in Children(op) && r in Children(op);
    case Sub(l, r) => assert l in Children(op) && r in Children(op);
    case Compare(_, l, r) => assert l in Children(op) && r in Children(op);
    case And(l, r) => assert l in Children(op) && r in Children(op);
    case Or(l, r) => assert l in Children(op) && r in Children(op);
    case Not(l) => assert l in Children(op);
    case Select(c, l, r) => assert c in Children(op) && l in Children(op) && r in Children(op);
    case Sum(ops) => assert forall o :: o in ops ==> o in Children(op);
    case _ =>
  }

  /** s holds the operands of all its members. */
  ghost predicate ClosedSet(p: Dag, s: set<nat>) {
    forall n, c :: n in s && n < |p| && c in Children(p[n].op) ==> c in s
  }

  /** Only nodes reachable from the root are listed: the list lies in every closed set around the root. */
  lemma {:induction false} OrderIsReachable(p: Dag, root: nat, s: set<nat>)
    requires root < |p| && root in s && ClosedSet(p, s)
    ensures forall n :: n in Order(p, root) ==> n in s
  {
    VisitWithin(p, root, [], s);
  }

  lemma {:induction false} VisitWithin(p: Dag, i: nat, order: seq<nat>, s: set<nat>)
    requires i < |p| && i in s && ClosedSet(p, s)
    requires forall n :: n in order ==> n in s
    ensures forall n :: n in Visit(p, i, order) ==> n in s
    decreases i, 1, 0
  {
    if i !in order {
      VisitAllWithin(p, Children(p[i].op), i, order, s);
    }
  }

  lemma {:induction false} VisitAllWithin(p: Dag, kids: seq<nat>, bound: nat, order: seq<nat>, s: set<nat>)
    requires bound <= |p| && Below(kids, bound) && ClosedSet(p, s)
    requires (forall n :: n in order ==> n in s) && (forall n :: n in kids ==> n in s)
    ensures forall n :: n in VisitAll(p, kids, bound, order) ==> n in s
    decreases bound, 0, |kids|
  {
    if kids != [] {
      var front, last := kids[..|kids| - 1], kids[|kids| - 1];
      assert (forall c :: c in front ==> c in kids) && last in kids;
      VisitAllWithin(p, front, bound, order, s);
      VisitWithin(p, last, VisitAll(p, front, bound, order), s);
    }
  }

  /** Typing of the root reaches every listed node. */
  lemma {:induction false} OrderWellTyped(p: Dag, root: nat)
    requires root < |p| && WellTyped(p, root)
    ensures forall n :: n in Order(p, root) ==> n < |p| && WellTyped(p, n)
  {
    OrderIsTopological(p, root);
    var s := set n: nat | n < |p| && WellTyped(p, n);
    forall n, c | n in s && n < |p| && c in Children(p[n].op)
      ensures c in s
    {
      OperandWellTyped(p, n, c);
    }
    OrderIsReachable(p, root, s);
  }

  lemma {:induction false} OperandWellTyped(p: Dag, n: nat, c: nat)
    requires n < |p| && WellTyped(p, n) && c in Children(p[n].op)
    ensures c < n && WellTyped(p, c)
  {
  }

  /** The depth-first visitor of the compiler, with the tables it fills. */
  class ExpressionAnalyzer {
    const pool: Dag
    var nodeMap: map<nat, nat>
    var allNodes: seq<nat>

    constructor (p: Dag)
      ensures pool == p && Valid() && allNodes == []
    {
      pool := p;
      nodeMap := map[];
      allNodes := [];
    }

    ghost predicate Valid()
      reads this
    {
      && TopoOrder(pool, allNodes)
      && (forall n :: n in nodeMap <==> n in allNodes)
      && (forall n :: n in nodeMap ==> nodeMap[n] < |allNodes| && allNodes[nodeMap[n]] == n)
    }

    method Analyze(i: nat)
      requires Valid() && i < |pool|
      modifies this
      ensures Valid()
      ensures allNodes == Visit(pool, i, old(allNodes))
      decreases i, 1
    {
      if i in nodeMap {
        return;
      }
      var kids := Children(pool[i].op);
      VisitAllOrders(pool, kids, i, allNodes);
      VisitKids(kids, i);
      TopoOrderSnoc(pool, allNodes, i);
      allNodes := allNodes + [i];
      nodeMap := nodeMap[i := |allNodes| - 1];
    }

    method VisitKids(kids: seq<nat>, bound: nat)
      requires Valid() && bound <= |pool| && Below(kids, bound)
      modifies this
      ensures Valid()
      ensures allNodes == VisitAll(pool, kids, bound, old(allNodes))
      decreases bound, 0
    {
      var k := 0;
      while k < |kids|
        invariant 0 <= k <= |kids| && Valid()
        invariant Below(kids[..k], bound)
        invariant allNodes == VisitAll(pool, kids[..k], bound, old(allNodes))
      {
        assert kids[k] in kids;
        BelowPrefix(kids, k + 1, bound);
        assert kids[..k + 1][..k] == kids[..k];
        Analyze(kids[k]);
        k := k + 1;
      }
      assert kids[..k] == kids;
    }
  }
}
