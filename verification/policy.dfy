/**
 The sandbox policy as an instance of the engine (init_JIT_schema and evaluate_batch in
 src/host/policy_engine.cpp): the batch count is the number of violating records.
 */
module Policy {
  import opened Words
  import opened Ir
  import opened Layout
  import opened Compiler
  import opened Table
  import opened Forest
  import opened Chunks
  import opened Engine
  import opened Guarantees

  const EVENT_OPEN: U64 := 2
  const EVENT_CONNECT: U64 := 3

  datatype Record = Record(
    pid: U64, ppid: U64, eventType: U64, isPreinstall: U64, isSensitive: U64, isUnauthorized: U64)

  /** The violation test of process_event: a flag counts as set when it is not 0. */
  predicate Violates(rec: Record) {
    rec.isPreinstall != 0 &&
    ((rec.eventType == EVENT_OPEN && rec.isSensitive != 0) ||
      (rec.eventType == EVENT_CONNECT && rec.isUnauthorized != 0))
  }

  /** process_event only writes 0 and 1 into the flags. */
  predicate FlagsBinary(rec: Record) {
    rec.isPreinstall <= 1 && rec.isSensitive <= 1 && rec.isUnauthorized <= 1
  }

  /** What the compiled policy counts: flags equal to 1. */
  predicate Flagged(rec: Record) {
    rec.isPreinstall == 1 &&
    ((rec.eventType == EVENT_OPEN && rec.isSensitive == 1) ||
      (rec.eventType == EVENT_CONNECT && rec.isUnauthorized == 1))
  }

  function FlaggedCount(records: seq<Record>): nat {
    if records == [] then 0
    else FlaggedCount(records[..|records| - 1]) + if Flagged(records[|records| - 1]) then 1 else 0
  }

  /** On records as process_event makes them both tests count the same. */
  lemma {:induction false} BinaryFlagsAgree(records: seq<Record>)
    requires forall i :: 0 <= i < |records| ==> FlagsBinary(records[i])
    ensures FlaggedCount(records) == Violations(records)
    decreases |records|
  {
    if records != [] {
      BinaryFlagsAgree(records[..|records| - 1]);
      assert FlagsBinary(records[|records| - 1]);
    }
  }

  function Violations(records: seq<Record>): nat {
    if records == [] then 0
    else Violations(records[..|records| - 1]) + if Violates(records[|records| - 1]) then 1 else 0
  }

  /** The records that violate the policy: an open of a sensitive file or an unauthorised connect before install. */
  lemma {:induction false} ViolatingRecords(records: seq<Record>) returns (bad: set<nat>)
    ensures Violations(records) == |bad|
    ensures forall i: nat :: i in bad <==>
      && i < |records| && records[i].isPreinstall != 0
      && ((records[i].eventType == 2 && records[i].isSensitive != 0)
          || (records[i].eventType == 3 && records[i].isUnauthorized != 0))
    decreases |records|
  {
    bad := {};
    if records != [] {
      var k := |records| - 1;
      bad := ViolatingRecords(records[..k]);
      if Violates(records[k]) {
        assert k !in bad;
        bad := bad + {k};
      }
    }
  }

  /** The records that the compiled policy counts: it compares the flags with 1. */
  lemma {:induction false} FlaggedRecords(records: seq<Record>) returns (flagged: set<nat>)
    ensures FlaggedCount(records) == |flagged|
    ensures forall i: nat :: i in flagged <==>
      && i < |records| && records[i].isPreinstall == 1
      && ((records[i].eventType == 2 && records[i].isSensitive == 1)
          || (records[i].eventType == 3 && records[i].isUnauthorized == 1))
    decreases |records|
  {
    flagged := {};
    if records != [] {
      var k := |records| - 1;
      flagged := FlaggedRecords(records[..k]);
      if Flagged(records[k]) {
        assert k !in flagged;
        flagged := flagged + {k};
      }
    }
  }

  // ----- records as rows of 64 bytes -----

  const STRIDE: nat := 64

  function Offsets(): map<string, nat> {
    map["pid" := 0, "ppid" := 8, "event_type" := 16,
        "is_preinstall" := 24, "is_sensitive" := 32, "is_unauthorized" := 40]
  }

  function WordOf(rec: Record, at: nat): U64 {
    if at == 0 then rec.pid else if at == 8 then rec.ppid else if at == 16 then rec.eventType
    else if at == 24 then rec.isPreinstall else if at == 32 then rec.isSensitive
    else if at == 40 then rec.isUnauthorized else 0
  }

  function Bytes(records: seq<Record>): Memory {
    (x: int) => if 0 <= x && x / STRIDE < |records| then WordOf(records[x / STRIDE], x % STRIDE) else 0
  }

  function Rows(records: seq<Record>): Table {
    Table(Bytes(records), STRIDE, Offsets())
  }

  lemma {:induction false} FieldIs(records: seq<Record>, g: nat, f: string, at: nat)
    requires g < |records| && f in Offsets() && Offsets()[f] == at && at < STRIDE
    ensures RowAt(Rows(records), g)(f) == WordOf(records[g], at)
  {
    ModUnique(g * STRIDE + at, STRIDE, g, at);
  }

  // ----- the policy expression -----

  /** A node on top of a pool: its operands are already there. */
  function Add(p: Dag, op: Op): Dag
    requires forall c :: c in Children(op) ==> c < |p|
  {
    p + [Node(op, 0)]
  }

  function Fields(): (p: Dag)
    ensures |p| == 4 && p[0].op == Load("is_preinstall") && p[1].op == Load("event_type")
    ensures p[2].op == Load("is_sensitive") && p[3].op == Load("is_unauthorized")
  {
    Add(Add(Add(Add([], Load("is_preinstall")), Load("event_type")), Load("is_sensitive")), Load("is_unauthorized"))
  }

  /** A comparison of field node f with a constant, as the builder makes it: the constant, then the EQ. */
  function Equals(p: Dag, f: nat, c: U64): (q: Dag)
    requires f < |p|
    ensures |q| == |p| + 2 && q[..|p|] == p && q[|p|].op == Const(c) && q[|p| + 1].op == Compare(EQ, f, |p|)
  {
    Add(Add(p, Const(c)), Compare(EQ, f, |p|))
  }

  function Flags(): (p: Dag)
    ensures |p| == 10 && p[..4] == Fields()
    ensures p[4].op == Const(1) && p[5].op == Compare(EQ, 0, 4) && p[6].op == Const(1) && p[7].op == Compare(EQ, 2, 6)
    ensures p[8].op == Const(1) && p[9].op == Compare(EQ, 3, 8)
  {
    var a := Equals(Fields(), 0, 1);
    var b := Equals(a, 2, 1);
    var c := Equals(b, 3, 1);
    assert c[..4] == c[..8][..6][..4];
    assert b[4] == b[..6][4] && b[5] == b[..6][5] && c[4] == c[..8][4] && c[5] == c[..8][5] && c[6] == c[..8][6] &&
      c[7] == c[..8][7];
    c
  }

  function Checks(): (p: Dag)
    ensures |p| == 16 && p[..10] == Flags()
    ensures p[10].op == Const(2) && p[11].op == Compare(EQ, 1, 10) && p[12].op == And(11, 7)
    ensures p[13].op == Const(3) && p[14].op == Compare(EQ, 1, 13) && p[15].op == And(14, 9)
  {
    var a := Equals(Flags(), 1, 2);
    var b := Add(a, And(11, 7));
    var c := Equals(b, 1, 3);
    assert c[..10] == c[..13][..12][..10];
    assert c[10] == c[..13][10] && c[11] == c[..13][11] && c[12] == c[..13][12];
    Add(c, And(14, 9))
  }

  /** is_preinstall and (open of a sensitive path or unauthorized connect). */
  function Ast(): (p: Dag)
    ensures |p| == 18
  {
    Add(Add(Checks(), Or(12, 15)), And(5, 16))
  }

  const ROOT: nat := 17

  ghost predicate LeavesAre(p: Dag) {
    && |p| == 18 && p[0].op == Load("is_preinstall") && p[1].op == Load("event_type")
    && p[2].op == Load("is_sensitive") && p[3].op == Load("is_unauthorized")
    && p[4].op == Const(1) && p[6].op == Const(1) && p[8].op == Const(1) && p[10].op == Const(2) && p[13].op == Const(3)
  }

  ghost predicate MasksAre(p: Dag) {
    && |p| == 18 && p[5].op == Compare(EQ, 0, 4) && p[7].op == Compare(EQ, 2, 6) && p[9].op == Compare(EQ, 3, 8)
    && p[11].op == Compare(EQ, 1, 10) && p[12].op == And(11, 7) && p[14].op == Compare(EQ, 1, 13)
    && p[15].op == And(14, 9) && p[16].op == Or(12, 15) && p[17].op == And(5, 16)
  }

  lemma {:induction false} NodesAre()
    ensures LeavesAre(Ast()) && MasksAre(Ast())
  {
    hide Fields, Flags, Checks;
    var p, c, f, l := Ast(), Checks(), Flags(), Fields();
    assert forall i :: 0 <= i < 16 ==> p[i] == c[i];
    assert forall i :: 0 <= i < 10 ==> p[i] == c[..10][i] == f[i];
    assert forall i :: 0 <= i < 4 ==> f[i] == f[..4][i] == l[i];
  }

  lemma {:induction false} LeafTyped(p: Dag, i: nat)
    requires i < |p| && IsLeaf(p[i].op)
    ensures !IsMask(p[i].op) && WellTyped(p, i) && SubFree(p, i)
  {
    assert Children(p[i].op) == [];
  }

  lemma {:induction false} ComparisonTyped(p: Dag, i: nat)
    requires i < |p| && p[i].op.Compare? && p[i].op.left < i && p[i].op.right < i
    requires IsLeaf(p[p[i].op.left].op) && IsLeaf(p[p[i].op.right].op)
    ensures IsMask(p[i].op) && WellTyped(p, i) && SubFree(p, i)
  {
    LeafTyped(p, p[i].op.left);
    LeafTyped(p, p[i].op.right);
    assert Children(p[i].op) == [p[i].op.left, p[i].op.right];
  }

  lemma {:induction false} JoinTyped(p: Dag, i: nat)
    requires i < |p| && (p[i].op.And? || p[i].op.Or?) && p[i].op.left < i && p[i].op.right < i
    requires forall c :: c in {p[i].op.left, p[i].op.right} ==> IsMask(p[c].op) && WellTyped(p, c) && SubFree(p, c)
    ensures IsMask(p[i].op) && WellTyped(p, i) && SubFree(p, i)
  {
    assert Children(p[i].op) == [p[i].op.left, p[i].op.right];
  }

  lemma {:induction false} Typed(p: Dag)
    requires LeavesAre(p) && MasksAre(p)
    ensures WellTyped(p, ROOT) && SubFree(p, ROOT) && IsMask(p[ROOT].op)
  {
    hide WellTyped, SubFree, IsMask;
    ComparisonTyped(p, 5);
    ComparisonTyped(p, 7);
    ComparisonTyped(p, 9);
    ComparisonTyped(p, 11);
    ComparisonTyped(p, 14);
    JoinTyped(p, 12);
    JoinTyped(p, 15);
    JoinTyped(p, 16);
    JoinTyped(p, 17);
  }

  lemma {:induction false} OneOfEighteen(i: nat)
    requires i < 18
    ensures i in {0, 1, 2, 3} || i in {4, 6, 8, 10, 13} || i in {5, 7, 9, 11, 12, 14, 15, 16, 17}
  {
  }

  lemma {:induction false} NodeKind(p: Dag, i: nat)
    requires LeavesAre(p) && MasksAre(p) && i < |p|
    ensures !IsAdder(p[i].op) && (p[i].op.Load? ==> p[i].op.field in Offsets())
  {
    OneOfEighteen(i);
  }

  lemma {:induction false} NamesKnown(p: Dag)
    requires LeavesAre(p) && MasksAre(p)
    ensures forall f :: f in FieldsOf(p, ROOT) ==> f in Offsets()
  {
    assert |p| == 18;
    hide LeavesAre, MasksAre, Offsets;
    OrderIsTopological(p, ROOT);
    var order := Order(p, ROOT);
    FieldNamesCover(p, order);
    forall f | f in FieldsOf(p, ROOT)
      ensures f in Offsets()
    {
      var n :| n in order && p[n].op == Load(f);
      NodeKind(p, n);
    }
  }

  /** The policy can be compiled and run. */
  lemma {:induction false} Ready(p: Dag)
    requires LeavesAre(p) && MasksAre(p)
    ensures Runnable(p, ROOT) && GoalOf(p, ROOT) == MaskGoal && Compile(p, ROOT, ForestSkip(p, ROOT)).Some?
  {
    hide Runnable, GoalOf, Compile, WellTyped, SubFree, IsForest, Order, CompiledAdders, FieldsOf, ForestSkip;
    Typed(p);
    OrderIsTopological(p, ROOT);
    forall n: nat | n < |p|
      ensures !IsAdder(p[n].op)
    {
      NodeKind(p, n);
    }
    NoAdders(p, Order(p, ROOT), {});
    WellTypedRunnable(p, ROOT);
    SmallCompiles(p, ROOT, ForestSkip(p, ROOT));
  }

  // ----- what the policy means on a record -----

  lemma {:induction false} Meaning(p: Dag, row: Row)
    requires LeavesAre(p) && MasksAre(p)
    ensures Holds(p, ROOT, row, true) <==>
      row("is_preinstall") == 1 && ((row("event_type") == 2 && row("is_sensitive") == 1) ||
                                    (row("event_type") == 3 && row("is_unauthorized") == 1))
  {
    hide Holds;
    EqMeaning(p, row, 5, 0, 4, "is_preinstall", 1);
    EqMeaning(p, row, 7, 2, 6, "is_sensitive", 1);
    EqMeaning(p, row, 9, 3, 8, "is_unauthorized", 1);
    EqMeaning(p, row, 11, 1, 10, "event_type", 2);
    EqMeaning(p, row, 14, 1, 13, "event_type", 3);
    JoinMeaning(p, row, 12);
    JoinMeaning(p, row, 15);
    JoinMeaning(p, row, 16);
    JoinMeaning(p, row, 17);
  }

  lemma {:induction false} JoinMeaning(p: Dag, row: Row, i: nat)
    requires i < |p| && (p[i].op.And? || p[i].op.Or?) && p[i].op.left < i && p[i].op.right < i
    ensures Holds(p, i, row, true) <==>
      if p[i].op.And? then Holds(p, p[i].op.left, row, true) && Holds(p, p[i].op.right, row, true)
      else Holds(p, p[i].op.left, row, true) || Holds(p, p[i].op.right, row, true)
  {
  }

  lemma {:induction false} EqMeaning(p: Dag, row: Row, i: nat, l: nat, r: nat, f: string, c: U64)
    requires l < i < |p| && r < i && p[i].op == Compare(EQ, l, r) && p[l].op == Load(f) && p[r].op == Const(c)
    ensures Holds(p, i, row, true) <==> row(f) == c
  {
    assert Value(p, l, row, true) == row(f) && Value(p, r, row, true) == Wrap(c) == c;
  }

  lemma {:induction false} RecordMeaning(p: Dag, records: seq<Record>, g: nat)
    requires LeavesAre(p) && MasksAre(p) && g < |records|
    ensures Holds(p, ROOT, RowAt(Rows(records), g), true) <==> Flagged(records[g])
  {
    hide Holds, LeavesAre, MasksAre, RowAt, Rows;
    FieldIs(records, g, "event_type", 16);
    FieldIs(records, g, "is_preinstall", 24);
    FieldIs(records, g, "is_sensitive", 32);
    FieldIs(records, g, "is_unauthorized", 40);
    Meaning(p, RowAt(Rows(records), g));
  }

  lemma {:induction false} CountIs(p: Dag, records: seq<Record>, n: nat)
    requires LeavesAre(p) && MasksAre(p) && n <= |records|
    ensures Matches(p, ROOT, Rows(records), n) == FlaggedCount(records[..n])
  {
    hide LeavesAre, MasksAre, Holds, RowAt, Rows, Flagged;
    if n > 0 {
      CountIs(p, records, n - 1);
      RecordMeaning(p, records, n - 1);
      assert records[..n][..n - 1] == records[..n - 1];
    }
  }

  class PolicyEngine {
    const engine: ApexEngine

    ghost predicate Valid()
      reads this, engine
    {
      && engine.Valid() && engine.stride == STRIDE && engine.offsets == Offsets()
      && engine.logic.Some? && engine.root == ROOT && engine.logic.value.m.plan.p == Ast() &&
        engine.logic.value.goal == MaskGoal
    }

    constructor ()
      ensures Valid()
    {
      hide Runnable, Ast, Compile, LogicOk, LeavesAre, MasksAre;
      var e := new ApexEngine(STRIDE, Offsets());
      NodesAre();
      Ready(Ast());
      NamesKnown(Ast());
      e.SetExpression(Ast(), ROOT);
      engine := e;
    }

    /** evaluate_batch: how many of the records violate the policy. */
    method EvaluateBatch(records: seq<Record>) returns (count: U64)
      requires Valid() && |records| < TWO64
      modifies engine.bufs
      ensures count == FlaggedCount(records)
      ensures (forall i :: 0 <= i < |records| ==> FlagsBinary(records[i])) ==> count == Violations(records)
    {
      hide Ast, Holds, Rows, LogicOk, Total, Wrap;
      if |records| == 0 {
        return 0;
      }
      count := engine.Execute(Bytes(records), |records|);
      BatchCount(records, count);
      if forall i :: 0 <= i < |records| ==> FlagsBinary(records[i]) {
        BinaryFlagsAgree(records);
      }
    }
  }

  lemma {:induction false} BatchCount(records: seq<Record>, count: U64)
    requires ROOT < |Ast()| && |records| < TWO64
    requires count == Wrap(Total(Ast(), ROOT, MaskGoal, Table(Bytes(records), STRIDE, Offsets()), 0, |records|))
    ensures count == FlaggedCount(records)
  {
    var p := Ast();
    hide Ast, Holds, WellTyped, SubFree, IsForest, LeavesAre, MasksAre;
    NodesAre();
    Typed(p);
    ExactTotals(p, ROOT, Rows(records), |records|);
    MatchesBound(p, ROOT, Rows(records), |records|);
    CountIs(p, records, |records|);
    assert records[..|records|] == records;
  }
}
