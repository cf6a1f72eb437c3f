/**
 ScratchpadCache (src/jit/compiler.cpp): eight registers that mirror scratchpad
 slots, filled round-robin. The cache lives at compile time; what it emits must keep
 every mirrored register equal to its slot at run time.
 */
module RegisterCache {
  import opened Machine
  import opened Scratchpad

  /** x20 holds the scratchpad address, x22 the offset of the slot in use. */
  const SCRATCH: Reg := 20
  const TEMP: Reg := 22

  /** `regToSlot[j]` is -1 when register x(8+j) mirrors nothing. */
  datatype Cache = Cache(slotToReg: map<int, int>, regToSlot: seq<int>, next: int)

  function EmptyCache(): Cache {
    Cache(map[], [-1, -1, -1, -1, -1, -1, -1, -1], 0)
  }

  /** Mirror j of the eight. */
  function CacheReg(j: int): Reg {
    if 0 <= j < 8 then 8 + j else 8
  }

  /** The two tables are inverse to each other and name real slots. */
  ghost predicate CacheValid(c: Cache) {
    && |c.regToSlot| == 8 && 0 <= c.next < 8
    && (forall j :: 0 <= j < 8 && c.regToSlot[j] != -1 ==>
          c.regToSlot[j] in c.slotToReg && c.slotToReg[c.regToSlot[j]] == j)
    && (forall x :: x in c.slotToReg ==>
          0 <= x < MAX_SLOTS && 0 <= c.slotToReg[x] < 8 && c.regToSlot[c.slotToReg[x]] == x)
  }

  /**
   What the tables keep even when code asks for slot -1, the slot of a node without one: register numbers are in
   range, and every real slot in the first table is found in the second.
   */
  ghost predicate TablesOk(c: Cache) {
    && |c.regToSlot| == 8 && 0 <= c.next < 8
    && (forall x :: x in c.slotToReg ==>
          0 <= c.slotToReg[x] < 8 && (x != -1 ==> c.regToSlot[c.slotToReg[x]] == x))
  }

  /** Every mirrored register equals its slot. */
  ghost predicate Coherent(c: Cache, s: State) {
    && CacheValid(c)
    && s.Run? && |s.scratch| >= MAX_SLOTS && s.regs[SCRATCH] == P(Scratch, 0)
    && (forall x :: x in c.slotToReg ==> s.regs[8 + c.slotToReg[x]] == W(s.scratch[x]))
  }

  // ----- what the cache emits -----

  /** Take the next register of the round-robin, forgetting what it mirrored, and bind it to a slot. */
  function Rebind(c: Cache, slot: int): Cache
    requires 0 <= c.next < |c.regToSlot|
  {
    var j := c.next;
    var prev := c.regToSlot[j];
    var table := if prev != -1 then c.slotToReg - {prev} else c.slotToReg;
    Cache(table[slot := j], c.regToSlot[j := slot], (c.next + 1) % 8)
  }

  lemma {:induction false} RebindValid(c: Cache, slot: int)
    requires CacheValid(c) && 0 <= slot < MAX_SLOTS && slot !in c.slotToReg
    ensures CacheValid(Rebind(c, slot))
    ensures forall x :: x in Rebind(c, slot).slotToReg ==> x == slot || x in c.slotToReg
  {
    var r := Rebind(c, slot);
    forall j | 0 <= j < 8 && r.regToSlot[j] != -1
      ensures r.regToSlot[j] in r.slotToReg && r.slotToReg[r.regToSlot[j]] == j
    {
      if j != c.next {
        assert c.regToSlot[j] in c.slotToReg;
        assert c.slotToReg[c.regToSlot[j]] == j;
      }
    }
    forall x | x in r.slotToReg
      ensures 0 <= x < MAX_SLOTS && 0 <= r.slotToReg[x] < 8 && r.regToSlot[r.slotToReg[x]] == x
    {
      if x != slot {
        assert x in c.slotToReg;
      }
    }
  }

  /** The cache after an access to a slot: unchanged on a hit, rebound on a miss. */
  function AfterAccess(c: Cache, slot: int): Cache {
    if slot in c.slotToReg || !(0 <= c.next < |c.regToSlot|) then c else Rebind(c, slot)
  }

  lemma {:induction false} AccessValid(c: Cache, slot: int)
    requires CacheValid(c) && 0 <= slot < MAX_SLOTS
    ensures CacheValid(AfterAccess(c, slot))
    ensures forall x :: x in AfterAccess(c, slot).slotToReg ==> x == slot || x in c.slotToReg
  {
    if slot !in c.slotToReg {
      RebindValid(c, slot);
    }
  }

  lemma {:induction false} AccessTables(c: Cache, slot: int)
    requires TablesOk(c)
    ensures TablesOk(AfterAccess(c, slot))
  {
  }

  function StoreCode(c: Cache, slot: int, v: Reg): Code {
    Three(MovImm(TEMP, N(slot * 8)), Str(v, Idx(SCRATCH, TEMP)),
          Mov(CacheReg(if slot in c.slotToReg then c.slotToReg[slot] else c.next), v))
  }

  function LoadCode(c: Cache, slot: int, d: Reg): Code {
    if slot in c.slotToReg then I(Mov(d, CacheReg(c.slotToReg[slot])))
    else Three(MovImm(TEMP, N(slot * 8)), Ldr(d, Idx(SCRATCH, TEMP)), Mov(CacheReg(c.next), d))
  }

  /** Registers that cache code may overwrite: x22, the eight mirrors and, on a load, the destination. */
  predicate Clobbered(r: Reg) {
    r == TEMP || 8 <= r < 16
  }

  /** The mirror register that an access to a slot uses. */
  function MirrorOf(c: Cache, slot: int): int {
    if slot in c.slotToReg then c.slotToReg[slot] else c.next
  }

  /** Bringing one mirror and its slot into agreement keeps the cache coherent. */
  lemma {:induction false} AccessCoherent(c: Cache, slot: int, s: State, t: State)
    requires Coherent(c, s) && 0 <= slot < MAX_SLOTS
    requires t.Run? && |t.scratch| == |s.scratch| && t.regs[SCRATCH] == s.regs[SCRATCH]
    requires t.regs[CacheReg(MirrorOf(c, slot))] == W(t.scratch[slot])
    requires forall r: Reg :: 8 <= r < 16 && r != CacheReg(MirrorOf(c, slot)) ==> t.regs[r] == s.regs[r]
    requires t.scratch == s.scratch[slot := t.scratch[slot]]
    ensures Coherent(AfterAccess(c, slot), t)
  {
    AccessValid(c, slot);
    var c' := AfterAccess(c, slot);
    forall x | x in c'.slotToReg
      ensures t.regs[8 + c'.slotToReg[x]] == W(t.scratch[x])
    {
      if x != slot {
        assert x in c.slotToReg && c'.slotToReg[x] == c.slotToReg[x];
        assert c.regToSlot[c.slotToReg[x]] == x;
      }
    }
  }

  lemma {:induction false} StoreExec(code: Code, slot: int, v: Reg, m: Reg, s: State)
    requires code == Three(MovImm(TEMP, N(slot * 8)), Str(v, Idx(SCRATCH, TEMP)), Mov(m, v))
    requires s.Run? && 0 <= slot < |s.scratch| && s.regs[SCRATCH] == P(Scratch, 0)
    requires v < 8 && s.regs[v].W? && 8 <= m < 16
    ensures Exec(code, s) ==
      Run(s.regs[TEMP := N(slot * 8)][m := s.regs[v]], s.flags, s.fields, s.scratch[slot := s.regs[v].w])
  {
    var i1, i2, i3 := MovImm(TEMP, N(slot * 8)), Str(v, Idx(SCRATCH, TEMP)), Mov(m, v);
    var s1 := Step(i1, s);
    assert Step(i2, s1) == s1.(scratch := s.scratch[slot := s.regs[v].w]);
    ExecThree(i1, i2, i3, s);
  }

  lemma {:induction false} LoadExec(code: Code, slot: int, d: Reg, m: Reg, s: State)
    requires code == Three(MovImm(TEMP, N(slot * 8)), Ldr(d, Idx(SCRATCH, TEMP)), Mov(m, d))
    requires s.Run? && 0 <= slot < |s.scratch| && s.regs[SCRATCH] == P(Scratch, 0)
    requires d < 8 && 8 <= m < 16
    ensures Exec(code, s) ==
      Run(s.regs[TEMP := N(slot * 8)][d := W(s.scratch[slot])][m := W(s.scratch[slot])], s.flags, s.fields, s.scratch)
  {
    var i1, i2, i3 := MovImm(TEMP, N(slot * 8)), Ldr(d, Idx(SCRATCH, TEMP)), Mov(m, d);
    var s1 := Step(i1, s);
    assert Step(i2, s1) == Set(s1, d, W(s.scratch[slot]));
    ExecThree(i1, i2, i3, s);
  }

  /** A store reaches the slot, keeps the cache coherent and touches nothing else. */
  lemma {:induction false} StoreEffect(c: Cache, slot: int, v: Reg, s: State, code: Code)
    requires Coherent(c, s) && 0 <= slot < MAX_SLOTS && code == StoreCode(c, slot, v)
    requires v < 8 && s.regs[v].W?
    ensures
      var t := Exec(code, s);
      && Coherent(AfterAccess(c, slot), t)
      && t.scratch == s.scratch[slot := s.regs[v].w]
      && t.fields == s.fields
      && (forall r: Reg :: !Clobbered(r) ==> t.regs[r] == s.regs[r])
  {
    StoreExec(code, slot, v, CacheReg(MirrorOf(c, slot)), s);
    AccessCoherent(c, slot, s, Exec(code, s));
  }

  /** A load delivers the slot, keeps the cache coherent and touches nothing else. */
  lemma {:induction false} LoadEffect(c: Cache, slot: int, d: Reg, s: State, code: Code)
    requires Coherent(c, s) && 0 <= slot < MAX_SLOTS && code == LoadCode(c, slot, d)
    requires d < 8
    ensures
      var t := Exec(code, s);
      && Coherent(AfterAccess(c, slot), t)
      && t.scratch == s.scratch && t.fields == s.fields
      && t.regs[d] == W(s.scratch[slot])
      && (forall r: Reg :: !Clobbered(r) && r != d ==> t.regs[r] == s.regs[r])
  {
    if slot !in c.slotToReg {
      LoadExec(code, slot, d, CacheReg(c.next), s);
    }
    assert s.scratch == s.scratch[slot := s.scratch[slot]];
    AccessCoherent(c, slot, s, Exec(code, s));
  }

  /** A store to a slot that no register mirrors leaves the cache coherent. */
  lemma {:induction false} DirectStore(c: Cache, s: State, t: State, lo: int, n: nat)
    requires Coherent(c, s) && t.Run?
    requires |t.scratch| == |s.scratch| && t.regs[SCRATCH] == s.regs[SCRATCH]
    requires forall r: Reg :: 8 <= r < 16 ==> t.regs[r] == s.regs[r]
    requires forall x :: 0 <= x < |s.scratch| && !(lo <= x < lo + n) ==> t.scratch[x] == s.scratch[x]
    requires forall x :: x in c.slotToReg ==> !(lo <= x < lo + n)
    ensures Coherent(c, t)
  {
  }

  /** The compile-time object itself, writing to the assembler's buffer. */
  class ScratchpadCache {
    var code: seq<Instr>
    var slotToReg: map<int, int>
    var regToSlot: seq<int>
    var nextReg: int

    function View(): Cache
      reads this
    {
      Cache(slotToReg, regToSlot, nextReg)
    }

    constructor ()
      ensures View() == EmptyCache() && code == []
    {
      code := [];
      slotToReg := map[];
      regToSlot := [-1, -1, -1, -1, -1, -1, -1, -1];
      nextReg := 0;
    }

    method Append(c: Code)
      modifies this`code
      ensures code == old(code) + Stream(c)
    {
      code := code + Stream(c);
    }

    method StoreSlot(slot: int, v: Reg)
      requires TablesOk(View()) && slot != -1
      modifies this
      ensures View() == AfterAccess(old(View()), slot) && TablesOk(View())
      ensures code == old(code) + Stream(StoreCode(old(View()), slot, v))
    {
      AccessTables(View(), slot);
      StreamThree(MovImm(TEMP, N(slot * 8)), Str(v, Idx(SCRATCH, TEMP)), Mov(CacheReg(MirrorOf(View(), slot)), v));
      code := code + [MovImm(TEMP, N(slot * 8)), Str(v, Idx(SCRATCH, TEMP))];
      var j := -1;
      if slot in slotToReg {
        j := slotToReg[slot];
      } else {
        j := nextReg;
        nextReg := (nextReg + 1) % 8;
        var prev := regToSlot[j];
        if prev != -1 {
          slotToReg := slotToReg - {prev};
        }
      }
      code := code + [Mov(CacheReg(j), v)];
      slotToReg := slotToReg[slot := j];
      regToSlot := regToSlot[j := slot];
    }

    method LoadSlot(slot: int, d: Reg)
      requires TablesOk(View())
      modifies this
      ensures View() == AfterAccess(old(View()), slot) && TablesOk(View())
      ensures code == old(code) + Stream(LoadCode(old(View()), slot, d))
    {
      AccessTables(View(), slot);
      StreamThree(MovImm(TEMP, N(slot * 8)), Ldr(d, Idx(SCRATCH, TEMP)), Mov(CacheReg(nextReg), d));
      if slot in slotToReg {
        code := code + [Mov(d, CacheReg(slotToReg[slot]))];
      } else {
        code := code + [MovImm(TEMP, N(slot * 8)), Ldr(d, Idx(SCRATCH, TEMP))];
        var j := nextReg;
        nextReg := (nextReg + 1) % 8;
        var prev := regToSlot[j];
        if prev != -1 {
          slotToReg := slotToReg - {prev};
        }
        code := code + [Mov(CacheReg(j), d)];
        slotToReg := slotToReg[slot := j];
        regToSlot := regToSlot[j := slot];
      }
    }
  }
}
