/**
 The warm pool of src/host/vm_snapshot_pool.cpp as a step system: one replenishing
 thread, and callers that release only what they hold, once each.
 */
module VmSnapshotPool {

  /** Where the replenishing thread is. */
  datatype Replenisher =
    | Testing
    | Booting
    | Booted(id: nat)
    | Waiting
    | Stopped

  /** `held` are the machines handed out, `peak` the most that ever were; both sets and peak are history. */
  datatype Pool = Pool(
    warm: seq<nat>, nextId: nat, shutdown: bool, thread: Replenisher,
    held: set<nat>, discarded: set<nat>, peak: nat)

  ghost predicate Init(s: Pool) {
    s == Pool([], 1, false, Testing, {}, {}, 0)
  }

  // ----- steps -----

  /** The loop test and the locked size test of replenish_loop. */
  ghost predicate Test(size: nat, s: Pool, t: Pool) {
    && s.thread == Testing
    && t == s.(thread := if s.shutdown then Stopped else if |s.warm| < size then Booting else Waiting)
  }

  /** boot_one_vm: a new id, unless the pool is shutting down. */
  ghost predicate Boot(s: Pool, t: Pool) {
    s.thread == Booting &&
    t == if s.shutdown then s.(thread := Testing) else s.(thread := Booted(s.nextId), nextId := s.nextId + 1)
  }

  ghost predicate Push(s: Pool, t: Pool) {
    s.thread.Booted? && t == s.(warm := s.warm + [s.thread.id], thread := Testing)
  }

  ghost predicate Wake(size: nat, s: Pool, t: Pool) {
    s.thread == Waiting && (|s.warm| < size || s.shutdown) && t == s.(thread := Testing)
  }

  function Max(a: nat, b: nat): nat {
    if a < b then b else a
  }

  /** get_warm_vm takes the last machine; a call that times out changes nothing. */
  ghost predicate Get(s: Pool, t: Pool) {
    s.warm != [] &&
    var id := s.warm[|s.warm| - 1];
    t == s.(warm := s.warm[..|s.warm| - 1], held := s.held + {id}, peak := Max(s.peak, |s.held + {id}|))
  }

  ghost predicate Release(s: Pool, t: Pool, id: nat, reuse: bool) {
    id in s.held &&
    t == if reuse then s.(held := s.held - {id}, warm := s.warm + [id])
         else s.(held := s.held - {id}, discarded := s.discarded + {id})
  }

  ghost predicate Shutdown(s: Pool, t: Pool) {
    t == s.(shutdown := true)
  }

  ghost predicate Step(size: nat, s: Pool, t: Pool) {
    || Test(size, s, t) || Boot(s, t) || Push(s, t) || Wake(size, s, t) || Get(s, t)
    || (exists id, reuse :: Release(s, t, id, reuse)) || Shutdown(s, t)
  }

  // ----- every machine is in exactly one place -----

  function Pending(s: Pool): set<nat> {
    if s.thread.Booted? then {s.thread.id} else {}
  }

  ghost predicate Places(s: Pool) {
    && s.nextId >= 1 && (forall i, j :: 0 <= i < j < |s.warm| ==> s.warm[i] != s.warm[j])
    && (forall id :: id in s.warm ==> id !in s.held && id !in s.discarded && id !in Pending(s))
    && s.held !! s.discarded && s.held !! Pending(s) && s.discarded !! Pending(s)
    && (forall id :: 1 <= id < s.nextId <==> id in s.warm || id in s.held || id in s.discarded || id in Pending(s))
  }

  function InBoot(s: Pool): nat {
    if s.thread.Booting? || s.thread.Booted? then 1 else 0
  }

  /** Machines that exist or are being made never exceed the pool size plus the most ever handed out. */
  ghost predicate Bounded(size: nat, s: Pool) {
    |s.held| <= s.peak && |s.warm| + |s.held| + InBoot(s) <= size + s.peak
  }

  lemma {:induction false} GetPlaces(s: Pool, t: Pool)
    requires Places(s) && Get(s, t)
    ensures Places(t)
  {
    var k := |s.warm| - 1;
    assert forall id :: id in s.warm <==> id in t.warm || id == s.warm[k];
    assert s.warm[k] !in t.warm;
  }

  lemma {:induction false} ReleasePlaces(s: Pool, t: Pool, id: nat, reuse: bool)
    requires Places(s) && Release(s, t, id, reuse)
    ensures Places(t)
  {
    if reuse {
      assert forall x :: x in t.warm <==> x in s.warm || x == id;
    }
  }

  lemma {:induction false} PushPlaces(s: Pool, t: Pool)
    requires Places(s) && Push(s, t)
    ensures Places(t)
  {
    assert forall x :: x in t.warm <==> x in s.warm || x == s.thread.id;
  }

  lemma {:induction false} ThreadPlaces(size: nat, s: Pool, t: Pool)
    requires Places(s) && (Test(size, s, t) || Boot(s, t) || Wake(size, s, t) || Shutdown(s, t))
    ensures Places(t)
  {
  }

  lemma {:induction false} StepPlaces(size: nat, s: Pool, t: Pool)
    requires Places(s) && Step(size, s, t)
    ensures Places(t)
  {
    hide Places;
    if Get(s, t) {
      GetPlaces(s, t);
    } else if Push(s, t) {
      PushPlaces(s, t);
    } else if id, reuse :| Release(s, t, id, reuse) {
      ReleasePlaces(s, t, id, reuse);
    } else {
      ThreadPlaces(size, s, t);
    }
  }

  lemma {:induction false} GetBounded(size: nat, s: Pool, t: Pool)
    requires Places(s) && Bounded(size, s) && Get(s, t)
    ensures Bounded(size, t)
  {
    var id := s.warm[|s.warm| - 1];
    assert id !in s.held;
    assert |t.held| == |s.held| + 1;
  }

  lemma {:induction false} ReleaseBounded(size: nat, s: Pool, t: Pool, id: nat, reuse: bool)
    requires Bounded(size, s) && Release(s, t, id, reuse)
    ensures Bounded(size, t)
  {
    assert s.held == t.held + {id};
    assert |s.held| == |t.held| + 1;
  }

  lemma {:induction false} StepBounded(size: nat, s: Pool, t: Pool)
    requires Places(s) && Bounded(size, s) && Step(size, s, t)
    ensures Bounded(size, t)
  {
    if Get(s, t) {
      GetBounded(size, s, t);
    } else if id, reuse :| Release(s, t, id, reuse) {
      ReleaseBounded(size, s, t, id, reuse);
    }
  }

  // ----- whole runs -----

  ghost predicate Run(size: nat, tr: seq<Pool>) {
    tr != [] && Init(tr[0]) && forall k :: 0 <= k < |tr| - 1 ==> Step(size, tr[k], tr[k + 1])
  }

  /** In every interleaving: each id ever given out is in exactly one place, and the bound holds. */
  lemma {:induction false} EveryRun(size: nat, tr: seq<Pool>, k: nat)
    requires Run(size, tr) && k < |tr|
    ensures Places(tr[k]) && Bounded(size, tr[k])
    decreases k
  {
    hide Step;
    if k > 0 {
      EveryRun(size, tr, k - 1);
      assert Step(size, tr[k - 1], tr[k - 1 + 1]);
      StepPlaces(size, tr[k - 1], tr[k]);
      StepBounded(size, tr[k - 1], tr[k]);
    }
  }

  /** No machine is lost: the ids handed out so far are the sizes of the four places added up. */
  lemma {:induction false} Conserved(size: nat, tr: seq<Pool>, k: nat)
    requires Run(size, tr) && k < |tr|
    ensures InPlaces(tr[k]) == tr[k].nextId - 1
    decreases k
  {
    EveryRun(size, tr, k);
    if k > 0 {
      Conserved(size, tr, k - 1);
      EveryRun(size, tr, k - 1);
      assert Step(size, tr[k - 1], tr[k - 1 + 1]);
      StepConserves(size, tr[k - 1], tr[k]);
    }
  }

  function InPlaces(s: Pool): int {
    |s.warm| + |s.held| + |s.discarded| + |Pending(s)|
  }

  lemma {:induction false} GetConserves(s: Pool, t: Pool)
    requires Places(s) && Get(s, t)
    ensures InPlaces(t) == InPlaces(s)
  {
    assert s.warm[|s.warm| - 1] !in s.held;
  }

  lemma {:induction false} ReleaseConserves(s: Pool, t: Pool, id: nat, reuse: bool)
    requires Places(s) && Release(s, t, id, reuse)
    ensures InPlaces(t) == InPlaces(s)
  {
    assert s.held == t.held + {id} && id !in s.discarded;
  }

  lemma {:induction false} StepConserves(size: nat, s: Pool, t: Pool)
    requires Places(s) && Step(size, s, t)
    ensures InPlaces(t) - t.nextId == InPlaces(s) - s.nextId
  {
    hide Places;
    if Get(s, t) {
      GetConserves(s, t);
    } else if id, reuse :| Release(s, t, id, reuse) {
      ReleaseConserves(s, t, id, reuse);
    }
  }

  // ----- what pool_size bounds, and when -----

  /** A step that is release_vm with reuse: a held machine goes back to the warm list. */
  ghost predicate Reused(s: Pool, t: Pool) {
    exists id :: Release(s, t, id, true)
  }

  ghost function Reuses(tr: seq<Pool>): (n: nat) {
    if |tr| < 2 then 0
    else Reuses(tr[..|tr| - 1]) + if Reused(tr[|tr| - 2], tr[|tr| - 1]) then 1 else 0
  }

  ghost function Last(tr: seq<Pool>): (s: Pool)
    requires tr != []
  {
    tr[|tr| - 1]
  }

  lemma {:induction false} RunInit(size: nat, tr: seq<Pool>)
    requires Run(size, tr) && |tr| >= 2
    ensures Run(size, tr[..|tr| - 1]) && Step(size, tr[|tr| - 2], Last(tr))
  {
    hide Step, Init;
    var n := |tr| - 2;
    assert Step(size, tr[n], tr[n + 1]);
    var front := tr[..n + 1];
    forall k | 0 <= k < |front| - 1
      ensures Step(size, front[k], front[k + 1])
    {
      assert Step(size, tr[k], tr[k + 1]);
    }
  }

  lemma {:induction false} Extend(size: nat, tr: seq<Pool>, t: Pool)
    requires Run(size, tr) && Step(size, Last(tr), t)
    ensures Run(size, tr + [t]) && Last(tr + [t]) == t
    ensures Reuses(tr + [t]) == Reuses(tr) + if Reused(Last(tr), t) then 1 else 0
  {
    hide Step, Init, Reused;
    assert (tr + [t])[..|tr|] == tr;
  }

  lemma {:induction false} StepExcess(size: nat, s: Pool, t: Pool)
    requires Step(size, s, t)
    ensures |t.warm| + InBoot(t) <= |s.warm| + InBoot(s) || Reused(s, t) || |t.warm| + InBoot(t) <= size
    ensures |t.warm| + InBoot(t) <= |s.warm| + InBoot(s) + 1
  {
    if id, reuse :| Release(s, t, id, reuse) {
      assert reuse ==> Reused(s, t);
    }
  }

  /** In every run the warm machines exceed pool_size by at most one for each release that reuses its machine. */
  lemma {:induction false} ExcessIsReuse(size: nat, tr: seq<Pool>)
    requires Run(size, tr)
    ensures |Last(tr).warm| + InBoot(Last(tr)) <= size + Reuses(tr)
    decreases |tr|
  {
    hide Step, Reused;
    if |tr| >= 2 {
      RunInit(size, tr);
      ExcessIsReuse(size, tr[..|tr| - 1]);
      StepExcess(size, tr[|tr| - 2], Last(tr));
    }
  }

  /** The replenisher at its loop test, nothing shut down, `warm` machines ready and `held` handed out. */
  ghost predicate Ready(s: Pool, warm: nat, held: nat) {
    s.thread == Testing && !s.shutdown && |s.warm| == warm && |s.held| == held
  }

  /** One turn of the replenishing loop. */
  lemma {:induction false} Refill(size: nat, tr: seq<Pool>, warm: nat, held: nat) returns (longer: seq<Pool>)
    requires Run(size, tr) && Ready(Last(tr), warm, held) && warm < size
    ensures Run(size, longer) && Ready(Last(longer), warm + 1, held) && Reuses(longer) == Reuses(tr)
  {
    var s := Last(tr);
    var a := s.(thread := Booting);
    var b := a.(thread := Booted(s.nextId), nextId := s.nextId + 1);
    var c := b.(warm := s.warm + [s.nextId], thread := Testing);
    assert Test(size, s, a) && Boot(a, b) && Push(b, c);
    Extend(size, tr, a);
    Extend(size, tr + [a], b);
    Extend(size, tr + [a] + [b], c);
    longer := tr + [a] + [b] + [c];
  }

  /** Boots machines until pool_size are warm. */
  lemma {:induction false} FillUp(size: nat, tr: seq<Pool>, warm: nat, held: nat) returns (longer: seq<Pool>)
    requires Run(size, tr) && Ready(Last(tr), warm, held) && warm <= size
    ensures Run(size, longer) && Ready(Last(longer), size, held) && Reuses(longer) == Reuses(tr)
    decreases size - warm
  {
    hide Run, Ready, Reuses;
    if warm == size {
      longer := tr;
    } else {
      longer := Refill(size, tr, warm, held);
      longer := FillUp(size, longer, warm + 1, held);
    }
  }

  lemma {:induction false} TakeOne(size: nat, tr: seq<Pool>, warm: nat, held: nat) returns (longer: seq<Pool>)
    requires Run(size, tr) && Ready(Last(tr), warm, held) && warm >= 1
    ensures Run(size, longer) && Ready(Last(longer), warm - 1, held + 1) && Reuses(longer) == Reuses(tr)
  {
    EveryRun(size, tr, |tr| - 1);
    var s := Last(tr);
    var id := s.warm[warm - 1];
    var t := s.(warm := s.warm[..warm - 1], held := s.held + {id}, peak := Max(s.peak, |s.held + {id}|));
    assert Get(s, t) && id !in s.held;
    Extend(size, tr, t);
    longer := tr + [t];
  }

  /** Hands out n machines with pool_size still warm. */
  lemma {:induction false} HandOut(size: nat, n: nat) returns (tr: seq<Pool>)
    requires size >= 1
    ensures Run(size, tr) && Ready(Last(tr), size, n) && Reuses(tr) == 0
  {
    if n == 0 {
      tr := [Pool([], 1, false, Testing, {}, {}, 0)];
      tr := FillUp(size, tr, 0, 0);
    } else {
      tr := HandOut(size, n - 1);
      tr := TakeOne(size, tr, size, n - 1);
      tr := FillUp(size, tr, size - 1, n);
    }
  }

  /** Takes the machines back with reuse. */
  lemma {:induction false} GiveBack(size: nat, tr: seq<Pool>, warm: nat, held: nat) returns (longer: seq<Pool>)
    requires Run(size, tr) && Ready(Last(tr), warm, held)
    ensures Run(size, longer) && Ready(Last(longer), warm + held, 0) && Reuses(longer) == Reuses(tr) + held
    decreases held
  {
    if held == 0 {
      longer := tr;
    } else {
      var s := Last(tr);
      var id :| id in s.held;
      var t := s.(held := s.held - {id}, warm := s.warm + [id]);
      assert Release(s, t, id, true);
      Extend(size, tr, t);
      longer := GiveBack(size, tr + [t], warm + 1, held - 1);
    }
  }

  /** The excess is reached: any pool that holds a machine at all, and any number of reuses. */
  lemma {:induction false} ExcessReached(size: nat, n: nat) returns (tr: seq<Pool>)
    requires size >= 1
    ensures Run(size, tr) && Reuses(tr) == n && |Last(tr).warm| == size + n
  {
    hide Run, Reuses;
    tr := HandOut(size, n);
    tr := GiveBack(size, tr, size, n);
  }

  lemma {:induction false} EmptyPool(tr: seq<Pool>)
    requires Run(0, tr)
    ensures Last(tr).warm == [] && Last(tr).held == {} && InBoot(Last(tr)) == 0
    decreases |tr|
  {
    if |tr| >= 2 {
      RunInit(0, tr);
      EmptyPool(tr[..|tr| - 1]);
    }
  }

  /** pool_size bounds the warm machines of every run with at most n reuses exactly when n or pool_size is 0. */
  lemma {:induction false} SizeBoundsWarm(size: nat, n: nat)
    ensures (forall tr :: Run(size, tr) && Reuses(tr) <= n ==> |Last(tr).warm| <= size) <==> n == 0 || size == 0
  {
    hide Step, Init, Reuses;
    forall tr | Run(size, tr) && Reuses(tr) <= n && (n == 0 || size == 0)
      ensures |Last(tr).warm| <= size
    {
      if size == 0 {
        EmptyPool(tr);
      } else {
        ExcessIsReuse(size, tr);
      }
    }
    if n > 0 && size > 0 {
      var tr := ExcessReached(size, n);
    }
  }

  // ----- shutting down -----

  /** After the shutdown no machine is made any more. */
  lemma {:induction false} NoNewMachines(size: nat, s: Pool, t: Pool)
    requires Step(size, s, t) && s.shutdown
    ensures t.shutdown && t.nextId == s.nextId
  {
  }

  /** The replenishing thread, which the destructor joins, stops after at most two of its own steps. */
  lemma {:induction false} ShutdownStops(size: nat, s: Pool) returns (tr: seq<Pool>)
    requires s.shutdown
    ensures 0 < |tr| <= 3 && tr[0] == s && tr[|tr| - 1].thread == Stopped && tr[|tr| - 1].held == s.held
    ensures forall k :: 0 <= k < |tr| - 1 ==>
      Test(size, tr[k], tr[k + 1]) || Boot(tr[k], tr[k + 1]) || Push(tr[k], tr[k + 1]) || Wake(size, tr[k], tr[k + 1])
  {
    if s.thread == Stopped {
      tr := [s];
    } else if s.thread == Testing {
      tr := [s, s.(thread := Stopped)];
    } else {
      var t := s.(thread := Testing, warm := if s.thread.Booted? then s.warm + [s.thread.id] else s.warm);
      assert Boot(s, t) || Push(s, t) || Wake(size, s, t);
      assert Test(size, t, t.(thread := Stopped));
      tr := [s, t, t.(thread := Stopped)];
    }
  }

  /** get_warm_vm hands out the machine that came last, and nothing else changes. */
  lemma {:induction false} LastComeFirstServed(size: nat, s: Pool)
    requires s.warm != []
    ensures
      var k := |s.warm| - 1;
      var t := s.(warm := s.warm[..k], held := s.held + {s.warm[k]},
                  peak := if s.peak < |s.held + {s.warm[k]}| then |s.held + {s.warm[k]}| else s.peak);
      Step(size, s, t) && forall u :: Get(s, u) ==> u == t
  {
    var k := |s.warm| - 1;
    var t := s.(warm := s.warm[..k], held := s.held + {s.warm[k]}, peak := Max(s.peak, |s.held + {s.warm[k]}|));
    assert Get(s, t);
  }

  /** A shutdown is possible at any time, and so is a release without reuse, which discards the machine. */
  lemma {:induction false} CallersMayAct(size: nat, s: Pool, id: nat)
    ensures Step(size, s, s.(shutdown := true))
    ensures id in s.held ==> Step(size, s, s.(held := s.held - {id}, discarded := s.discarded + {id}))
    ensures id in s.held ==> Step(size, s, s.(held := s.held - {id}, warm := s.warm + [id]))
  {
    if id in s.held {
      assert Release(s, s.(held := s.held - {id}, discarded := s.discarded + {id}), id, false);
      assert Release(s, s.(held := s.held - {id}, warm := s.warm + [id]), id, true);
    }
  }
}
