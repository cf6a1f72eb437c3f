/**
 install_parallel of src/host/vm_pool.cpp as a step system: a dispatcher with a counting
 semaphore, one worker per subgraph, and a kill switch that a failed start sets.
 */
module VmPool {

  datatype Worker =
    | Unborn
    | Spawned             // counted in active_vms, kill switch not read yet
    | Skipping            // saw the kill switch, about to leave
    | Starting
    | Holding(ok: bool)   // result made, callback not called yet
    | Reported(ok: bool)  // callback called, still counted
    | Gone(reported: bool, ok: bool)

  datatype Dispatcher =
    | Looping              // about to test the kill switch for subgraph `next`
    | Acquiring            // waiting until active_vms < max_vms_
    | Joining
    | Returned(result: bool)

  datatype Report = Report(index: nat, success: bool, packages: seq<string>)

  /** `next` is the dispatcher's index. */
  datatype State = State(
    phase: Dispatcher, next: nat, active: int, kill: bool, workers: seq<Worker>, reports: seq<Report>)

  type Subgraphs = seq<seq<string>>

  ghost predicate Init(subs: Subgraphs, s: State) {
    && s.phase == Looping && s.next == 0 && s.active == 0 && !s.kill && s.reports == []
    && |s.workers| == |subs| && forall i :: 0 <= i < |subs| ==> s.workers[i] == Unborn
  }

  // ----- steps -----

  /** The loop head: done, stopped by the kill switch, or on to the semaphore. */
  ghost predicate Head(s: State, t: State) {
    && s.phase == Looping
    && t == s.(phase := if s.next >= |s.workers| || s.kill then Joining else Acquiring)
  }

  ghost predicate Spawn(max: nat, s: State, t: State) {
    && s.phase == Acquiring && s.active < max && s.next < |s.workers|
    && t == s.(phase := Looping, next := s.next + 1, active := s.active + 1, workers := s.workers[s.next := Spawned])
  }

  ghost predicate Look(s: State, t: State, i: nat) {
    && i < |s.workers| && s.workers[i] == Spawned
    && t == s.(workers := s.workers[i := if s.kill then Skipping else Starting])
  }

  ghost predicate Skip(s: State, t: State, i: nat) {
    && i < |s.workers| && s.workers[i] == Skipping
    && t == s.(workers := s.workers[i := Gone(false, false)], active := s.active - 1)
  }

  /** vm.start() ends one way or the other; a failure sets the kill switch. */
  ghost predicate Start(s: State, t: State, i: nat, ok: bool) {
    && i < |s.workers| && s.workers[i] == Starting
    && t == s.(workers := s.workers[i := Holding(ok)], kill := s.kill || !ok)
  }

  /** The result callback: on success all packages of the subgraph, in order. */
  ghost predicate Call(subs: Subgraphs, s: State, t: State, i: nat) {
    && i < |s.workers| && i < |subs| && s.workers[i].Holding?
    && t == s.(workers := s.workers[i := Reported(s.workers[i].ok)],
               reports := s.reports + [Report(i, s.workers[i].ok, if s.workers[i].ok then subs[i] else [])])
  }

  ghost predicate Leave(s: State, t: State, i: nat) {
    && i < |s.workers| && s.workers[i].Reported?
    && t == s.(workers := s.workers[i := Gone(true, s.workers[i].ok)], active := s.active - 1)
  }

  predicate Over(w: Worker) {
    w.Unborn? || w.Gone?
  }

  /** All threads joined: the call returns whether the kill switch is still off. */
  ghost predicate Return(s: State, t: State) {
    && s.phase == Joining && (forall i :: 0 <= i < |s.workers| ==> Over(s.workers[i]))
    && t == s.(phase := Returned(!s.kill))
  }

  ghost predicate Step(subs: Subgraphs, max: nat, s: State, t: State) {
    || Head(s, t) || Spawn(max, s, t) || (exists i :: Look(s, t, i)) || (exists i :: Skip(s, t, i))
    || (exists i, ok :: Start(s, t, i, ok)) || (exists i :: Call(subs, s, t, i)) || (exists i :: Leave(s, t, i))
    || Return(s, t)
  }

  // ----- counting -----

  predicate Active(w: Worker) {
    !Over(w)
  }

  function ActiveCount(ws: seq<Worker>): nat {
    if ws == [] then 0 else ActiveCount(ws[..|ws| - 1]) + if Active(ws[|ws| - 1]) then 1 else 0
  }

  lemma {:induction false} ActiveUpdate(ws: seq<Worker>, i: nat, w: Worker)
    requires i < |ws|
    ensures ActiveCount(ws[i := w]) == ActiveCount(ws) - (if Active(ws[i]) then 1 else 0) + (if Active(w) then 1 else 0)
    decreases |ws|
  {
    var k := |ws| - 1;
    if i < k {
      assert ws[i := w][..k] == ws[..k][i := w];
      ActiveUpdate(ws[..k], i, w);
    } else {
      assert ws[i := w][..k] == ws[..k];
    }
  }

  lemma {:induction false} NoneActive(ws: seq<Worker>)
    requires forall i :: 0 <= i < |ws| ==> !Active(ws[i])
    ensures ActiveCount(ws) == 0
    decreases |ws|
  {
    if ws != [] {
      NoneActive(ws[..|ws| - 1]);
    }
  }

  // ----- the invariant -----

  /** The semaphore counts the active workers and never exceeds its limit. */
  ghost predicate Counted(max: nat, s: State) {
    s.active == ActiveCount(s.workers) <= max
  }

  /** Workers exist exactly up to the dispatcher's index; only the kill switch ends the loop early. */
  ghost predicate Dispatched(s: State) {
    && s.next <= |s.workers|
    && (forall i :: 0 <= i < |s.workers| ==> (s.workers[i] == Unborn <==> i >= s.next))
    && (s.phase == Acquiring ==> s.next < |s.workers|)
    && ((s.phase == Joining || s.phase.Returned?) && !s.kill ==> s.next == |s.workers|)
    && (s.phase.Returned? ==> (forall i :: 0 <= i < |s.workers| ==> Over(s.workers[i])) && s.phase.result == !s.kill)
  }

  predicate Failed(w: Worker) {
    (w.Holding? || w.Reported? || (w.Gone? && w.reported)) && !w.ok
  }

  predicate Skipped(w: Worker) {
    w == Skipping || (w.Gone? && !w.reported)
  }

  /** The kill switch is on exactly when a start failed, and workers skip only then. */
  ghost predicate Killed(s: State) {
    && (s.kill <==> exists i :: 0 <= i < |s.workers| && Failed(s.workers[i]))
    && (forall i :: 0 <= i < |s.workers| && Skipped(s.workers[i]) ==> s.kill)
  }

  predicate HasReported(w: Worker) {
    w.Reported? || (w.Gone? && w.reported)
  }

  /** One report for each worker that has called back, none for the others, with the right contents. */
  ghost predicate Reporting(subs: Subgraphs, s: State) {
    && |s.workers| == |subs|
    && (forall a, b :: 0 <= a < b < |s.reports| ==> s.reports[a].index != s.reports[b].index)
    && (forall a :: 0 <= a < |s.reports| ==> ReportOk(subs, s, s.reports[a]))
    && (forall i :: 0 <= i < |s.workers| && HasReported(s.workers[i]) ==> ReportFor(s, i))
  }

  ghost predicate ReportOk(subs: Subgraphs, s: State, r: Report)
    requires |s.workers| == |subs|
  {
    && r.index < |s.workers| && HasReported(s.workers[r.index]) && r.success == s.workers[r.index].ok
    && r.packages == if r.success then subs[r.index] else []
  }

  ghost predicate ReportFor(s: State, i: int) {
    exists a :: 0 <= a < |s.reports| && s.reports[a].index == i
  }

  lemma {:induction false} InitInv(subs: Subgraphs, max: nat, s: State)
    requires Init(subs, s)
    ensures Counted(max, s) && Dispatched(s) && Killed(s) && Reporting(subs, s)
  {
    NoneActive(s.workers);
  }

  /** Worker i moves on; the others stay. */
  ghost predicate Moves(s: State, t: State, i: nat) {
    && i < |s.workers| && |t.workers| == |s.workers|
    && (forall j :: 0 <= j < |s.workers| && j != i ==> t.workers[j] == s.workers[j])
  }

  lemma {:induction false} StepCounted(subs: Subgraphs, max: nat, s: State, t: State)
    requires Counted(max, s) && Dispatched(s) && Step(subs, max, s, t)
    ensures Counted(max, t)
  {
    hide ActiveCount;
    if Spawn(max, s, t) {
      ActiveUpdate(s.workers, s.next, Spawned);
    } else if i: nat :| Look(s, t, i) {
      ActiveUpdate(s.workers, i, t.workers[i]);
    } else if i: nat :| Skip(s, t, i) {
      ActiveUpdate(s.workers, i, t.workers[i]);
    } else if i: nat, ok :| Start(s, t, i, ok) {
      ActiveUpdate(s.workers, i, t.workers[i]);
    } else if i: nat :| Call(subs, s, t, i) {
      ActiveUpdate(s.workers, i, t.workers[i]);
    } else if i: nat :| Leave(s, t, i) {
      ActiveUpdate(s.workers, i, t.workers[i]);
    }
  }

  lemma {:induction false} StepDispatched(subs: Subgraphs, max: nat, s: State, t: State)
    requires Dispatched(s) && Step(subs, max, s, t)
    ensures Dispatched(t)
  {
  }

  lemma {:induction false} StartKilled(s: State, t: State, i: nat, ok: bool)
    requires Killed(s) && Start(s, t, i, ok)
    ensures Killed(t)
  {
    assert Failed(t.workers[i]) <==> !ok;
    if j :| 0 <= j < |s.workers| && Failed(s.workers[j]) {
      assert Failed(t.workers[j]);
    }
  }

  lemma {:induction false} MoveKilled(s: State, t: State, i: nat)
    requires Killed(s) && Moves(s, t, i) && t.kill == s.kill && Failed(t.workers[i]) == Failed(s.workers[i])
    requires Skipped(t.workers[i]) ==> s.kill
    ensures Killed(t)
  {
    if j :| 0 <= j < |s.workers| && Failed(s.workers[j]) {
      assert Failed(t.workers[j]);
    }
  }

  lemma {:induction false} StepKilled(subs: Subgraphs, max: nat, s: State, t: State)
    requires Killed(s) && Dispatched(s) && Step(subs, max, s, t)
    ensures Killed(t)
  {
    if Head(s, t) || Return(s, t) {
      assert t.workers == s.workers;
    } else if Spawn(max, s, t) {
      MoveKilled(s, t, s.next);
    } else if i: nat :| Look(s, t, i) {
      MoveKilled(s, t, i);
    } else if i: nat :| Skip(s, t, i) {
      MoveKilled(s, t, i);
    } else if i: nat, ok :| Start(s, t, i, ok) {
      StartKilled(s, t, i, ok);
    } else if i: nat :| Call(subs, s, t, i) {
      MoveKilled(s, t, i);
    } else {
      var i: nat :| Leave(s, t, i);
      MoveKilled(s, t, i);
    }
  }

  lemma {:induction false} CallReporting(subs: Subgraphs, s: State, t: State, i: nat)
    requires Reporting(subs, s) && Call(subs, s, t, i)
    ensures Reporting(subs, t)
  {
    var k := |s.reports|;
    assert t.reports[k].index == i && HasReported(t.workers[i]) && !HasReported(s.workers[i]);
    forall a | 0 <= a < |t.reports|
      ensures ReportOk(subs, t, t.reports[a])
    {
      if a < k {
        assert ReportOk(subs, s, s.reports[a]);
      }
    }
    forall j | 0 <= j < |t.workers| && HasReported(t.workers[j])
      ensures ReportFor(t, j)
    {
      if j != i {
        assert ReportFor(s, j);
        var a :| 0 <= a < |s.reports| && s.reports[a].index == j;
        assert t.reports[a].index == j;
      }
    }
  }

  lemma {:induction false} MoveReporting(subs: Subgraphs, s: State, t: State, i: nat)
    requires Reporting(subs, s) && Moves(s, t, i) && t.reports == s.reports
    requires HasReported(t.workers[i]) == HasReported(s.workers[i])
    requires (HasReported(s.workers[i]) ==> t.workers[i].ok == s.workers[i].ok)
    ensures Reporting(subs, t)
  {
    forall a | 0 <= a < |t.reports|
      ensures ReportOk(subs, t, t.reports[a])
    {
      assert ReportOk(subs, s, s.reports[a]);
    }
    forall j | 0 <= j < |t.workers| && HasReported(t.workers[j])
      ensures ReportFor(t, j)
    {
      assert ReportFor(s, j);
    }
  }

  lemma {:induction false} StepReporting(subs: Subgraphs, max: nat, s: State, t: State)
    requires Reporting(subs, s) && Dispatched(s) && Step(subs, max, s, t)
    ensures Reporting(subs, t)
  {
    hide Reporting;
    if Head(s, t) || Return(s, t) {
      SameReporting(subs, s, t);
    } else if Spawn(max, s, t) {
      MoveReporting(subs, s, t, s.next);
    } else if i: nat :| Look(s, t, i) {
      MoveReporting(subs, s, t, i);
    } else if i: nat :| Skip(s, t, i) {
      MoveReporting(subs, s, t, i);
    } else if i: nat, ok :| Start(s, t, i, ok) {
      MoveReporting(subs, s, t, i);
    } else if i: nat :| Call(subs, s, t, i) {
      CallReporting(subs, s, t, i);
    } else {
      var i: nat :| Leave(s, t, i);
      MoveReporting(subs, s, t, i);
    }
  }

  lemma {:induction false} SameReporting(subs: Subgraphs, s: State, t: State)
    requires Reporting(subs, s) && t.workers == s.workers && t.reports == s.reports
    ensures Reporting(subs, t)
  {
    forall a | 0 <= a < |t.reports|
      ensures ReportOk(subs, t, t.reports[a])
    {
      assert ReportOk(subs, s, s.reports[a]);
    }
    forall j | 0 <= j < |t.workers| && HasReported(t.workers[j])
      ensures ReportFor(t, j)
    {
      assert ReportFor(s, j);
    }
  }

  // ----- whole runs -----

  ghost predicate Run(subs: Subgraphs, max: nat, tr: seq<State>) {
    tr != [] && Init(subs, tr[0]) && forall k :: 0 <= k < |tr| - 1 ==> Step(subs, max, tr[k], tr[k + 1])
  }

  /** In every interleaving at most max workers are active, and no index reports twice. */
  lemma {:induction false} EveryRun(subs: Subgraphs, max: nat, tr: seq<State>, k: nat)
    requires Run(subs, max, tr) && k < |tr|
    ensures Counted(max, tr[k]) && Dispatched(tr[k]) && Killed(tr[k]) && Reporting(subs, tr[k])
    decreases k
  {
    hide Step, Counted, Dispatched, Killed, Reporting;
    if k == 0 {
      InitInv(subs, max, tr[0]);
    } else {
      EveryRun(subs, max, tr, k - 1);
      var s, t := tr[k - 1], tr[k];
      assert Step(subs, max, tr[k - 1], tr[k - 1 + 1]);
      StepCounted(subs, max, s, t);
      StepDispatched(subs, max, s, t);
      StepKilled(subs, max, s, t);
      StepReporting(subs, max, s, t);
    }
  }

  /** The call returns true exactly when no start failed. */
  lemma {:induction false} TrueIffNoFailure(subs: Subgraphs, max: nat, tr: seq<State>, k: nat)
    requires Run(subs, max, tr) && k < |tr| && tr[k].phase.Returned?
    ensures tr[k].phase.result <==> forall i :: 0 <= i < |tr[k].workers| ==> !Failed(tr[k].workers[i])
  {
    EveryRun(subs, max, tr, k);
  }

  /** When it returns true, every subgraph has reported success exactly once, with all its packages in order. */
  lemma {:induction false} TrueMeansAllInstalled(subs: Subgraphs, max: nat, tr: seq<State>, k: nat, i: nat)
    requires Run(subs, max, tr) && k < |tr| && tr[k].phase == Returned(true) && i < |subs|
    ensures exists a :: 0 <= a < |tr[k].reports| && tr[k].reports[a] == Report(i, true, subs[i])
    ensures forall a, b :: 0 <= a < b < |tr[k].reports| ==> tr[k].reports[a].index != tr[k].reports[b].index
  {
    EveryRun(subs, max, tr, k);
    var s := tr[k];
    assert Over(s.workers[i]) && !Failed(s.workers[i]) && !Skipped(s.workers[i]);
    assert HasReported(s.workers[i]);
    assert ReportFor(s, i);
    var a :| 0 <= a < |s.reports| && s.reports[a].index == i;
    assert ReportOk(subs, s, s.reports[a]);
  }

  /** A failed start is reported as a failure and the call returns false. */
  lemma {:induction false} FailureIsReported(subs: Subgraphs, max: nat, tr: seq<State>, k: nat)
    requires Run(subs, max, tr) && k < |tr| && tr[k].phase == Returned(false)
    ensures exists a :: 0 <= a < |tr[k].reports| && !tr[k].reports[a].success
  {
    EveryRun(subs, max, tr, k);
    var s := tr[k];
    var i :| 0 <= i < |s.workers| && Failed(s.workers[i]);
    assert Over(s.workers[i]);
    assert HasReported(s.workers[i]) && ReportFor(s, i);
    var a :| 0 <= a < |s.reports| && s.reports[a].index == i;
    assert ReportOk(subs, s, s.reports[a]);
  }

  /** Some step is always possible until the call has returned. */
  lemma {:induction false} NeverStuck(subs: Subgraphs, max: nat, s: State) returns (t: State)
    requires max > 0 && Counted(max, s) && Dispatched(s) && Reporting(subs, s) && !s.phase.Returned?
    ensures Step(subs, max, s, t)
  {
    if i: nat :| i < |s.workers| && Active(s.workers[i]) {
      t := WorkerMoves(subs, max, s, i);
    } else {
      NoneActive(s.workers);
      match s.phase
      case Looping =>
        t := s.(phase := if s.next >= |s.workers| || s.kill then Joining else Acquiring);
        assert Head(s, t);
      case Acquiring =>
        t := s.(phase := Looping, next := s.next + 1, active := s.active + 1, workers := s.workers[s.next := Spawned]);
        assert Spawn(max, s, t);
      case Joining =>
        t := s.(phase := Returned(!s.kill));
        assert Return(s, t);
    }
  }

  lemma {:induction false} WorkerMoves(subs: Subgraphs, max: nat, s: State, i: nat) returns (t: State)
    requires i < |s.workers| == |subs| && Active(s.workers[i])
    ensures Step(subs, max, s, t)
  {
    match s.workers[i]
    case Spawned =>
      t := s.(workers := s.workers[i := if s.kill then Skipping else Starting]);
      assert Look(s, t, i);
    case Skipping =>
      t := s.(workers := s.workers[i := Gone(false, false)], active := s.active - 1);
      assert Skip(s, t, i);
    case Starting =>
      t := s.(workers := s.workers[i := Holding(true)], kill := s.kill || !true);
      assert Start(s, t, i, true);
    case Holding(ok) =>
      t := s.(workers := s.workers[i := Reported(ok)],
              reports := s.reports + [Report(i, ok, if ok then subs[i] else [])]);
      assert Call(subs, s, t, i);
    case Reported(ok) =>
      t := s.(workers := s.workers[i := Gone(true, ok)], active := s.active - 1);
      assert Leave(s, t, i);
  }

  // ----- the call returns -----

  function Weight(w: Worker): nat {
    match w
    case Unborn => 5
    case Spawned => 4
    case Starting => 3
    case Holding(_) => 2
    case Reported(_) => 1
    case Skipping => 1
    case Gone(_, _) => 0
  }

  function Weights(ws: seq<Worker>): nat {
    if ws == [] then 0 else Weights(ws[..|ws| - 1]) + Weight(ws[|ws| - 1])
  }

  lemma {:induction false} WeightUpdate(ws: seq<Worker>, i: nat, w: Worker)
    requires i < |ws|
    ensures Weights(ws[i := w]) == Weights(ws) - Weight(ws[i]) + Weight(w)
    decreases |ws|
  {
    var k := |ws| - 1;
    if i < k {
      assert ws[i := w][..k] == ws[..k][i := w];
      WeightUpdate(ws[..k], i, w);
    } else {
      assert ws[i := w][..k] == ws[..k];
    }
  }

  lemma {:induction false} AllUnborn(ws: seq<Worker>)
    requires forall i :: 0 <= i < |ws| ==> ws[i] == Unborn
    ensures Weights(ws) == 5 * |ws|
    decreases |ws|
  {
    if ws != [] {
      AllUnborn(ws[..|ws| - 1]);
    }
  }

  /** An upper bound on the number of steps left. */
  function Remaining(s: State): nat
    requires s.next <= |s.workers|
  {
    var ahead := 2 * (|s.workers| - s.next);
    Weights(s.workers) + match s.phase
                         case Looping => ahead + 2
                         case Acquiring => ahead + 1
                         case Joining => 1
                         case Returned(_) => 0
  }

  /** Every step, of any thread, uses up some of it. */
  lemma {:induction false} StepShrinks(subs: Subgraphs, max: nat, s: State, t: State)
    requires Dispatched(s) && Step(subs, max, s, t)
    ensures t.next <= |t.workers| && Remaining(t) < Remaining(s)
  {
    hide Weights;
    if Spawn(max, s, t) {
      WeightUpdate(s.workers, s.next, Spawned);
    } else if i: nat :| Look(s, t, i) {
      WeightUpdate(s.workers, i, t.workers[i]);
    } else if i: nat :| Skip(s, t, i) {
      WeightUpdate(s.workers, i, t.workers[i]);
    } else if i: nat, ok :| Start(s, t, i, ok) {
      WeightUpdate(s.workers, i, t.workers[i]);
    } else if i: nat :| Call(subs, s, t, i) {
      WeightUpdate(s.workers, i, t.workers[i]);
    } else if i: nat :| Leave(s, t, i) {
      WeightUpdate(s.workers, i, t.workers[i]);
    }
  }

  lemma {:induction false} StepsLeft(subs: Subgraphs, max: nat, tr: seq<State>, k: nat)
    requires Run(subs, max, tr) && k < |tr|
    ensures tr[0].next <= |tr[0].workers| && tr[k].next <= |tr[k].workers| && k + Remaining(tr[k]) <= Remaining(tr[0])
    decreases k
  {
    hide Step, Remaining, Counted, Killed, Reporting;
    if k > 0 {
      StepsLeft(subs, max, tr, k - 1);
      EveryRun(subs, max, tr, k - 1);
      assert Step(subs, max, tr[k - 1], tr[k - 1 + 1]);
      StepShrinks(subs, max, tr[k - 1], tr[k]);
    }
  }

  /** No interleaving goes on for ever. */
  lemma {:induction false} RunsEnd(subs: Subgraphs, max: nat, tr: seq<State>)
    requires Run(subs, max, tr)
    ensures |tr| <= 7 * |subs| + 3
  {
    StepsLeft(subs, max, tr, |tr| - 1);
    AllUnborn(tr[0].workers);
  }

  /** install_parallel returns: every run goes on, in a bounded number of steps, until it does. */
  lemma {:induction false} InstallReturns(subs: Subgraphs, max: nat, tr: seq<State>) returns (whole: seq<State>)
    requires max > 0 && Run(subs, max, tr)
    ensures tr <= whole && Run(subs, max, whole) && whole[|whole| - 1].phase.Returned?
    ensures |whole| <= 7 * |subs| + 3
    decreases 7 * |subs| + 3 - |tr|
  {
    hide Step, Counted, Dispatched, Killed, Reporting;
    var s := tr[|tr| - 1];
    RunsEnd(subs, max, tr);
    if s.phase.Returned? {
      whole := tr;
    } else {
      EveryRun(subs, max, tr, |tr| - 1);
      var t := NeverStuck(subs, max, s);
      var longer := tr + [t];
      forall k | 0 <= k < |longer| - 1
        ensures Step(subs, max, longer[k], longer[k + 1])
      {
        if k < |tr| - 1 {
          assert Step(subs, max, tr[k], tr[k + 1]);
        }
      }
      RunsEnd(subs, max, longer);
      whole := InstallReturns(subs, max, longer);
    }
  }

  // ----- every outcome of the starts -----

  /** Between two subgraphs when k have been installed one after the other. */
  ghost predicate Installed(subs: Subgraphs, s: State, k: nat) {
    && s.phase == Looping && s.next == k <= |subs| == |s.workers| && s.active == 0 && !s.kill
    && (forall i :: 0 <= i < k ==> s.workers[i] == Gone(true, true))
    && (forall i :: k <= i < |subs| ==> s.workers[i] == Unborn)
    && |s.reports| == k && forall i :: 0 <= i < k ==> s.reports[i] == Report(i, true, subs[i])
  }

  lemma {:induction false} RunOn(subs: Subgraphs, max: nat, tr: seq<State>, t: State)
    requires Run(subs, max, tr) && Step(subs, max, tr[|tr| - 1], t)
    ensures Run(subs, max, tr + [t])
  {
    hide Step;
    var longer := tr + [t];
    forall k | 0 <= k < |longer| - 1
      ensures Step(subs, max, longer[k], longer[k + 1])
    {
      if k < |tr| - 1 {
        assert Step(subs, max, tr[k], tr[k + 1]);
      }
    }
  }

  /** The dispatcher spawns worker k, which looks at the kill switch, starts its machine, reports and leaves. */
  lemma {:induction false} OneWorker(subs: Subgraphs, max: nat, tr: seq<State>, k: nat, ok: bool)
    returns (longer: seq<State>)
    requires max > 0 && Run(subs, max, tr) && Installed(subs, tr[|tr| - 1], k) && k < |subs|
    ensures Run(subs, max, longer)
    ensures
      var s, t := tr[|tr| - 1], longer[|longer| - 1];
      && t.phase == Looping && t.next == k + 1 && t.active == 0 && t.kill == !ok
      && t.workers == s.workers[k := Gone(true, ok)]
      && t.reports == s.reports + [Report(k, ok, if ok then subs[k] else [])]
  {
    var s := tr[|tr| - 1];
    var a := s.(phase := Acquiring);
    var b := a.(phase := Looping, next := k + 1, active := 1, workers := s.workers[k := Spawned]);
    var c := b.(workers := b.workers[k := Starting]);
    var d := c.(workers := c.workers[k := Holding(ok)], kill := !ok);
    var e := d.(workers := d.workers[k := Reported(ok)],
                reports := s.reports + [Report(k, ok, if ok then subs[k] else [])]);
    var f := e.(workers := e.workers[k := Gone(true, ok)], active := 0);
    assert Head(s, a) && Spawn(max, a, b) && Look(b, c, k) && Start(c, d, k, ok) && Call(subs, d, e, k) &&
      Leave(e, f, k);
    hide Run;
    RunOn(subs, max, tr, a);
    RunOn(subs, max, tr + [a], b);
    RunOn(subs, max, tr + [a] + [b], c);
    RunOn(subs, max, tr + [a] + [b] + [c], d);
    RunOn(subs, max, tr + [a] + [b] + [c] + [d], e);
    RunOn(subs, max, tr + [a] + [b] + [c] + [d] + [e], f);
    longer := tr + [a] + [b] + [c] + [d] + [e] + [f];
  }

  lemma {:induction false} LeaveLoop(subs: Subgraphs, max: nat, tr: seq<State>, result: bool)
    returns (longer: seq<State>)
    requires Run(subs, max, tr)
    requires
      var s := tr[|tr| - 1];
      && s.phase == Looping && (s.next >= |s.workers| || s.kill) && s.kill == !result
      && forall i :: 0 <= i < |s.workers| ==> Over(s.workers[i])
    ensures Run(subs, max, longer) && longer[|longer| - 1] == tr[|tr| - 1].(phase := Returned(result))
  {
    var s := tr[|tr| - 1];
    var a := s.(phase := Joining);
    var b := s.(phase := Returned(result));
    assert Head(s, a) && Return(a, b);
    hide Run;
    RunOn(subs, max, tr, a);
    RunOn(subs, max, tr + [a], b);
    longer := tr + [a] + [b];
  }

  lemma {:induction false} InstallUpTo(subs: Subgraphs, max: nat, k: nat) returns (tr: seq<State>)
    requires max > 0 && k <= |subs|
    ensures Run(subs, max, tr) && Installed(subs, tr[|tr| - 1], k)
  {
    if k == 0 {
      tr := [State(Looping, 0, 0, false, AllNew(|subs|), [])];
    } else {
      tr := InstallUpTo(subs, max, k - 1);
      tr := OneWorker(subs, max, tr, k - 1, true);
    }
  }

  function AllNew(n: nat): (ws: seq<Worker>)
    ensures |ws| == n && forall i :: 0 <= i < n ==> ws[i] == Unborn
  {
    if n == 0 then [] else AllNew(n - 1) + [Unborn]
  }

  /** When every machine starts, a run returns true with one report per subgraph, each with all its packages. */
  lemma {:induction false} AllMayStart(subs: Subgraphs, max: nat) returns (tr: seq<State>)
    requires max > 0
    ensures Run(subs, max, tr) && tr[|tr| - 1].phase == Returned(true) && |tr[|tr| - 1].reports| == |subs|
    ensures forall i :: 0 <= i < |subs| ==> tr[|tr| - 1].reports[i] == Report(i, true, subs[i])
  {
    hide Run;
    tr := InstallUpTo(subs, max, |subs|);
    tr := LeaveLoop(subs, max, tr, true);
  }

  /** When machine k fails to start, a run returns false, reports the failure and starts nothing behind it. */
  lemma {:induction false} AnyMayFail(subs: Subgraphs, max: nat, k: nat) returns (tr: seq<State>)
    requires max > 0 && k < |subs|
    ensures Run(subs, max, tr) && tr[|tr| - 1].phase == Returned(false) && |tr[|tr| - 1].reports| == k + 1
    ensures forall i :: 0 <= i < k ==> tr[|tr| - 1].reports[i] == Report(i, true, subs[i])
    ensures tr[|tr| - 1].reports[k] == Report(k, false, [])
  {
    hide Run;
    tr := InstallUpTo(subs, max, k);
    tr := OneWorker(subs, max, tr, k, false);
    tr := LeaveLoop(subs, max, tr, false);
  }
}
