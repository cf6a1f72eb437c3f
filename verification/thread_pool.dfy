/**
 The worker pool of src/compute/parallel_runner.cpp as a step system. Every locked
 section is one step, and so is the work of one task.
 */
module ThreadPool {

  /** Where a worker thread is in worker_loop. */
  datatype Worker =
    | Awake              // about to test the queue
    | Asleep             // waiting on cv_
    | Working(task: nat) // popped a task, result not written
    | Written(task: nat) // result written, about to decrement active_workers_
    | Exited

  /** Where a caller of wait_all is; `seen` tasks were enqueued before the call. */
  datatype Waiter =
    | Checking(seen: nat)
    | Blocked(seen: nat) // waiting on wait_cv_
    | Returned(seen: nat)

  /** Tasks are numbered in the order they are enqueued. */
  datatype Pool = Pool(
    queue: seq<nat>, active: int, stop: bool,
    notices: nat,        // notify_one calls still to come
    stopNotice: bool,    // notify_all of the destructor still to come
    workers: seq<Worker>, waiters: seq<Waiter>,
    enqueued: nat, started: map<nat, nat>, results: map<nat, int>)

  // ----- counting -----

  predicate Busy(w: Worker) {
    w.Working? || w.Written?
  }

  function BusyCount(ws: seq<Worker>): nat {
    if ws == [] then 0 else BusyCount(ws[..|ws| - 1]) + if Busy(ws[|ws| - 1]) then 1 else 0
  }

  lemma {:induction false} BusyUpdate(ws: seq<Worker>, i: nat, w: Worker)
    requires i < |ws|
    ensures BusyCount(ws[i := w]) == BusyCount(ws) - (if Busy(ws[i]) then 1 else 0) + (if Busy(w) then 1 else 0)
    decreases |ws|
  {
    var k := |ws| - 1;
    if i < k {
      assert ws[i := w][..k] == ws[..k][i := w];
      BusyUpdate(ws[..k], i, w);
    } else {
      assert ws[i := w][..k] == ws[..k];
    }
  }

  lemma {:induction false} NobodyBusy(ws: seq<Worker>)
    ensures BusyCount(ws) == 0 <==> forall i :: 0 <= i < |ws| ==> !Busy(ws[i])
    decreases |ws|
  {
    if ws != [] {
      var k := |ws| - 1;
      NobodyBusy(ws[..k]);
      if forall i :: 0 <= i < k ==> !Busy(ws[..k][i]) {
        assert forall i :: 0 <= i < |ws| ==> i < k ==> ws[i] == ws[..k][i];
      } else {
        var i :| 0 <= i < k && Busy(ws[..k][i]);
        assert Busy(ws[i]);
      }
    }
  }

  // ----- steps -----

  predicate Idle(s: Pool) {
    s.queue == [] && s.active == 0
  }

  ghost predicate Init(s: Pool) {
    && s.queue == [] && s.active == 0 && !s.stop && s.notices == 0 && !s.stopNotice && s.enqueued == 0
    && s.started == map[] && s.results == map[]
    && s.workers != [] && (forall i :: 0 <= i < |s.workers| ==> s.workers[i] == Awake) && s.waiters == []
  }

  function Wake(w: Worker): Worker {
    if w == Asleep then Awake else w
  }

  function WakeAll(ws: seq<Worker>): (r: seq<Worker>)
    ensures |r| == |ws| && forall i :: 0 <= i < |ws| ==> r[i] == Wake(ws[i])
  {
    if ws == [] then [] else WakeAll(ws[..|ws| - 1]) + [Wake(ws[|ws| - 1])]
  }

  function Notify(w: Waiter): Waiter {
    if w.Blocked? then Checking(w.seen) else w
  }

  function NotifyAll(ws: seq<Waiter>): (r: seq<Waiter>)
    ensures |r| == |ws| && forall i :: 0 <= i < |ws| ==> r[i] == Notify(ws[i])
  {
    if ws == [] then [] else NotifyAll(ws[..|ws| - 1]) + [Notify(ws[|ws| - 1])]
  }

  /** enqueue pushes under the lock and notifies after it. */
  ghost predicate Enqueue(s: Pool, t: Pool) {
    && !s.stop
    && t == s.(queue := s.queue + [s.enqueued], enqueued := s.enqueued + 1, notices := s.notices + 1,
               started := s.started[s.enqueued := 0])
  }

  /** notify_one wakes some sleeper when there is one. */
  ghost predicate NotifyOne(s: Pool, t: Pool, i: nat) {
    && s.notices > 0 && i < |s.workers|
    && ((exists j :: 0 <= j < |s.workers| && s.workers[j] == Asleep) ==> s.workers[i] == Asleep)
    && t == s.(notices := s.notices - 1, workers := s.workers[i := Wake(s.workers[i])])
  }

  ghost predicate Take(s: Pool, t: Pool, i: nat) {
    && i < |s.workers| && s.workers[i] == Awake && s.queue != [] && s.queue[0] in s.started
    && t == s.(queue := s.queue[1..], active := s.active + 1, workers := s.workers[i := Working(s.queue[0])],
               started := s.started[s.queue[0] := s.started[s.queue[0]] + 1])
  }

  ghost predicate FallAsleep(s: Pool, t: Pool, i: nat) {
    && i < |s.workers| && s.workers[i] == Awake && s.queue == [] && !s.stop
    && t == s.(workers := s.workers[i := Asleep])
  }

  /** A wake-up without a notification. */
  ghost predicate Spurious(s: Pool, t: Pool, i: nat) {
    && i < |s.workers| && s.workers[i] == Asleep
    && t == s.(workers := s.workers[i := Awake])
  }

  ghost predicate Leave(s: Pool, t: Pool, i: nat) {
    && i < |s.workers| && s.workers[i] == Awake && s.queue == [] && s.stop
    && t == s.(workers := s.workers[i := Exited])
  }

  /** A worker's computation ends: the result is in its slot. */
  ghost predicate Write(value: nat -> int, s: Pool, t: Pool, i: nat) {
    && i < |s.workers| && s.workers[i].Working?
    && t == s.(workers := s.workers[i := Written(s.workers[i].task)],
               results := s.results[s.workers[i].task := value(s.workers[i].task)])
  }

  /** Decrement active_workers_, and notify the waiters when nothing is left. */
  ghost predicate Release(s: Pool, t: Pool, i: nat) {
    && i < |s.workers| && s.workers[i].Written?
    && t == s.(workers := s.workers[i := Awake], active := s.active - 1,
               waiters := if s.queue == [] && s.active - 1 == 0 then NotifyAll(s.waiters) else s.waiters)
  }

  ghost predicate CallWait(s: Pool, t: Pool) {
    t == s.(waiters := s.waiters + [Checking(s.enqueued)])
  }

  /** The predicate of wait_all is evaluated under the lock: return, or block. */
  ghost predicate Check(s: Pool, t: Pool, i: nat) {
    && i < |s.waiters| && s.waiters[i].Checking?
    && t == s.(waiters := s.waiters[i := if Idle(s) then Returned(s.waiters[i].seen) else Blocked(s.waiters[i].seen)])
  }

  ghost predicate SpuriousCheck(s: Pool, t: Pool, i: nat) {
    && i < |s.waiters| && s.waiters[i].Blocked?
    && t == s.(waiters := s.waiters[i := Checking(s.waiters[i].seen)])
  }

  /** The destructor sets stop_ under the lock and wakes everybody after it. */
  ghost predicate Shutdown(s: Pool, t: Pool) {
    !s.stop && t == s.(stop := true, stopNotice := true)
  }

  ghost predicate NotifyStop(s: Pool, t: Pool) {
    s.stopNotice && t == s.(stopNotice := false, workers := WakeAll(s.workers))
  }

  ghost predicate Step(value: nat -> int, s: Pool, t: Pool) {
    || Enqueue(s, t) || (exists i :: NotifyOne(s, t, i)) || (exists i :: Take(s, t, i))
    || (exists i :: FallAsleep(s, t, i))
    || (exists i :: Spurious(s, t, i)) || (exists i :: Leave(s, t, i)) || (exists i :: Write(value, s, t, i))
    || (exists i :: Release(s, t, i)) || CallWait(s, t) || (exists i :: Check(s, t, i))
    || (exists i :: SpuriousCheck(s, t, i)) || Shutdown(s, t) || NotifyStop(s, t)
  }

  // ----- what every reachable state satisfies -----

  /** The queue holds different tasks, none of them started. */
  ghost predicate QueueOk(s: Pool) {
    && (forall t: nat :: t in s.started <==> t < s.enqueued)
    && (forall k :: 0 <= k < |s.queue| ==> s.queue[k] < s.enqueued && s.queue[k] !in s.results)
    && (forall j, k :: 0 <= j < k < |s.queue| ==> s.queue[j] != s.queue[k])
    && (forall k :: 0 <= k < |s.queue| ==> s.queue[k] in s.started && s.started[s.queue[k]] == 0)
  }

  /** A busy worker's task has left the queue for good, and no other worker has it. */
  ghost predicate WorkersOk(s: Pool) {
    && s.active == BusyCount(s.workers)
    && (forall i :: 0 <= i < |s.workers| && Busy(s.workers[i]) ==>
          s.workers[i].task < s.enqueued && s.workers[i].task !in s.queue)
    && (forall i, j :: 0 <= i < j < |s.workers| && Busy(s.workers[i]) && Busy(s.workers[j]) ==>
          s.workers[i].task != s.workers[j].task)
    && (forall i :: 0 <= i < |s.workers| && s.workers[i].Working? ==> s.workers[i].task !in s.results)
    && (forall i :: 0 <= i < |s.workers| && s.workers[i].Written? ==> s.workers[i].task in s.results)
    && (forall i :: 0 <= i < |s.workers| && s.workers[i] == Exited ==> s.stop && s.queue == [])
  }

  ghost predicate InWork(s: Pool, t: nat) {
    exists i :: 0 <= i < |s.workers| && s.workers[i] == Working(t)
  }

  /** No task is lost: it waits in the queue, is being worked on, or its result is written, after exactly one start. */
  ghost predicate TasksOk(value: nat -> int, s: Pool) {
    && (forall t: nat :: t < s.enqueued ==> t in s.queue || InWork(s, t) || t in s.results)
    && (forall t: nat :: t < s.enqueued && t !in s.queue ==> t in s.started && s.started[t] == 1)
    && (forall t :: t in s.results ==> t < s.enqueued && s.results[t] == value(t))
  }

  ghost predicate WaitersOk(s: Pool) {
    && (forall i :: 0 <= i < |s.waiters| ==> s.waiters[i].seen <= s.enqueued)
    && (forall i :: 0 <= i < |s.waiters| && s.waiters[i].Blocked? ==> !Idle(s))
    && (forall i, t: nat :: 0 <= i < |s.waiters| && s.waiters[i].Returned? && t < s.waiters[i].seen ==> t in s.results)
  }

  ghost predicate SomeoneUp(s: Pool) {
    exists i :: 0 <= i < |s.workers| && (s.workers[i] == Awake || Busy(s.workers[i]))
  }

  /** Nobody sleeps through work, and nobody sleeps through the stop. */
  ghost predicate SleepersOk(s: Pool) {
    && s.workers != []
    && (s.queue != [] ==> s.notices > 0 || SomeoneUp(s))
    && (s.stop && !s.stopNotice ==> forall i :: 0 <= i < |s.workers| ==> s.workers[i] != Asleep)
    && (s.stopNotice ==> s.stop)
  }

  ghost predicate Inv(value: nat -> int, s: Pool) {
    QueueOk(s) && WorkersOk(s) && TasksOk(value, s) && WaitersOk(s) && SleepersOk(s)
  }

  lemma {:induction false} InitInv(value: nat -> int, s: Pool)
    requires Init(s)
    ensures Inv(value, s)
  {
    NobodyBusy(s.workers);
  }

  /** When nothing is queued and nobody is active, every task has its result. */
  lemma {:induction false} IdleMeansDone(value: nat -> int, s: Pool, t: nat)
    requires QueueOk(s) && WorkersOk(s) && TasksOk(value, s) && Idle(s) && t < s.enqueued
    ensures t in s.results && s.results[t] == value(t) && s.started[t] == 1
  {
    NobodyBusy(s.workers);
    assert t !in s.queue;
    assert forall i :: 0 <= i < |s.workers| ==> !s.workers[i].Working?;
  }

  // ----- every step keeps the invariant -----

  lemma {:induction false} EnqueueQueue(value: nat -> int, s: Pool, t: Pool)
    requires QueueOk(s) && TasksOk(value, s) && Enqueue(s, t)
    ensures QueueOk(t)
  {
  }

  lemma {:induction false} EnqueueWorkers(value: nat -> int, s: Pool, t: Pool)
    requires WorkersOk(s) && Enqueue(s, t)
    ensures WorkersOk(t)
  {
  }

  lemma {:induction false} EnqueueTasks(value: nat -> int, s: Pool, t: Pool)
    requires TasksOk(value, s) && Enqueue(s, t)
    ensures TasksOk(value, t)
  {
    assert t.queue[|s.queue|] == s.enqueued;
    assert forall x: nat :: x in s.queue ==> x in t.queue;
    assert forall x: nat :: InWork(s, x) ==> InWork(t, x);
  }

  lemma {:induction false} EnqueueWaiters(value: nat -> int, s: Pool, t: Pool)
    requires WaitersOk(s) && Enqueue(s, t)
    ensures WaitersOk(t)
  {
  }

  lemma {:induction false} EnqueueSleepers(value: nat -> int, s: Pool, t: Pool)
    requires SleepersOk(s) && Enqueue(s, t)
    ensures SleepersOk(t)
  {
    assert SomeoneUp(s) ==> SomeoneUp(t);
  }

  lemma {:induction false} EnqueueInv(value: nat -> int, s: Pool, t: Pool)
    requires Inv(value, s) && Enqueue(s, t)
    ensures Inv(value, t)
  {
    hide QueueOk, WorkersOk, TasksOk, WaitersOk, SleepersOk;
    EnqueueQueue(value, s, t);
    EnqueueWorkers(value, s, t);
    EnqueueTasks(value, s, t);
    EnqueueWaiters(value, s, t);
    EnqueueSleepers(value, s, t);
  }

  lemma {:induction false} QueueRest(s: Pool, t: Pool, y: nat)
    requires s.queue != [] && t.queue == s.queue[1..]
    ensures y in t.queue ==> y in s.queue
    ensures y in s.queue && y != s.queue[0] ==> y in t.queue
  {
  }

  lemma {:induction false} TakeQueue(value: nat -> int, s: Pool, t: Pool, i: nat)
    requires QueueOk(s) && Take(s, t, i)
    ensures QueueOk(t)
  {
  }

  lemma {:induction false} TakeWorkers(value: nat -> int, s: Pool, t: Pool, i: nat)
    requires WorkersOk(s) && QueueOk(s) && Take(s, t, i)
    ensures WorkersOk(t)
  {
    BusyUpdate(s.workers, i, t.workers[i]);
    forall j | 0 <= j < |t.workers| && Busy(t.workers[j])
      ensures t.workers[j].task < t.enqueued && t.workers[j].task !in t.queue
    {
      QueueRest(s, t, t.workers[j].task);
    }
    forall j, k | 0 <= j < k < |t.workers| && Busy(t.workers[j]) && Busy(t.workers[k])
      ensures t.workers[j].task != t.workers[k].task
    {
      assert s.queue[0] in s.queue;
    }
  }

  lemma {:induction false} TakeTasks(value: nat -> int, s: Pool, t: Pool, i: nat)
    requires TasksOk(value, s) && QueueOk(s) && Take(s, t, i)
    ensures TasksOk(value, t)
  {
    assert t.workers[i] == Working(s.queue[0]);
    forall y: nat | y < t.enqueued
      ensures y in t.queue || InWork(t, y) || y in t.results
    {
      QueueRest(s, t, y);
      if y != s.queue[0] && InWork(s, y) {
        var j :| 0 <= j < |s.workers| && s.workers[j] == Working(y);
        assert t.workers[j] == Working(y);
      }
    }
    forall y: nat | y < t.enqueued && y !in t.queue
      ensures y in t.started && t.started[y] == 1
    {
      QueueRest(s, t, y);
    }
  }

  lemma {:induction false} TakeWaiters(value: nat -> int, s: Pool, t: Pool, i: nat)
    requires WaitersOk(s) && WorkersOk(s) && Take(s, t, i)
    ensures WaitersOk(t)
  {
  }

  lemma {:induction false} TakeSleepers(value: nat -> int, s: Pool, t: Pool, i: nat)
    requires SleepersOk(s) && Take(s, t, i)
    ensures SleepersOk(t)
  {
    assert Busy(t.workers[i]);
  }

  lemma {:induction false} TakeInv(value: nat -> int, s: Pool, t: Pool, i: nat)
    requires Inv(value, s) && Take(s, t, i)
    ensures Inv(value, t)
  {
    hide QueueOk, WorkersOk, TasksOk, WaitersOk, SleepersOk;
    TakeQueue(value, s, t, i);
    TakeWorkers(value, s, t, i);
    TakeTasks(value, s, t, i);
    TakeWaiters(value, s, t, i);
    TakeSleepers(value, s, t, i);
  }

  lemma {:induction false} WriteQueue(value: nat -> int, s: Pool, t: Pool, i: nat)
    requires QueueOk(s) && WorkersOk(s) && Write(value, s, t, i)
    ensures QueueOk(t)
  {
    assert Busy(s.workers[i]);
  }

  lemma {:induction false} WriteWorkers(value: nat -> int, s: Pool, t: Pool, i: nat)
    requires WorkersOk(s) && Write(value, s, t, i)
    ensures WorkersOk(t)
  {
    BusyUpdate(s.workers, i, t.workers[i]);
    assert Busy(s.workers[i]);
    forall j | 0 <= j < |t.workers| && t.workers[j].Working?
      ensures t.workers[j].task !in t.results
    {
      assert j != i && Busy(s.workers[j]);
    }
  }

  lemma {:induction false} WriteTasks(value: nat -> int, s: Pool, t: Pool, i: nat)
    requires TasksOk(value, s) && WorkersOk(s) && Write(value, s, t, i)
    ensures TasksOk(value, t)
  {
    assert Busy(s.workers[i]);
    forall y: nat | y < t.enqueued
      ensures y in t.queue || InWork(t, y) || y in t.results
    {
      if y != s.workers[i].task && InWork(s, y) {
        var j :| 0 <= j < |s.workers| && s.workers[j] == Working(y);
        assert t.workers[j] == Working(y);
      }
    }
  }

  lemma {:induction false} WriteWaiters(value: nat -> int, s: Pool, t: Pool, i: nat)
    requires WaitersOk(s) && Write(value, s, t, i)
    ensures WaitersOk(t)
  {
  }

  lemma {:induction false} WriteSleepers(value: nat -> int, s: Pool, t: Pool, i: nat)
    requires SleepersOk(s) && Write(value, s, t, i)
    ensures SleepersOk(t)
  {
    assert Busy(t.workers[i]);
  }

  lemma {:induction false} WriteInv(value: nat -> int, s: Pool, t: Pool, i: nat)
    requires Inv(value, s) && Write(value, s, t, i)
    ensures Inv(value, t)
  {
    hide QueueOk, WorkersOk, TasksOk, WaitersOk, SleepersOk;
    WriteQueue(value, s, t, i);
    WriteWorkers(value, s, t, i);
    WriteTasks(value, s, t, i);
    WriteWaiters(value, s, t, i);
    WriteSleepers(value, s, t, i);
  }

  lemma {:induction false} ReleaseQueue(value: nat -> int, s: Pool, t: Pool, i: nat)
    requires QueueOk(s) && Release(s, t, i)
    ensures QueueOk(t)
  {
  }

  lemma {:induction false} ReleaseWorkers(value: nat -> int, s: Pool, t: Pool, i: nat)
    requires WorkersOk(s) && Release(s, t, i)
    ensures WorkersOk(t)
  {
    BusyUpdate(s.workers, i, Awake);
    assert Busy(s.workers[i]);
  }

  lemma {:induction false} ReleaseTasks(value: nat -> int, s: Pool, t: Pool, i: nat)
    requires TasksOk(value, s) && Release(s, t, i)
    ensures TasksOk(value, t)
  {
    forall x: nat | InWork(s, x)
      ensures InWork(t, x)
    {
      var j :| 0 <= j < |s.workers| && s.workers[j] == Working(x);
      assert t.workers[j] == Working(x);
    }
  }

  lemma {:induction false} ReleaseWaiters(value: nat -> int, s: Pool, t: Pool, i: nat)
    requires WaitersOk(s) && Release(s, t, i)
    ensures WaitersOk(t)
  {
  }

  lemma {:induction false} ReleaseSleepers(value: nat -> int, s: Pool, t: Pool, i: nat)
    requires SleepersOk(s) && Release(s, t, i)
    ensures SleepersOk(t)
  {
    assert t.workers[i] == Awake;
  }

  lemma {:induction false} ReleaseInv(value: nat -> int, s: Pool, t: Pool, i: nat)
    requires Inv(value, s) && Release(s, t, i)
    ensures Inv(value, t)
  {
    hide QueueOk, WorkersOk, TasksOk, WaitersOk, SleepersOk;
    ReleaseQueue(value, s, t, i);
    ReleaseWorkers(value, s, t, i);
    ReleaseTasks(value, s, t, i);
    ReleaseWaiters(value, s, t, i);
    ReleaseSleepers(value, s, t, i);
  }

  /** Steps that leave workers and tasks alone. */
  ghost predicate Untouched(s: Pool, t: Pool) {
    t == s.(stop := t.stop, notices := t.notices, stopNotice := t.stopNotice, waiters := t.waiters) &&
      (s.stop ==> t.stop)
  }

  lemma {:induction false} UntouchedKeeps(value: nat -> int, s: Pool, t: Pool)
    requires QueueOk(s) && WorkersOk(s) && TasksOk(value, s) && Untouched(s, t)
    ensures QueueOk(t) && WorkersOk(t) && TasksOk(value, t) && (SomeoneUp(s) ==> SomeoneUp(t))
  {
    assert forall x: nat :: InWork(s, x) ==> InWork(t, x);
  }

  lemma {:induction false} CheckWaiters(value: nat -> int, s: Pool, t: Pool, i: nat)
    requires QueueOk(s) && WorkersOk(s) && TasksOk(value, s) && WaitersOk(s) && Check(s, t, i)
    ensures WaitersOk(t)
  {
    if Idle(s) {
      forall x: nat | x < s.waiters[i].seen
        ensures x in t.results
      {
        IdleMeansDone(value, s, x);
      }
    }
  }

  lemma {:induction false} QuietSteps(value: nat -> int, s: Pool, t: Pool)
    requires Inv(value, s) && (CallWait(s, t) || Shutdown(s, t) || exists i :: Check(s, t, i) || SpuriousCheck(s, t, i))
    ensures Inv(value, t)
  {
    hide QueueOk, WorkersOk, TasksOk;
    UntouchedKeeps(value, s, t);
    if i: nat :| Check(s, t, i) {
      CheckWaiters(value, s, t, i);
    }
  }

  lemma {:induction false} NotifyStopQueue(value: nat -> int, s: Pool, t: Pool)
    requires QueueOk(s) && NotifyStop(s, t)
    ensures QueueOk(t)
  {
  }

  lemma {:induction false} NotifyStopWorkers(value: nat -> int, s: Pool, t: Pool)
    requires WorkersOk(s) && NotifyStop(s, t)
    ensures WorkersOk(t)
  {
    hide WakeAll, BusyCount;
    WakeAllBusy(s.workers);
    forall j | 0 <= j < |s.workers|
      ensures t.workers[j] == s.workers[j] || (s.workers[j] == Asleep && t.workers[j] == Awake)
    {
      assert t.workers[j] == Wake(s.workers[j]);
    }
  }

  lemma {:induction false} NotifyStopTasks(value: nat -> int, s: Pool, t: Pool)
    requires TasksOk(value, s) && NotifyStop(s, t)
    ensures TasksOk(value, t)
  {
    forall x: nat | InWork(s, x)
      ensures InWork(t, x)
    {
      var j :| 0 <= j < |s.workers| && s.workers[j] == Working(x);
      assert t.workers[j] == Working(x);
    }
  }

  lemma {:induction false} NotifyStopWaiters(value: nat -> int, s: Pool, t: Pool)
    requires WaitersOk(s) && NotifyStop(s, t)
    ensures WaitersOk(t)
  {
  }

  lemma {:induction false} NotifyStopSleepers(value: nat -> int, s: Pool, t: Pool)
    requires SleepersOk(s) && NotifyStop(s, t)
    ensures SleepersOk(t)
  {
    if SomeoneUp(s) {
      var j :| 0 <= j < |s.workers| && (s.workers[j] == Awake || Busy(s.workers[j]));
      assert t.workers[j] == Awake || Busy(t.workers[j]);
    }
  }

  lemma {:induction false} NotifyStopInv(value: nat -> int, s: Pool, t: Pool)
    requires Inv(value, s) && NotifyStop(s, t)
    ensures Inv(value, t)
  {
    hide QueueOk, WorkersOk, TasksOk, WaitersOk, SleepersOk;
    NotifyStopQueue(value, s, t);
    NotifyStopWorkers(value, s, t);
    NotifyStopTasks(value, s, t);
    NotifyStopWaiters(value, s, t);
    NotifyStopSleepers(value, s, t);
  }

  /** Worker i, not busy, becomes w; nothing else changes but notices. */
  ghost predicate StirTo(s: Pool, t: Pool, i: nat, w: Worker) {
    && i < |s.workers| && !Busy(s.workers[i]) && !Busy(w) && (w == Exited ==> s.stop && s.queue == [])
    && t == s.(workers := s.workers[i := w], notices := t.notices)
  }

  lemma {:induction false} StirQueue(value: nat -> int, s: Pool, t: Pool, i: nat, w: Worker)
    requires QueueOk(s) && StirTo(s, t, i, w)
    ensures QueueOk(t)
  {
  }

  lemma {:induction false} StirWorkers(value: nat -> int, s: Pool, t: Pool, i: nat, w: Worker)
    requires WorkersOk(s) && StirTo(s, t, i, w)
    ensures WorkersOk(t)
  {
    BusyUpdate(s.workers, i, w);
  }

  lemma {:induction false} StirTasks(value: nat -> int, s: Pool, t: Pool, i: nat, w: Worker)
    requires TasksOk(value, s) && StirTo(s, t, i, w)
    ensures TasksOk(value, t)
  {
    forall x: nat | InWork(s, x)
      ensures InWork(t, x)
    {
      var j :| 0 <= j < |s.workers| && s.workers[j] == Working(x);
      assert t.workers[j] == Working(x);
    }
  }

  lemma {:induction false} StirWaiters(value: nat -> int, s: Pool, t: Pool, i: nat, w: Worker)
    requires WaitersOk(s) && StirTo(s, t, i, w)
    ensures WaitersOk(t)
  {
  }

  lemma {:induction false} StirKeeps(value: nat -> int, s: Pool, t: Pool, i: nat, w: Worker)
    requires Inv(value, s) && StirTo(s, t, i, w) && SleepersOk(t)
    ensures Inv(value, t)
  {
    hide QueueOk, WorkersOk, TasksOk, WaitersOk, SleepersOk;
    StirQueue(value, s, t, i, w);
    StirWorkers(value, s, t, i, w);
    StirTasks(value, s, t, i, w);
    StirWaiters(value, s, t, i, w);
  }

  lemma {:induction false} NotifyOneSleepers(s: Pool, t: Pool, i: nat)
    requires SleepersOk(s) && WorkersOk(s) && NotifyOne(s, t, i)
    ensures SleepersOk(t)
  {
    if s.workers[i] == Asleep {
      assert t.workers[i] == Awake;
    } else {
      assert t.workers == s.workers;
      assert s.queue != [] ==> s.workers[i] == Awake || Busy(s.workers[i]);
    }
  }

  lemma {:induction false} NotifyOneInv(value: nat -> int, s: Pool, t: Pool, i: nat)
    requires Inv(value, s) && NotifyOne(s, t, i)
    ensures Inv(value, t)
  {
    NotifyOneSleepers(s, t, i);
    hide QueueOk, WorkersOk, TasksOk, WaitersOk, SleepersOk;
    if Busy(s.workers[i]) {
      UntouchedKeeps(value, s, t);
    } else {
      NotExited(value, s, t, i);
      StirKeeps(value, s, t, i, Wake(s.workers[i]));
    }
  }

  lemma {:induction false} NotExited(value: nat -> int, s: Pool, t: Pool, i: nat)
    requires WorkersOk(s) && NotifyOne(s, t, i) && !Busy(s.workers[i])
    ensures StirTo(s, t, i, Wake(s.workers[i]))
  {
  }

  lemma {:induction false} StirSleepers(s: Pool, t: Pool, i: nat)
    requires SleepersOk(s) && (FallAsleep(s, t, i) || Spurious(s, t, i) || Leave(s, t, i))
    ensures SleepersOk(t)
  {
    if SomeoneUp(s) && s.queue != [] {
      var j :| 0 <= j < |s.workers| && (s.workers[j] == Awake || Busy(s.workers[j]));
      assert t.workers[j] == Awake || Busy(t.workers[j]);
    }
  }

  lemma {:induction false} StirSteps(value: nat -> int, s: Pool, t: Pool, i: nat)
    requires Inv(value, s) && (FallAsleep(s, t, i) || Spurious(s, t, i) || Leave(s, t, i))
    ensures Inv(value, t)
  {
    hide QueueOk, WorkersOk, TasksOk, WaitersOk, SleepersOk;
    StirSleepers(s, t, i);
    StirKeeps(value, s, t, i, t.workers[i]);
  }

  lemma {:induction false} WakeAllBusy(ws: seq<Worker>)
    ensures BusyCount(WakeAll(ws)) == BusyCount(ws)
    decreases |ws|
  {
    if ws != [] {
      var k := |ws| - 1;
      WakeAllBusy(ws[..k]);
      assert WakeAll(ws)[..k] == WakeAll(ws[..k]);
    }
  }

  lemma {:induction false} StepInv(value: nat -> int, s: Pool, t: Pool)
    requires Inv(value, s) && Step(value, s, t)
    ensures Inv(value, t)
  {
    hide Inv;
    if Enqueue(s, t) {
      EnqueueInv(value, s, t);
    } else if i: nat :| NotifyOne(s, t, i) {
      NotifyOneInv(value, s, t, i);
    } else if i: nat :| Take(s, t, i) {
      TakeInv(value, s, t, i);
    } else if i: nat :| FallAsleep(s, t, i) {
      StirSteps(value, s, t, i);
    } else if i: nat :| Spurious(s, t, i) {
      StirSteps(value, s, t, i);
    } else if i: nat :| Leave(s, t, i) {
      StirSteps(value, s, t, i);
    } else if i: nat :| Write(value, s, t, i) {
      WriteInv(value, s, t, i);
    } else if i: nat :| Release(s, t, i) {
      ReleaseInv(value, s, t, i);
    } else if NotifyStop(s, t) {
      NotifyStopInv(value, s, t);
    } else {
      QuietSteps(value, s, t);
    }
  }

  // ----- whole runs -----

  ghost predicate Run(value: nat -> int, tr: seq<Pool>) {
    tr != [] && Init(tr[0]) && forall k :: 0 <= k < |tr| - 1 ==> Step(value, tr[k], tr[k + 1])
  }

  lemma {:induction false} RunInv(value: nat -> int, tr: seq<Pool>, k: nat)
    requires Run(value, tr) && k < |tr|
    ensures Inv(value, tr[k])
    decreases k
  {
    hide Inv, Step;
    if k == 0 {
      InitInv(value, tr[0]);
    } else {
      RunInv(value, tr, k - 1);
      assert Step(value, tr[k - 1], tr[k - 1 + 1]);
      StepInv(value, tr[k - 1], tr[k]);
    }
  }

  /** In no interleaving is a task started twice, and every result in a slot is the right one. */
  lemma {:induction false} NeverTwice(value: nat -> int, tr: seq<Pool>, k: nat, x: nat)
    requires Run(value, tr) && k < |tr| && x < tr[k].enqueued
    ensures x in tr[k].started && tr[k].started[x] <= 1
    ensures x in tr[k].results ==> tr[k].results[x] == value(x)
    ensures tr[k].started[x] == 0 ==> x in tr[k].queue && x !in tr[k].results
  {
    RunInv(value, tr, k);
    if x in tr[k].queue {
      var j :| 0 <= j < |tr[k].queue| && tr[k].queue[j] == x;
    }
  }

  /** In every run tasks wait in the order in which they were enqueued, and the oldest leaves first. */
  lemma {:induction false} FirstComeFirstServed(value: nat -> int, tr: seq<Pool>, k: nat, j: nat)
    requires Run(value, tr) && k < |tr| && j < |tr[k].queue|
    ensures tr[k].queue[j] == tr[k].enqueued - |tr[k].queue| + j
  {
    InOrder(value, tr, k);
  }

  ghost predicate Fifo(s: Pool) {
    forall j :: 0 <= j < |s.queue| ==> s.queue[j] == s.enqueued - |s.queue| + j
  }

  lemma {:induction false} InOrder(value: nat -> int, tr: seq<Pool>, k: nat)
    requires Run(value, tr) && k < |tr|
    ensures Fifo(tr[k])
    decreases k
  {
    hide Step;
    if k > 0 {
      InOrder(value, tr, k - 1);
      assert Step(value, tr[k - 1], tr[k - 1 + 1]);
      StepFifo(value, tr[k - 1], tr[k]);
    }
  }

  lemma {:induction false} StepFifo(value: nat -> int, s: Pool, t: Pool)
    requires Fifo(s) && Step(value, s, t)
    ensures Fifo(t)
  {
    hide BusyCount, WakeAll, NotifyAll;
    if Enqueue(s, t) {
      assert t.queue == s.queue + [s.enqueued];
    } else if i: nat :| Take(s, t, i) {
      assert t.queue == s.queue[1..];
    } else {
      assert t.queue == s.queue && t.enqueued == s.enqueued;
    }
  }

  /** When wait_all has returned, every task enqueued before the call has run once and left its result. */
  lemma {:induction false} WaitedForAll(value: nat -> int, tr: seq<Pool>, k: nat, i: nat, x: nat)
    requires Run(value, tr) && k < |tr| && i < |tr[k].waiters| && tr[k].waiters[i].Returned?
    requires x < tr[k].waiters[i].seen
    ensures x in tr[k].results && tr[k].results[x] == value(x) && x in tr[k].started && tr[k].started[x] == 1
  {
    RunInv(value, tr, k);
    NeverTwice(value, tr, k, x);
  }

  /** A blocked caller of wait_all always has work outstanding. */
  lemma {:induction false} BlockedForAReason(value: nat -> int, tr: seq<Pool>, k: nat, i: nat)
    requires Run(value, tr) && k < |tr| && i < |tr[k].waiters| && tr[k].waiters[i].Blocked?
    ensures tr[k].queue != [] || exists j :: 0 <= j < |tr[k].workers| && Busy(tr[k].workers[j])
  {
    RunInv(value, tr, k);
    NobodyBusy(tr[k].workers);
  }

  /** When all workers have been joined the queue is drained and every task has its result. */
  lemma {:induction false} ShutdownDrains(value: nat -> int, tr: seq<Pool>, k: nat, x: nat)
    requires Run(value, tr) && k < |tr| && x < tr[k].enqueued
    requires forall i :: 0 <= i < |tr[k].workers| ==> tr[k].workers[i] == Exited
    ensures tr[k].queue == [] && x in tr[k].results && tr[k].results[x] == value(x)
    ensures x in tr[k].started && tr[k].started[x] == 1
  {
    RunInv(value, tr, k);
    NobodyBusy(tr[k].workers);
    assert tr[k].workers[0] == Exited;
    IdleMeansDone(value, tr[k], x);
  }

  // ----- outstanding work gets done -----

  /** The steps by which the pool itself moves on. */
  ghost predicate Progress(value: nat -> int, s: Pool, t: Pool) {
    || (exists i :: NotifyOne(s, t, i)) || (exists i :: Take(s, t, i))
    || (exists i :: Write(value, s, t, i)) || (exists i :: Release(s, t, i))
  }

  function Load(w: Worker): nat {
    if w.Working? then 3 else if w.Written? then 2 else if w.Exited? then 0 else 1
  }

  function Loads(ws: seq<Worker>): nat {
    if ws == [] then 0 else Loads(ws[..|ws| - 1]) + Load(ws[|ws| - 1])
  }

  lemma {:induction false} LoadUpdate(ws: seq<Worker>, i: nat, w: Worker)
    requires i < |ws|
    ensures Loads(ws[i := w]) == Loads(ws) - Load(ws[i]) + Load(w)
    decreases |ws|
  {
    var k := |ws| - 1;
    if i < k {
      assert ws[i := w][..k] == ws[..k][i := w];
      LoadUpdate(ws[..k], i, w);
    } else {
      assert ws[i := w][..k] == ws[..k];
    }
  }

  /** An upper bound on the number of steps left to the pool itself. */
  function Remaining(s: Pool): nat {
    3 * |s.queue| + Loads(s.workers) + s.notices + if s.stopNotice then 1 else 0
  }

  lemma {:induction false} ProgressShrinks(value: nat -> int, s: Pool, t: Pool)
    requires Progress(value, s, t)
    ensures Remaining(t) < Remaining(s) && t.enqueued == s.enqueued && t.stop == s.stop
  {
    if i: nat :| NotifyOne(s, t, i) {
      LoadUpdate(s.workers, i, Wake(s.workers[i]));
    } else if i: nat :| Take(s, t, i) {
      LoadUpdate(s.workers, i, t.workers[i]);
    } else if i: nat :| Write(value, s, t, i) {
      LoadUpdate(s.workers, i, t.workers[i]);
    } else {
      var i: nat :| Release(s, t, i);
      LoadUpdate(s.workers, i, Awake);
    }
  }

  /** While work is outstanding the pool can always move: no wake-up is lost. */
  lemma {:induction false} NeverStuck(value: nat -> int, s: Pool) returns (t: Pool)
    requires Inv(value, s) && !Idle(s)
    ensures Progress(value, s, t)
  {
    NobodyBusy(s.workers);
    if i: nat :| i < |s.workers| && s.workers[i].Working? {
      t := s.(workers := s.workers[i := Written(s.workers[i].task)],
              results := s.results[s.workers[i].task := value(s.workers[i].task)]);
      assert Write(value, s, t, i);
    } else if i: nat :| i < |s.workers| && s.workers[i].Written? {
      t := s.(workers := s.workers[i := Awake], active := s.active - 1,
              waiters := if s.queue == [] && s.active - 1 == 0 then NotifyAll(s.waiters) else s.waiters);
      assert Release(s, t, i);
    } else if i: nat :| i < |s.workers| && s.workers[i] == Awake {
      t := s.(queue := s.queue[1..], active := s.active + 1, workers := s.workers[i := Working(s.queue[0])],
              started := s.started[s.queue[0] := s.started[s.queue[0]] + 1]);
      assert Take(s, t, i);
    } else {
      assert !SomeoneUp(s) && s.notices > 0;
      assert s.workers[0] == Asleep;
      t := s.(notices := s.notices - 1, workers := s.workers[0 := Awake]);
      assert NotifyOne(s, t, 0);
    }
  }

  /** From every reachable state the pool reaches, by its own steps, one where wait_all returns. */
  lemma {:induction false} Finishes(value: nat -> int, s: Pool) returns (tr: seq<Pool>)
    requires Inv(value, s)
    ensures tr != [] && tr[0] == s && (forall k :: 0 <= k < |tr| - 1 ==> Progress(value, tr[k], tr[k + 1]))
    ensures Idle(tr[|tr| - 1]) && tr[|tr| - 1].enqueued == s.enqueued && Inv(value, tr[|tr| - 1])
    ensures Awaited(s, tr[|tr| - 1]) && |tr| <= Remaining(s) + 1
    decreases Remaining(s)
  {
    hide Inv, Progress, Idle, Remaining, Awaited;
    if Idle(s) {
      NobodyMoved(s);
      tr := [s];
    } else {
      var t := NeverStuck(value, s);
      ProgressShrinks(value, s, t);
      ProgressIsStep(value, s, t);
      StepInv(value, s, t);
      ProgressAwaited(value, s, t);
      var rest := Finishes(value, t);
      AwaitedOn(s, t, rest[|rest| - 1]);
      tr := [s] + rest;
      forall k | 0 <= k < |tr| - 1
        ensures Progress(value, tr[k], tr[k + 1])
      {
        if k > 0 {
          assert tr[k] == rest[k - 1] && tr[k + 1] == rest[k - 1 + 1];
        }
      }
    }
  }

  lemma {:induction false} ProgressIsStep(value: nat -> int, s: Pool, t: Pool)
    requires Progress(value, s, t)
    ensures Step(value, s, t)
  {
  }

  /** Nobody who is about to check has been lost. */
  ghost predicate Awaited(s: Pool, t: Pool) {
    && |t.waiters| == |s.waiters|
    && forall i :: 0 <= i < |s.waiters| && s.waiters[i].Checking? ==> t.waiters[i] == s.waiters[i]
  }

  lemma {:induction false} NobodyMoved(s: Pool)
    ensures Awaited(s, s)
  {
  }

  lemma {:induction false} AwaitedOn(s: Pool, t: Pool, u: Pool)
    requires Awaited(s, t) && Awaited(t, u)
    ensures Awaited(s, u)
  {
  }

  lemma {:induction false} ProgressAwaited(value: nat -> int, s: Pool, t: Pool)
    requires Progress(value, s, t)
    ensures Awaited(s, t)
  {
    hide NotifyAll;
  }

  // ----- whole submissions -----

  /** Every state leads to the next. */
  ghost predicate Leads(value: nat -> int, tr: seq<Pool>) {
    tr != [] && forall k :: 0 <= k < |tr| - 1 ==> Step(value, tr[k], tr[k + 1])
  }

  lemma {:induction false} LeadsOn(value: nat -> int, a: seq<Pool>, b: seq<Pool>)
    requires Leads(value, a) && Leads(value, b) && a[|a| - 1] == b[0]
    ensures Leads(value, a + b[1..]) && (a + b[1..])[|a + b[1..]| - 1] == b[|b| - 1] && (a + b[1..])[0] == a[0]
  {
    hide Step;
    var c := a + b[1..];
    forall k | 0 <= k < |c| - 1
      ensures Step(value, c[k], c[k + 1])
    {
      if k < |a| - 1 {
        assert c[k] == a[k] && c[k + 1] == a[k + 1];
      } else {
        var j := k - (|a| - 1);
        assert c[k] == b[j] && c[k + 1] == b[j + 1];
      }
    }
  }

  lemma {:induction false} StepLeads(value: nat -> int, s: Pool, t: Pool)
    requires Step(value, s, t)
    ensures Leads(value, [s, t])
  {
    hide Step;
  }

  lemma {:induction false} LeadsInv(value: nat -> int, tr: seq<Pool>, k: nat)
    requires Leads(value, tr) && Inv(value, tr[0]) && k < |tr|
    ensures Inv(value, tr[k])
    decreases k
  {
    hide Inv, Step;
    if k > 0 {
      LeadsInv(value, tr, k - 1);
      assert Step(value, tr[k - 1], tr[k - 1 + 1]);
      StepInv(value, tr[k - 1], tr[k]);
    }
  }

  lemma {:induction false} EnqueueMany(value: nat -> int, s: Pool, n: nat) returns (tr: seq<Pool>)
    requires !s.stop
    ensures Leads(value, tr) && tr[0] == s && !tr[|tr| - 1].stop && tr[|tr| - 1].enqueued == s.enqueued + n
    ensures tr[|tr| - 1].waiters == s.waiters
  {
    if n == 0 {
      tr := [s];
    } else {
      hide Leads;
      var front := EnqueueMany(value, s, n - 1);
      var u := front[|front| - 1];
      var t := u.(queue := u.queue + [u.enqueued], enqueued := u.enqueued + 1, notices := u.notices + 1,
                  started := u.started[u.enqueued := 0]);
      assert Enqueue(u, t);
      StepLeads(value, u, t);
      LeadsOn(value, front, [u, t]);
      tr := front + [u, t][1..];
    }
  }

  lemma {:induction false} ProgressLeads(value: nat -> int, tr: seq<Pool>)
    requires tr != [] && forall k :: 0 <= k < |tr| - 1 ==> Progress(value, tr[k], tr[k + 1])
    ensures Leads(value, tr)
  {
    hide Progress, Step;
    forall k | 0 <= k < |tr| - 1
      ensures Step(value, tr[k], tr[k + 1])
    {
      ProgressIsStep(value, tr[k], tr[k + 1]);
    }
  }

  lemma {:induction false} WaitFrom(value: nat -> int, s: Pool) returns (tr: seq<Pool>)
    requires Inv(value, s)
    ensures Leads(value, tr) && tr[0] == s
    ensures
      var t := tr[|tr| - 1];
      |t.waiters| == |s.waiters| + 1 && t.waiters[|s.waiters|] == Returned(s.enqueued)
  {
    hide Inv, Leads, Progress, Remaining;
    var w := |s.waiters|;
    var t := s.(waiters := s.waiters + [Checking(s.enqueued)]);
    assert CallWait(s, t);
    StepLeads(value, s, t);
    StepInv(value, s, t);
    var rest := Finishes(value, t);
    ProgressLeads(value, rest);
    LeadsOn(value, [s, t], rest);
    tr := [s, t] + rest[1..];
    var u := rest[|rest| - 1];
    assert t.waiters[w] == Checking(s.enqueued);
    assert u.waiters[w] == Checking(s.enqueued) && Idle(u);
    var v := u.(waiters := u.waiters[w := Returned(s.enqueued)]);
    assert Check(u, v, w);
    StepLeads(value, u, v);
    LeadsOn(value, tr, [u, v]);
    tr := tr + [u, v][1..];
  }

  /**
   Whatever the pool has been doing for other callers, n tasks can be enqueued and waited for: some interleaving
   goes on until wait_all returns, with the results of all tasks.
   */
  lemma {:induction false} SubmitAndWait(value: nat -> int, s: Pool, n: nat) returns (tr: seq<Pool>, w: nat)
    requires Inv(value, s) && !s.stop
    ensures tr != [] && tr[0] == s && forall k :: 0 <= k < |tr| - 1 ==> Step(value, tr[k], tr[k + 1])
    ensures
      var t := tr[|tr| - 1];
      && w < |t.waiters| && t.waiters[w] == Returned(s.enqueued + n)
      && forall x: nat :: x < s.enqueued + n ==> x in t.results && t.results[x] == value(x)
  {
    hide Inv, Step;
    var front := EnqueueMany(value, s, n);
    LeadsInv(value, front, |front| - 1);
    var rest := WaitFrom(value, front[|front| - 1]);
    LeadsOn(value, front, rest);
    tr, w := front + rest[1..], |s.waiters|;
    LeadsInv(value, tr, |tr| - 1);
    AllDone(value, tr[|tr| - 1], w);
  }

  lemma {:induction false} AllDone(value: nat -> int, s: Pool, w: nat)
    requires Inv(value, s) && w < |s.waiters| && s.waiters[w].Returned?
    ensures forall x: nat :: x < s.waiters[w].seen ==> x in s.results && s.results[x] == value(x)
  {
  }

  /** A pool that has just been made is a run, and satisfies the invariant. */
  lemma {:induction false} NewPool(value: nat -> int, threads: nat) returns (s: Pool)
    requires threads > 0
    ensures |s.workers| == threads && Run(value, [s]) && Inv(value, s) && !s.stop && s.enqueued == 0
  {
    s := Pool([], 0, false, 0, false, AllAwake(threads), [], 0, map[], map[]);
    InitInv(value, s);
  }

  function AllAwake(n: nat): (ws: seq<Worker>)
    ensures |ws| == n && forall i :: 0 <= i < n ==> ws[i] == Awake
  {
    if n == 0 then [] else AllAwake(n - 1) + [Awake]
  }

  // ----- after the stop -----

  /** The steps by which a stopped pool moves on. */
  ghost predicate Winding(value: nat -> int, s: Pool, t: Pool) {
    Progress(value, s, t) || NotifyStop(s, t) || exists i :: Leave(s, t, i)
  }

  ghost predicate AllGone(s: Pool) {
    forall i :: 0 <= i < |s.workers| ==> s.workers[i] == Exited
  }

  lemma {:induction false} WakeAllLoads(ws: seq<Worker>)
    ensures Loads(WakeAll(ws)) == Loads(ws)
    decreases |ws|
  {
    if ws != [] {
      var k := |ws| - 1;
      WakeAllLoads(ws[..k]);
      assert WakeAll(ws)[..k] == WakeAll(ws[..k]);
    }
  }

  lemma {:induction false} WindingShrinks(value: nat -> int, s: Pool, t: Pool)
    requires Winding(value, s, t)
    ensures Remaining(t) < Remaining(s) && t.stop == s.stop && Step(value, s, t)
  {
    hide Progress, Loads, WakeAll;
    if Progress(value, s, t) {
      ProgressShrinks(value, s, t);
      ProgressIsStep(value, s, t);
    } else if NotifyStop(s, t) {
      WakeAllLoads(s.workers);
    } else {
      var i: nat :| Leave(s, t, i);
      LoadUpdate(s.workers, i, Exited);
    }
  }

  lemma {:induction false} DrainedMoves(value: nat -> int, s: Pool) returns (t: Pool)
    requires Inv(value, s) && s.stop && Idle(s) && !AllGone(s)
    ensures Winding(value, s, t)
  {
    hide Progress;
    NobodyBusy(s.workers);
    if s.stopNotice {
      t := s.(stopNotice := false, workers := WakeAll(s.workers));
      assert NotifyStop(s, t);
    } else {
      var i: nat :| i < |s.workers| && s.workers[i] != Exited;
      assert !Busy(s.workers[i]);
      t := s.(workers := s.workers[i := Exited]);
      assert Leave(s, t, i);
    }
  }

  /** The destructor returns: a stopped pool drains its queue and lets every worker go, in a bounded number of steps. */
  lemma {:induction false} JoinReturns(value: nat -> int, s: Pool) returns (tr: seq<Pool>)
    requires Inv(value, s) && s.stop
    ensures tr != [] && tr[0] == s && (forall k :: 0 <= k < |tr| - 1 ==> Winding(value, tr[k], tr[k + 1]))
    ensures AllGone(tr[|tr| - 1]) && Inv(value, tr[|tr| - 1]) && |tr| <= Remaining(s) + 1
    decreases Remaining(s)
  {
    hide Inv, Progress, Idle, Remaining, Winding, AllGone, Step;
    if AllGone(s) {
      tr := [s];
    } else {
      var t := StoppedMoves(value, s);
      WindingShrinks(value, s, t);
      StepInv(value, s, t);
      var rest := JoinReturns(value, t);
      tr := [s] + rest;
      forall k | 0 <= k < |tr| - 1
        ensures Winding(value, tr[k], tr[k + 1])
      {
        if k > 0 {
          assert tr[k] == rest[k - 1] && tr[k + 1] == rest[k - 1 + 1];
        }
      }
    }
  }

  lemma {:induction false} StoppedMoves(value: nat -> int, s: Pool) returns (t: Pool)
    requires Inv(value, s) && s.stop && !AllGone(s)
    ensures Winding(value, s, t)
  {
    hide Inv, Progress, Idle, AllGone;
    if Idle(s) {
      t := DrainedMoves(value, s);
    } else {
      t := NeverStuck(value, s);
    }
  }
}
