/** Sleeping callers of thpool_wait: whether a signal is still to come, and that the
    pool comes to rest. */
module PoolWakeups {
  import opened Counting
  import opened ThreadPool
  import opened PoolRuns

  function Signalling(w: Worker): nat {
    if w.DoneSignal? then 1 else 0
  }

  predicate Sleeper(w: Waiter) {
    w.CondWait? || w.Asleep?
  }

  // Whoever sleeps (or is about to) has work or a signal still to come.
  ghost predicate WakeOk(s: State) {
    !s.destroyer.Finished? && (exists w :: 0 <= w < |s.waiters| && Sleeper(s.waiters[w])) ==>
      s.queue != [] || s.working > 0 || Sum(s.workers, Signalling) > 0
  }

  lemma WorkKeepsWake(s: State, i: nat, wake: nat)
    requires Inv(s) && WakeOk(s) && |s.waiters| <= 1 && Enabled(s, Work(i, wake))
    ensures WakeOk(WorkerStep(s, i, wake))
  {
    hide TokensOk, OrderOk, OnceOk, WaitersOk, DestroyOk, StayOk;
    SumAtLeast(s.workers, i, Counted);
    SumUpdate(s.workers, i, NextPc(s, s.workers[i]), Signalling);
    SumAtLeast(s.workers[i := NextPc(s, s.workers[i])], i, Signalling);
    assert s.workers[i].DoneSignal? ==> s.lock == ByWorker(i);
  }

  lemma WakeKept(s: State, a: Action)
    requires Inv(s) && WakeOk(s) && |s.waiters| <= 1 && Enabled(s, a)
    ensures WakeOk(Apply(s, a)) && |Apply(s, a).waiters| == |s.waiters|
  {
    hide Inv, WakeOk, WorkerStep, WaiterStep, DestroyStep;
    match a
    case Work(i, wake) =>
      WorkKeepsWake(s, i, wake);
      WorkerStepWakes(s, i, wake);
    case Wait(w) =>
      WaitKeepsWake(s, w);
      WaiterStepTouches(s, w);
    case _ => OthersKeepWake(s, a);
  }

  lemma WaitKeepsWake(s: State, w: nat)
    requires WakeOk(s) && |s.waiters| <= 1 && Enabled(s, Wait(w))
    ensures WakeOk(WaiterStep(s, w))
  {}

  lemma OthersKeepWake(s: State, a: Action)
    requires WakeOk(s) && |s.waiters| <= 1 && Enabled(s, a) && !a.Work? && !a.Wait?
    ensures WakeOk(Apply(s, a)) && |Apply(s, a).waiters| == |s.waiters|
  {}

  lemma {:induction false} RunKeepsWake(s: State, run: seq<Action>)
    requires Inv(s) && WakeOk(s) && |s.waiters| <= 1 && CanRun(s, run)
    ensures WakeOk(After(s, run)) && |After(s, run).waiters| == |s.waiters|
    decreases |run|
  {
    if run != [] {
      StepKeepsInv(s, run[0]);
      WakeKept(s, run[0]);
      RunKeepsWake(Apply(s, run[0]), run[1..]);
    }
  }

  ghost predicate SignalOk(s: State) {
    forall i :: 0 <= i < |s.workers| && s.workers[i].DoneSignal? ==> s.working == 0
  }

  lemma SignalKept(s: State, a: Action)
    requires LockOk(s) && SignalOk(s) && Enabled(s, a)
    ensures SignalOk(Apply(s, a))
  {
    hide WaiterStep;
    if a.Work? && !s.workers[a.worker].DoneDec? && !s.workers[a.worker].WorkInc? {
      assert WorkerStep(s, a.worker, a.wake).working == s.working;
    } else if a.Wait? {
      WaiterStepTouches(s, a.waiter);
    }
  }

  lemma {:induction false} RunKeepsSignal(s: State, run: seq<Action>)
    requires Inv(s) && SignalOk(s) && CanRun(s, run)
    ensures SignalOk(After(s, run))
    decreases |run|
  {
    hide Inv, SignalOk, Apply, Enabled;
    if run != [] {
      StepKeepsInv(s, run[0]);
      LockIsOk(s);
      SignalKept(s, run[0]);
      RunKeepsSignal(Apply(s, run[0]), run[1..]);
    }
  }

  lemma LockIsOk(s: State)
    requires Inv(s)
    ensures LockOk(s)
  {}

  /** A worker signals only when none is working on a job any more. */
  lemma SignalsWhenIdle(s0: State, run: seq<Action>, i: nat)
    requires Init(s0) && CanRun(s0, run) && i < |After(s0, run).workers| && After(s0, run).workers[i].DoneSignal?
    ensures After(s0, run).working == 0
  {
    InitOk(s0);
    RunKeepsSignal(s0, run);
  }

  // The steps the pool takes by itself once jobs return: no new calls, no spurious wakeups, no destroyer.
  predicate Internal(a: Action) {
    a.Work? || a.Wait? || a.AddPost?
  }

  ghost predicate Stuck(s: State) {
    forall a :: Internal(a) ==> !Enabled(s, a)
  }

  predicate InsideWait(w: Waiter) {
    !w.Outside? && !w.Returned?
  }

  lemma StuckLockIsFree(s: State)
    requires LockOk(s) && Stuck(s)
    ensures s.lock.Free?
  {
    assert s.lock.ByWaiter? ==> Enabled(s, Wait(s.lock.waiter));
    var wake: nat := if SomeAsleep(s) then var w :| 0 <= w < |s.waiters| && s.waiters[w].Asleep?; w else 0;
    assert s.lock.ByWorker? ==> Enabled(s, Work(s.lock.worker, wake));
  }

  lemma StuckWorkersWait(s: State)
    requires LockOk(s) && Stuck(s)
    ensures forall i :: 0 <= i < |s.workers| ==> s.workers[i].Exited? || (s.workers[i].SemWait? && s.hasJob == 0)
  {
    StuckLockIsFree(s);
    forall i | 0 <= i < |s.workers|
      ensures s.workers[i].Exited? || (s.workers[i].SemWait? && s.hasJob == 0)
    {
      assert !Enabled(s, Work(i, 0));
    }
  }

  /** A pool that has come to rest while running holds no work at all. */
  lemma RestingPoolIsIdle(s: State)
    requires Inv(s) && s.running && Stuck(s) && |s.workers| >= 1
    ensures s.queue == [] && s.working == 0 && s.adding == 0 && Sum(s.workers, Signalling) == 0
  {
    StuckWorkersWait(s);
    assert s.workers[0].SemWait?;
    SumIsZero(s.workers, Counted);
    SumIsZero(s.workers, Token);
    SumIsZero(s.workers, Signalling);
    if s.adding > 0 {
      assert Enabled(s, AddPost);
    }
  }

  /** With a single waiter there is no lost wakeup: a pool that can take no
      further step by itself has let thpool_wait return. */
  lemma RestingPoolHasReturned(s0: State, run: seq<Action>)
    requires Init(s0) && |s0.workers| >= 1 && |s0.waiters| <= 1 && CanRun(s0, run)
    requires After(s0, run).running && Stuck(After(s0, run))
    ensures forall w :: 0 <= w < |After(s0, run).waiters| ==> !InsideWait(After(s0, run).waiters[w])
  {
    var s := After(s0, run);
    InitOk(s0);
    RunKeepsInv(s0, run);
    RunKeepsWake(s0, run);
    WorkersAreKept(s0, run);
    RestingPoolIsIdle(s);
    StuckLockIsFree(s);
    forall w | 0 <= w < |s.waiters| ensures !InsideWait(s.waiters[w]) {
      assert !Enabled(s, Wait(w));
    }
  }

  // ---------- The pool comes to rest ----------

  // How much a worker has left to do before it can only wait for a token (running) or is gone (not running).
  function Left(w: Worker): nat {
    match w
    case AliveUnlock => 2
    case LoopTest => 1
    case SemWait => 0
    case TokenTest => 16
    case WorkLock => 15
    case WorkInc => 14
    case WorkUnlock => 13
    case Pop => 12
    case Running(_) => 11
    case DoneLock => 10
    case DoneDec => 9
    case DoneSignal => 8
    case DoneUnlock => 2
    case Repost => 19
    case _ => 0
  }

  function LeftToExit(w: Worker): nat {
    match w
    case WorkLock => 18
    case WorkInc => 17
    case WorkUnlock => 16
    case Pop => 15
    case Running(_) => 14
    case DoneLock => 13
    case DoneDec => 12
    case DoneSignal => 11
    case SemWait => 7
    case TokenTest => 6
    case AliveUnlock => 5
    case DoneUnlock => 5
    case Repost => 5
    case LoopTest => 4
    case ExitLock => 3
    case ExitDec => 2
    case ExitUnlock => 1
    case Exited => 0
  }

  function LeftToWait(w: Waiter): nat {
    match w
    case WantLock => 4
    case Woken => 4
    case TestLen => 3
    case TestWorking(_) => 2
    case CondWait => 1
    case Leaving(_) => 1
    case _ => 0
  }

  ghost function Remaining(s: State): nat {
    if s.running then
      Sum(s.workers, Left) + Sum(s.waiters, LeftToWait) + 17 * s.hasJob + 18 * s.adding
    else
      Sum(s.workers, LeftToExit) + Sum(s.waiters, LeftToWait) + s.adding
  }

  // A worker's own share of the progress; a signal may hand 4 of it to the waiter it wakes.
  lemma WorkerGetsOn(s: State, i: nat, wake: nat)
    requires Enabled(s, Work(i, wake))
    ensures var w, w', t := s.workers[i], NextPc(s, s.workers[i]), WorkerStep(s, i, wake);
      var given := if w.DoneSignal? then 4 else 0;
      && (s.running && !Leaves(w) ==> Left(w') + 17 * t.hasJob + given < Left(w) + 17 * s.hasJob)
      && (!s.running ==> LeftToExit(w') + given < LeftToExit(w))
  {}

  lemma WorkProgress(s: State, i: nat, wake: nat)
    requires StayOk(s) && Enabled(s, Work(i, wake))
    ensures Remaining(WorkerStep(s, i, wake)) < Remaining(s) && WorkerStep(s, i, wake).running == s.running
  {
    hide Left, LeftToExit, LeftToWait, NextPc, Sum;
    WorkerGetsOn(s, i, wake);
    var w := NextPc(s, s.workers[i]);
    SumUpdate(s.workers, i, w, Left);
    SumUpdate(s.workers, i, w, LeftToExit);
    if s.workers[i].DoneSignal? && SomeAsleep(s) {
      SumUpdate(s.waiters, wake, Woken, LeftToWait);
      SleeperWoken();
    }
  }

  lemma SleeperWoken()
    ensures LeftToWait(Asleep) == 0 && LeftToWait(Woken) == 4
  {}

  lemma WaiterGetsOn(s: State, w: nat)
    requires Enabled(s, Wait(w))
    ensures var t := WaiterStep(s, w);
      && t == s.(waiters := s.waiters[w := t.waiters[w]], lock := t.lock)
      && LeftToWait(t.waiters[w]) < LeftToWait(s.waiters[w])
  {}

  lemma WaitProgress(s: State, w: nat)
    requires Enabled(s, Wait(w))
    ensures Remaining(WaiterStep(s, w)) < Remaining(s)
  {
    hide WaiterStep, LeftToWait, Left, LeftToExit, Sum;
    WaiterGetsOn(s, w);
    SumUpdate(s.waiters, w, WaiterStep(s, w).waiters[w], LeftToWait);
  }

  lemma InternalProgress(s: State, a: Action)
    requires StayOk(s) && Enabled(s, a) && Internal(a)
    ensures Remaining(Apply(s, a)) < Remaining(s) && Apply(s, a).running == s.running
  {
    match a
    case Work(i, wake) => WorkProgress(s, i, wake);
    case Wait(w) => WaitProgress(s, w);
    case AddPost =>
  }

  /** Left to itself (jobs returning) the pool comes to rest: no run of internal
      steps is longer than Remaining(s), whoever gets scheduled. */
  lemma {:induction false} InternalRunsEnd(s: State, run: seq<Action>)
    requires Inv(s) && CanRun(s, run) && forall k :: 0 <= k < |run| ==> Internal(run[k])
    ensures |run| + Remaining(After(s, run)) <= Remaining(s) && After(s, run).running == s.running
    decreases |run|
  {
    if run != [] {
      assert Internal(run[0]);
      InternalProgress(s, run[0]);
      StepKeepsInv(s, run[0]);
      InternalRunsEnd(Apply(s, run[0]), run[1..]);
    }
  }

  // ---------- What goes wrong with two waiters ----------

  // Waiter w finds a job queued and goes to sleep.
  lemma FallsAsleep(s: State, t: State, w: nat) returns (t': State)
    requires Reaches(s, t) && w < |t.waiters| && t.waiters[w].Outside? && t.lock.Free? && t.queue != []
    ensures Reaches(s, t') && t' == t.(waiters := t.waiters[w := Asleep])
  {
    t' := Go(s, t, CallWait(w));
    t' := Go(s, t', Wait(w));
    t' := Go(s, t', Wait(w));
    t' := Go(s, t', Wait(w));
    assert t'.waiters == t.waiters[w := Asleep];
  }

  // Worker 0 takes a token and commits to a job.
  lemma Commits(s: State, t: State) returns (t': State)
    requires Reaches(s, t) && |t.workers| > 0 && t.workers[0].LoopTest? && t.running && t.hasJob > 0
    ensures Reaches(s, t') && t' == t.(workers := t.workers[0 := WorkLock], hasJob := t.hasJob - 1)
  {
    hide Reaches;
    t' := Go(s, t, Work(0, 0));
    t' := Go(s, t', Work(0, 0));
    t' := Go(s, t', Work(0, 0));
    assert t'.workers == t.workers[0 := WorkLock];
  }

  lemma StartsWorking(s: State, t: State) returns (t': State)
    requires Reaches(s, t) && |t.workers| > 0 && t.workers[0].WorkLock? && t.lock.Free?
    ensures Reaches(s, t') && t' == t.(workers := t.workers[0 := Pop], working := t.working + 1)
  {
    hide Reaches;
    t' := Go(s, t, Work(0, 0));
    t' := Go(s, t', Work(0, 0));
    t' := Go(s, t', Work(0, 0));
    assert t'.workers == t.workers[0 := Pop];
  }

  // Worker 0 runs the only job.
  lemma RunsTheJob(s: State, t: State) returns (t': State)
    requires Reaches(s, t) && |t.workers| > 0 && t.workers[0].Pop? && |t.queue| == 1
    ensures Reaches(s, t') && t'.workers == t.workers[0 := DoneLock] && t'.queue == []
    ensures t' == t.(workers := t'.workers, queue := t'.queue, popped := t'.popped, done := t'.done)
  {
    hide Reaches;
    t' := Go(s, t, Work(0, 0));
    t' := Go(s, t', Work(0, 0));
  }

  // Worker 0 finds itself the last one working and signals waiter 0.
  lemma SignalsWaiter0(s: State, t: State) returns (t': State)
    requires Reaches(s, t) && |t.workers| > 0 && t.workers[0].DoneLock? && t.working == 1 && t.lock.Free?
    requires |t.waiters| > 0 && t.waiters[0].Asleep?
    ensures Reaches(s, t') && t'.workers == t.workers[0 := DoneUnlock] && t'.waiters == t.waiters[0 := Woken]
    ensures t' == t.(workers := t'.workers, waiters := t'.waiters, working := 0, lock := t'.lock)
  {
    hide Reaches;
    t' := Go(s, t, Work(0, 0));
    t' := Go(s, t', Work(0, 0));
    assert SomeAsleep(t');
    t' := Go(s, t', Work(0, 0));
  }

  ghost predicate NoLostWakeup(nWorkers: nat, nWaiters: nat) {
    forall s: State, run: seq<Action> ::
      Init(s) && |s.workers| == nWorkers && |s.waiters| == nWaiters && CanRun(s, run) ==> WakeOk(After(s, run))
  }

  /** Two callers sleep while a job is queued; the worker that finishes it wakes
      one of them, and the other sleeps on although nothing is left to do. */
  lemma TwoWaitersLoseAWakeup(nWorkers: nat, nWaiters: nat)
    requires nWorkers >= 1 && nWaiters >= 2
    ensures !NoLostWakeup(nWorkers, nWaiters)
  {
    hide Reaches, Enabled, CanRun, After, WorkerStep;
    var s := FreshPool(nWorkers, nWaiters);
    Starts(s);
    var t := JobQueued(s);
    t := FallsAsleep(s, t, 0);
    t := FallsAsleep(s, t, 1);
    t := Commits(s, t);
    t := StartsWorking(s, t);
    t := RunsTheJob(s, t);
    t := SignalsWaiter0(s, t);
    LostWakeup(s, t);
  }

  lemma JobQueued(s: State) returns (t: State)
    requires Init(s)
    ensures Reaches(s, t) && t == s.(queue := [0], pushed := 1, hasJob := 1)
  {
    Starts(s);
    hide Reaches;
    t := Go(s, s, AddPush);
    t := Go(s, t, AddPost);
  }

  lemma LostWakeup(s: State, t: State)
    requires Init(s) && Reaches(s, t) && |t.waiters| > 1 && t.waiters[1].Asleep?
    requires t.destroyer.NotCalled? && t.queue == [] && t.working == 0
    requires forall i :: 0 <= i < |t.workers| ==> !t.workers[i].DoneSignal?
    ensures !NoLostWakeup(|s.workers|, |s.waiters|)
  {
    SumIsZero(t.workers, Signalling);
    assert Sleeper(t.waiters[1]);
    assert !WakeOk(t);
  }

  /** The signal of thread_do wakes one caller only, so thpool_wait is free of
      lost wakeups exactly when no two callers wait at the same time. */
  lemma NoLostWakeupIffOneWaiter(nWorkers: nat, nWaiters: nat)
    requires nWorkers >= 1
    ensures NoLostWakeup(nWorkers, nWaiters) <==> nWaiters <= 1
  {
    if nWaiters >= 2 {
      TwoWaitersLoseAWakeup(nWorkers, nWaiters);
    } else {
      forall s: State, run: seq<Action>
        | Init(s) && |s.workers| == nWorkers && |s.waiters| == nWaiters && CanRun(s, run)
        ensures WakeOk(After(s, run))
      {
        InitOk(s);
        RunKeepsWake(s, run);
      }
    }
  }
}
