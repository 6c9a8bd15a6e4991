/** thpool_destroy: every worker leaves, and what the last one still holds. */
module PoolShutdown {
  import opened Counting
  import opened ThreadPool
  import opened PoolRuns
  import opened PoolWakeups

  // ---------- The destroyer's loop ----------

  function DestroySteps(run: seq<Action>): nat {
    if run == [] then 0 else (if run[0].Destroy? then 1 else 0) + DestroySteps(run[1..])
  }

  // The destroyer's steps so far, going by its posts and where it stands.
  function Rounds(s: State): int {
    3 * s.posts + match s.destroyer { case Post => 1 case AliveTest => 0 case _ => -1 }
  }

  lemma OthersLeaveHim(s: State, a: Action)
    requires Enabled(s, a) && !a.Destroy?
    ensures var t := Apply(s, a);
      t.destroyer == s.destroyer && t.posts == s.posts && t.running == s.running && t.alive <= s.alive
  {
    hide NextPc, SomeAsleep;
  }

  lemma HeGoesOn(s: State)
    requires DestroyOk(s) && Enabled(s, Destroy)
    ensures var t := DestroyStep(s);
      && t.alive == s.alive && !t.running
      && (t.alive > 0 ==> Rounds(t) == Rounds(s) + 1)
  {}

  lemma DestroyerGoesOn(s: State, a: Action)
    requires Inv(s) && Enabled(s, a)
    ensures var t := Apply(s, a);
      && t.alive <= s.alive && (t.running <==> s.running && !a.Destroy?)
      && (t.alive > 0 ==> Rounds(t) == Rounds(s) + if a.Destroy? then 1 else 0)
  {
    hide Sum, LockOk, CountsOk, TokensOk, StayOk, OrderOk, OnceOk, WaitersOk, WorkerStep, WaiterStep;
    if a.Destroy? {
      HeGoesOn(s);
    } else {
      OthersLeaveHim(s, a);
    }
  }

  lemma {:induction false} RoundsFollowSteps(s: State, run: seq<Action>)
    requires Inv(s) && CanRun(s, run)
    ensures var t := After(s, run);
      && Inv(t) && t.alive <= s.alive && (t.running <==> s.running && DestroySteps(run) == 0)
      && (t.alive > 0 ==> Rounds(t) == Rounds(s) + DestroySteps(run))
    decreases |run|
  {
    hide Inv, Enabled, Apply, Rounds;
    if run != [] {
      DestroyerGoesOn(s, run[0]);
      StepKeepsInv(s, run[0]);
      RoundsFollowSteps(Apply(s, run[0]), run[1..]);
    }
  }

  /** As long as workers are left, every third step of the destroyer after the
      call posts has_job, whatever the others do meanwhile. */
  lemma EveryThirdStepPosts(s0: State, run: seq<Action>)
    requires Init(s0) && CanRun(s0, run)
    ensures var t := After(s0, run);
      && (t.running <==> DestroySteps(run) == 0)
      && (t.alive > 0 ==> t.posts == DestroySteps(run) / 3)
  {
    InitOk(s0);
    RoundsFollowSteps(s0, run);
  }

  lemma {:induction false} DestroyStepsJoined(first: seq<Action>, second: seq<Action>)
    ensures DestroySteps(first + second) == DestroySteps(first) + DestroySteps(second)
  {
    if first == [] {
      assert first + second == second;
    } else {
      assert (first + second)[1..] == first[1..] + second;
      DestroyStepsJoined(first[1..], second);
    }
  }

  /** Once the destroyer has gone round its loop the token cascade never dries
      up, so a pool at rest has no live worker left. */
  lemma ShutdownEmptiesThePool(s0: State, run: seq<Action>)
    requires Init(s0) && CanRun(s0, run) && DestroySteps(run) >= 3
    ensures var t := After(s0, run);
      && (t.alive > 0 ==> t.hasJob + Sum(t.workers, Returning) >= 1)
      && (Stuck(t) ==> t.alive == 0)
  {
    hide After;
    EveryThirdStepPosts(s0, run);
    InitOk(s0);
    RunKeepsInv(s0, run);
    var t := After(s0, run);
    if t.alive > 0 {
      SomeoneStays(t);
    }
  }

  lemma SomeoneStays(t: State)
    requires Inv(t) && !t.running && t.posts > 0 && t.alive > 0
    ensures !Stuck(t)
  {
    if Stuck(t) {
      StuckWorkersWait(t);
      SumIsZero(t.workers, Returning);
      SumIsZero(t.workers, Alive);
    }
  }

  // ---------- The bound ----------

  function InternalSteps(run: seq<Action>): nat {
    if run == [] then 0 else (if Internal(run[0]) then 1 else 0) + InternalSteps(run[1..])
  }

  // The steps that bring something new from outside: calls of thpool_wait and thpool_add_work, spurious wakeups.
  function Arrivals(run: seq<Action>): nat {
    if run == [] then 0 else (if Internal(run[0]) || run[0].Destroy? then 0 else 1) + Arrivals(run[1..])
  }

  // Once running is false the destroyer's posts give the pool no more to do.
  lemma StepAfterShutdown(s: State, a: Action)
    requires Inv(s) && !s.running && Enabled(s, a)
    ensures var t := Apply(s, a);
      && !t.running && t.posts >= s.posts
      && Remaining(t) <= Remaining(s) + (if Internal(a) then -1 else if a.Destroy? then 0 else 4)
  {
    hide Sum, LeftToExit, LeftToWait;
    if Internal(a) {
      hide Remaining;
      InternalProgress(s, a);
    } else if a.CallWait? {
      WaiterGetsIn(s, a.caller, WantLock);
    } else if a.Spurious? {
      WaiterGetsIn(s, a.sleeper, Woken);
    }
  }

  lemma WaiterGetsIn(s: State, w: nat, pc: Waiter)
    requires w < |s.waiters|
    ensures Sum(s.waiters[w := pc], LeftToWait) <= Sum(s.waiters, LeftToWait) + 4
  {
    SumUpdate(s.waiters, w, pc, LeftToWait);
  }

  lemma {:induction false} StepsAfterShutdown(s: State, run: seq<Action>)
    requires Inv(s) && !s.running && CanRun(s, run)
    ensures var t := After(s, run);
      && Inv(t) && !t.running && t.posts >= s.posts
      && InternalSteps(run) + Remaining(t) <= Remaining(s) + 4 * Arrivals(run)
    decreases |run|
  {
    hide Inv, Remaining, Enabled, Apply;
    if run != [] {
      StepAfterShutdown(s, run[0]);
      StepKeepsInv(s, run[0]);
      StepsAfterShutdown(Apply(s, run[0]), run[1..]);
    }
  }

  /** Whatever else happens once the destroyer has gone round its loop, his
      further posts included, the workers and callers take at most Remaining(t)
      steps, and four more for each call and spurious wakeup; if they take that
      many, every worker has gone.  Until then one of them can always take a step. */
  lemma ShutdownTakesBoundedSteps(s0: State, run: seq<Action>, more: seq<Action>)
    requires Init(s0) && CanRun(s0, run) && DestroySteps(run) >= 3 && CanRun(After(s0, run), more)
    ensures var t := After(s0, run); var u, most := After(t, more), Remaining(t) + 4 * Arrivals(more);
      && InternalSteps(more) <= most
      && (InternalSteps(more) == most ==> u.alive == 0)
      && (u.alive > 0 ==> exists a :: Internal(a) && Enabled(u, a))
  {
    hide Inv, Remaining, Enabled, Apply, After;
    var t := After(s0, run);
    EveryThirdStepPosts(s0, run);
    InitOk(s0);
    RunKeepsInv(s0, run);
    StepsAfterShutdown(t, more);
    var u := After(t, more);
    Chain(s0, run, more);
    DestroyStepsJoined(run, more);
    ShutdownEmptiesThePool(s0, run + more);
    if Remaining(u) == 0 {
      NothingRemains(u);
    }
  }

  lemma NothingRemains(s: State)
    requires Inv(s) && Remaining(s) == 0
    ensures Stuck(s)
  {
    hide Remaining, Enabled, Apply;
    forall a | Internal(a) ensures !Enabled(s, a) {
      if Enabled(s, a) {
        InternalProgress(s, a);
      }
    }
  }

  // The destroyer's steps to the end once nobody is alive.
  function StepsToFinish(d: Destroyer): nat {
    match d
    case NotCalled => 3
    case Post => 4
    case Sleep => 3
    case AliveTest => 2
    case Clear => 1
    case Finished => 0
  }

  lemma {:induction false} NobodyLeft(s: State, run: seq<Action>)
    requires Inv(s) && s.alive == 0 && CanRun(s, run)
    ensures StepsToFinish(After(s, run).destroyer) == StepsToFinish(s.destroyer) - DestroySteps(run)
    decreases |run|
  {
    hide Inv, Enabled;
    if run != [] {
      StepKeepsInv(s, run[0]);
      StepWithNobodyLeft(s, run[0]);
      NobodyLeft(Apply(s, run[0]), run[1..]);
    }
  }

  lemma StepWithNobodyLeft(s: State, a: Action)
    requires Inv(s) && s.alive == 0 && Enabled(s, a)
    ensures Apply(s, a).alive == 0
    ensures StepsToFinish(Apply(s, a).destroyer) == StepsToFinish(s.destroyer) - if a.Destroy? then 1 else 0
  {
    hide Inv, WorkerStep, WaiterStep;
    StepKeepsInv(s, a);
    AliveIsCounted(Apply(s, a));
    if !a.Destroy? {
      OthersLeaveHim(s, a);
    }
  }

  /** thpool_destroy returns in every run in which the destroyer goes round its
      loop, the pool then comes to rest, as it must after boundedly many steps,
      and the destroyer takes four more. */
  lemma DestroyReturns(s0: State, run: seq<Action>, work: seq<Action>, last: seq<Action>)
    requires Init(s0) && CanRun(s0, run) && DestroySteps(run) >= 3
    requires CanRun(After(s0, run), work) && Stuck(After(After(s0, run), work))
    requires CanRun(After(After(s0, run), work), last)
    ensures var v := After(After(After(s0, run), work), last);
      v.destroyer.Finished? || (DestroySteps(last) < 4 && Enabled(v, Destroy))
  {
    hide Inv, Apply, After, Stuck, Init;
    Chain(s0, run, work);
    DestroyStepsJoined(run, work);
    ShutdownEmptiesThePool(s0, run + work);
    InitOk(s0);
    RunKeepsInv(s0, run + work);
    NobodyLeft(After(s0, run + work), last);
  }

  /** And it always can: from every state after the call some continuation ends
      with the pool destroyed. */
  lemma DestroyCanReturn(s0: State, run: seq<Action>) returns (t: State)
    requires Init(s0) && CanRun(s0, run) && DestroySteps(run) > 0
    ensures Reaches(After(s0, run), t) && t.destroyer.Finished?
  {
    hide Reaches, After;
    EveryThirdStepPosts(s0, run);
    InitOk(s0);
    RunKeepsInv(s0, run);
    var s := After(s0, run);
    Starts(s);
    t := s;
    if s.alive > 0 {
      t := PostsOnce(s);
      t := Empties(s, t);
    }
    t := Ends(s, t);
  }

  lemma PostsOnce(s: State) returns (t: State)
    requires Inv(s) && !s.running && s.alive > 0
    ensures Reaches(s, t) && Inv(t) && !t.running && t.posts > 0
  {
    hide Reaches, Inv;
    CalledAndNotCleared(s);
    Starts(s);
    t := s;
    if t.destroyer.AliveTest? {
      StepKeepsInv(t, Destroy);
      t := Go(s, t, Destroy);
    }
    if t.destroyer.Post? {
      StepKeepsInv(t, Destroy);
      t := Go(s, t, Destroy);
    }
  }

  lemma CalledAndNotCleared(s: State)
    requires Inv(s) && !s.running && s.alive > 0
    ensures s.destroyer.AliveTest? || s.destroyer.Post? || (s.destroyer.Sleep? && s.posts > 0)
  {}

  lemma {:induction false} Empties(s: State, t: State) returns (t': State)
    requires Reaches(s, t) && Inv(t) && !t.running && t.posts > 0
    ensures Reaches(s, t') && Inv(t') && !t'.running && t'.alive == 0
    decreases Remaining(t)
  {
    hide Reaches, Inv, Remaining, Enabled, Apply;
    t' := t;
    AliveIsCounted(t);
    if t.alive > 0 {
      SomeoneStays(t);
      var a :| Internal(a) && Enabled(t, a);
      StepKeepsInv(t, a);
      StepAfterShutdown(t, a);
      t' := Go(s, t, a);
      t' := Empties(s, t');
    }
  }

  lemma AliveIsCounted(s: State)
    requires Inv(s)
    ensures s.alive >= 0
  {}

  lemma Ends(s: State, t: State) returns (t': State)
    requires Reaches(s, t) && t.alive == 0 && !t.destroyer.NotCalled?
    ensures Reaches(s, t') && t'.destroyer.Finished?
    decreases StepsToFinish(t.destroyer)
  {
    hide Reaches;
    t' := t;
    if !t.destroyer.Finished? {
      t' := Go(s, t, Destroy);
      t' := Ends(s, t');
    }
  }

  /** No worker touches the job queue once jobqueue_destroy has started, and
      only the holder of count_locker can still be on its way out. */
  lemma NobodyUsesADestroyedQueue(s0: State, run: seq<Action>)
    requires Init(s0) && CanRun(s0, run)
    requires After(s0, run).destroyer.Clear? || After(s0, run).destroyer.Finished?
    ensures var t := After(s0, run);
      forall i :: 0 <= i < |t.workers| ==> t.workers[i].Exited? || (t.workers[i].ExitUnlock? && t.lock == ByWorker(i))
  {
    InitOk(s0);
    RunKeepsInv(s0, run);
    WorkersGone(After(s0, run));
  }

  // ---------- What goes wrong at shutdown ----------

  /** Whenever the destroyer has finished, and so freed count_locker, no worker holds that lock. */
  ghost predicate SafeDestroy(nWorkers: nat, nWaiters: nat) {
    forall s: State, run: seq<Action> ::
      Init(s) && |s.workers| == nWorkers && |s.waiters| == nWaiters
      && CanRun(s, run) && After(s, run).destroyer.Finished?
      ==> forall w :: w in After(s, run).workers ==> !WorkerHolds(w)
  }

  // The pool shutting down, its first k workers gone, the others about to look at running.
  ghost predicate ClosingDown(t: State, n: nat, k: nat) {
    && k <= n == |t.workers| && t.alive == n - k && t.lock.Free? && !t.running && t.destroyer.AliveTest?
    && (forall i :: 0 <= i < k ==> t.workers[i] == Exited)
    && (forall i :: k <= i < n ==> t.workers[i] == LoopTest)
  }

  // The next worker sees running == 0 and counts itself out, still holding count_locker.
  lemma CountsItselfOut(s: State, t: State, n: nat, k: nat) returns (t': State)
    requires Reaches(s, t) && ClosingDown(t, n, k) && k < n
    ensures Reaches(s, t') && t'.workers == t.workers[k := ExitUnlock]
    ensures t' == t.(workers := t'.workers, alive := t.alive - 1, lock := ByWorker(k))
  {
    hide Reaches;
    t' := Go(s, t, Work(k, 0));
    t' := Go(s, t', Work(k, 0));
    t' := Go(s, t', Work(k, 0));
  }

  lemma {:induction false} AllButOneLeave(s: State, t: State, n: nat, k: nat) returns (t': State)
    requires Reaches(s, t) && ClosingDown(t, n, k) && k < n
    ensures Reaches(s, t') && ClosingDown(t', n, n - 1)
    decreases n - k
  {
    hide Reaches;
    if k == n - 1 {
      return t;
    }
    t' := CountsItselfOut(s, t, n, k);
    t' := Go(s, t', Work(k, 0));
    t' := AllButOneLeave(s, t', n, k + 1);
  }

  lemma ShutsDown(s: State) returns (t: State)
    requires Init(s) && s.lock.Free? && forall i :: 0 <= i < |s.workers| ==> s.workers[i] == LoopTest
    ensures Reaches(s, t) && ClosingDown(t, |s.workers|, 0)
  {
    Starts(s);
    hide Reaches;
    t := Go(s, s, Destroy);
  }

  // The destroyer reads thread_alive == 0 and frees everything.
  lemma Frees(s: State, t: State) returns (t': State)
    requires Reaches(s, t) && t.alive == 0 && t.destroyer.AliveTest?
    ensures Reaches(s, t') && t'.destroyer.Finished? && t'.workers == t.workers && t'.lock == t.lock
  {
    hide Reaches;
    t' := Go(s, t, Destroy);
    t' := Go(s, t', Destroy);
  }

  /** In a pool of any size the destroyer can free the pool, count_locker
      included, while the last worker still holds that lock. */
  lemma DestroyRacesWithTheLastWorker(nWorkers: nat, nWaiters: nat) returns (s: State, t: State)
    requires nWorkers >= 1
    ensures Init(s) && |s.workers| == nWorkers && |s.waiters| == nWaiters && Reaches(s, t)
    ensures t.destroyer.Finished? && |t.workers| == nWorkers
    ensures t.workers[nWorkers - 1] == ExitUnlock && t.lock == ByWorker(nWorkers - 1)
  {
    s := FreshPool(nWorkers, nWaiters);
    hide Reaches;
    t := ShutsDown(s);
    t := AllButOneLeave(s, t, nWorkers, 0);
    t := CountsItselfOut(s, t, nWorkers, nWorkers - 1);
    t := Frees(s, t);
  }

  /** So destroying is free of that race exactly for a pool without workers. */
  lemma SafeDestroyIffNoWorkers(nWorkers: nat, nWaiters: nat)
    ensures SafeDestroy(nWorkers, nWaiters) <==> nWorkers == 0
  {
    if nWorkers > 0 {
      var s, t := DestroyRacesWithTheLastWorker(nWorkers, nWaiters);
      var run :| CanRun(s, run) && After(s, run) == t;
      assert t.workers[nWorkers - 1] in t.workers && WorkerHolds(ExitUnlock);
      assert !SafeDestroy(nWorkers, nWaiters);
    } else {
      NoWorkersSafe(nWaiters);
    }
  }

  lemma NoWorkersSafe(nWaiters: nat)
    ensures SafeDestroy(0, nWaiters)
  {
    forall s: State, run: seq<Action>
      | Init(s) && |s.workers| == 0 && |s.waiters| == nWaiters && CanRun(s, run) && After(s, run).destroyer.Finished?
      ensures forall w :: w in After(s, run).workers ==> !WorkerHolds(w)
    {
      WorkersAreKept(s, run);
    }
  }
}
