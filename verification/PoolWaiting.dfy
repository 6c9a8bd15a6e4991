/** thpool_wait returns only when the work is done. */
module PoolWaiting {
  import opened ThreadPool

  // From the call on, a mark of waiter w covers everything pushed before the call.
  predicate MarkCovers(w: Waiter, pushed: nat) {
    match w
    case TestWorking(mark) => pushed <= mark
    case Leaving(mark) => pushed <= mark
    case Returned(mark) => pushed <= mark
    case _ => true
  }

  lemma {:induction false} MarkStaysCovering(s: State, run: seq<Action>, w: nat, pushed: nat)
    requires CanRun(s, run) && w < |s.waiters| && pushed <= s.pushed && MarkCovers(s.waiters[w], pushed)
    ensures |After(s, run).waiters| == |s.waiters| && MarkCovers(After(s, run).waiters[w], pushed)
    decreases |run|
  {
    if run != [] {
      StepKeepsCovering(s, run[0], w, pushed);
      MarkStaysCovering(Apply(s, run[0]), run[1..], w, pushed);
    }
  }

  lemma StepKeepsCovering(s: State, a: Action, w: nat, pushed: nat)
    requires Enabled(s, a) && w < |s.waiters| && pushed <= s.pushed && MarkCovers(s.waiters[w], pushed)
    ensures var t := Apply(s, a);
      |t.waiters| == |s.waiters| && pushed <= t.pushed && MarkCovers(t.waiters[w], pushed)
  {
    hide WorkerStep, WaiterStep, DestroyStep;
    match a
    case Work(i, wake) => WorkerStepWakes(s, i, wake);
    case Wait(v) =>
      WaiterStepTouches(s, v);
      if v == w {
        WaiterStepCovers(s, w, pushed);
      }
    case Destroy => DestroyStepTouches(s);
    case _ =>
  }

  lemma WaiterStepCovers(s: State, w: nat, pushed: nat)
    requires w < |s.waiters| && pushed <= s.pushed && MarkCovers(s.waiters[w], pushed)
    ensures |WaiterStep(s, w).waiters| == |s.waiters| && MarkCovers(WaiterStep(s, w).waiters[w], pushed)
  {}

  /** In every interleaving: when a call of thpool_wait made in state s returns,
      every job pushed before the call has finished, unless the destroyer threw
      it away. */
  lemma WaitCoversEarlierJobs(s0: State, before: seq<Action>, during: seq<Action>, w: nat)
    requires Init(s0) && CanRun(s0, before)
    requires var s := After(s0, before); w < |s.waiters| && s.waiters[w].WantLock? && CanRun(s, during)
    ensures var s, t := After(s0, before), After(After(s0, before), during);
      && w < |t.waiters|
      && (t.waiters[w].Returned? ==> forall j: nat :: j < s.pushed ==> j in t.done || j in t.dropped)
  {
    var s := After(s0, before);
    InitOk(s0);
    RunKeepsInv(s0, before);
    RunKeepsInv(s, during);
    MarkStaysCovering(s, during, w, s.pushed);
    assert WaiterOk(After(s, during), After(s, during).waiters[w]);
  }

  /** At the moment thpool_wait lets go of count_locker, no job is running and
      every job pushed when it last read len has finished or been dropped. */
  lemma WaitReturnsIdle(s0: State, run: seq<Action>, w: nat)
    requires Init(s0) && CanRun(s0, run)
    requires w < |After(s0, run).waiters| && After(s0, run).waiters[w].Leaving?
    ensures var t := After(s0, run);
      && (forall i :: 0 <= i < |t.workers| ==> !t.workers[i].Running?)
      && (forall j: nat :: j < t.waiters[w].mark ==> j in t.done || j in t.dropped)
  {
    InitOk(s0);
    RunKeepsInv(s0, run);
    var t := After(s0, run);
    assert WaiterOk(t, t.waiters[w]);
    NobodyRuns(t);
    forall i | 0 <= i < |t.workers| ensures !t.workers[i].Running? {
      assert Counted(t.workers[i]) == 0;
    }
  }
}
