/** Joining whichever thread ends next: threads announce their end under a mutex
    and signal; main counts, scans and joins.  Every action is one atomic step. */
module Multijoin {
  import opened Counting

  datatype TState = Alive | Terminated | Joined

  // Where a thread stands in threadFunc.
  datatype Pc =
    | NotCreated
    | Sleeping
    | WantLock
    | Inc      // locked
    | Mark     // locked, counted but not yet marked
    | Unlock   // locked
    | Signal   // about to signal threadDied
    | Return
    | Gone     // ended: pthread_join succeeds

  datatype Thread = Thread(pc: Pc, state: TState)

  // Where main stands.
  datatype Main =
    | Create(next: nat)
    | SetLive
    | LoopTest
    | MainLock
    | TestUnjoined              // locked
    | CondWait                  // locked, about to release and sleep
    | Asleep
    | Woken                     // wants the mutex back
    | Scan(idx: nat)            // locked, as long as the scan goes on
    | Joining(idx: nat)         // locked, inside pthread_join
    | SetJoined(idx: nat)       // locked
    | DecLive(idx: nat)         // locked
    | DecUnjoined(idx: nat)     // locked
    | MainUnlock                // locked
    | Finished

  datatype Lock = Free | ByMain | ByThread(thread: nat)

  /** joins is history: the threads joined, in order. */
  datatype State = State(threads: seq<Thread>, main: Main, lock: Lock, numLive: int, numUnjoined: int, joins: seq<nat>)

  datatype Action = Run(thread: nat) | Go | Spurious

  predicate Enabled(s: State, a: Action) {
    match a
    case Run(i) =>
      && i < |s.threads| && !s.threads[i].pc.NotCreated? && !s.threads[i].pc.Gone?
      && (s.threads[i].pc.WantLock? ==> s.lock.Free?)
    case Go =>
      && !s.main.Asleep? && !s.main.Finished?
      && (s.main.MainLock? || s.main.Woken? ==> s.lock.Free?)
      && (s.main.Joining? ==> s.main.idx < |s.threads| && s.threads[s.main.idx].pc.Gone?)
      && (s.main.SetJoined? ==> s.main.idx < |s.threads|)
    case Spurious => s.main.Asleep?
  }

  function NextPc(pc: Pc): Pc {
    match pc
    case NotCreated => NotCreated
    case Sleeping => WantLock
    case WantLock => Inc
    case Inc => Mark
    case Mark => Unlock
    case Unlock => Signal
    case Signal => Return
    case Return => Gone
    case Gone => Gone
  }

  function ThreadStep(s: State, i: nat): State
    requires Enabled(s, Run(i))
  {
    var t := s.threads[i];
    s.(threads := s.threads[i := Thread(NextPc(t.pc), if t.pc.Mark? then Terminated else t.state)],
       lock := if t.pc.WantLock? then ByThread(i) else if t.pc.Unlock? then Free else s.lock,
       numUnjoined := if t.pc.Inc? then s.numUnjoined + 1 else s.numUnjoined,
       main := if t.pc.Signal? && s.main.Asleep? then Woken else s.main)
  }

  function NextMain(s: State): Main {
    match s.main
    case Create(k) => if k < |s.threads| then Create(k + 1) else SetLive
    case SetLive => LoopTest
    case LoopTest => if s.numLive != 0 then MainLock else Finished
    case MainLock => TestUnjoined
    case TestUnjoined => if s.numUnjoined == 0 then CondWait else Scan(0)
    case CondWait => Asleep
    case Asleep => Asleep
    case Woken => TestUnjoined
    case Scan(i) => if i >= |s.threads| then MainUnlock
      else if s.threads[i].state.Terminated? then Joining(i) else Scan(i + 1)
    case Joining(i) => SetJoined(i)
    case SetJoined(i) => DecLive(i)
    case DecLive(i) => DecUnjoined(i)
    case DecUnjoined(i) => Scan(i + 1)
    case MainUnlock => LoopTest
    case Finished => Finished
  }

  function MainStep(s: State): State
    requires Enabled(s, Go)
  {
    var m := s.main;
    s.(main := NextMain(s),
       threads := if m.Create? && m.next < |s.threads| then s.threads[m.next := Thread(Sleeping, Alive)]
                  else if m.SetJoined? then s.threads[m.idx := s.threads[m.idx].(state := Joined)] else s.threads,
       lock := if m.MainLock? || m.Woken? then ByMain else if m.CondWait? || m.MainUnlock? then Free else s.lock,
       numLive := if m.SetLive? then |s.threads| else if m.DecLive? then s.numLive - 1 else s.numLive,
       numUnjoined := if m.DecUnjoined? then s.numUnjoined - 1 else s.numUnjoined,
       joins := if m.Joining? then s.joins + [m.idx] else s.joins)
  }

  function Apply(s: State, a: Action): State
    requires Enabled(s, a)
  {
    match a
    case Run(i) => ThreadStep(s, i)
    case Go => MainStep(s)
    case Spurious => s.(main := Woken)
  }

  predicate Init(s: State) {
    && (forall i :: 0 <= i < |s.threads| ==> s.threads[i] == Thread(NotCreated, Alive))
    && s.main == Create(0) && s.lock.Free? && s.numLive == 0 && s.numUnjoined == 0 && s.joins == []
  }

  predicate CanRun(s: State, run: seq<Action>)
    decreases |run|
  {
    run == [] || (Enabled(s, run[0]) && CanRun(Apply(s, run[0]), run[1..]))
  }

  function After(s: State, run: seq<Action>): State
    requires CanRun(s, run)
    decreases |run|
  {
    if run == [] then s else After(Apply(s, run[0]), run[1..])
  }

  // ---------- What every step keeps ----------

  predicate ThreadHolds(pc: Pc) { pc.Inc? || pc.Mark? || pc.Unlock? }

  predicate MainHolds(m: Main) {
    m.TestUnjoined? || m.CondWait? || m.Scan? || m.Joining? || m.SetJoined?
    || m.DecLive? || m.DecUnjoined? || m.MainUnlock?
  }

  ghost predicate LockOk(s: State) {
    && (forall i :: 0 <= i < |s.threads| ==> (ThreadHolds(s.threads[i].pc) <==> s.lock == ByThread(i)))
    && (MainHolds(s.main) <==> s.lock == ByMain)
    && (s.lock.ByThread? ==> s.lock.thread < |s.threads|)
  }

  // A thread is marked once it has passed Mark, and joined only after its end.
  predicate ThreadOk(t: Thread) {
    && (t.state.Alive? <==> t.pc.NotCreated? || t.pc.Sleeping? || t.pc.WantLock? || t.pc.Inc? || t.pc.Mark?)
    && (t.state.Joined? ==> t.pc.Gone?)
  }

  ghost predicate ThreadsOk(s: State) {
    && (forall i :: 0 <= i < |s.threads| ==> ThreadOk(s.threads[i]))
    && (forall i :: 0 <= i < |s.threads| ==> (s.threads[i].pc.NotCreated? <==> s.main.Create? && i >= s.main.next))
    && (s.main.Create? ==> s.main.next <= |s.threads|)
  }

  function IsTerminated(t: Thread): nat { if t.state.Terminated? then 1 else 0 }
  function AtMark(t: Thread): nat { if t.pc.Mark? then 1 else 0 }
  function NotJoined(t: Thread): nat { if t.state.Joined? then 0 else 1 }

  ghost predicate CountsOk(s: State) {
    && s.numUnjoined == Sum(s.threads, IsTerminated) + Sum(s.threads, AtMark)
       + (if s.main.DecLive? || s.main.DecUnjoined? then 1 else 0)
    && (s.main.Create? || s.main.SetLive? || s.numLive == Sum(s.threads, NotJoined) + if s.main.DecLive? then 1 else 0)
    && (s.main.Create? || s.main.SetLive? ==> Sum(s.threads, NotJoined) == |s.threads|)
  }

  predicate MainHasIdx(m: Main) { m.Scan? || m.Joining? || m.SetJoined? || m.DecLive? || m.DecUnjoined? }

  predicate AboutToWait(m: Main) { m.MainLock? || m.TestUnjoined? || m.CondWait? || m.Asleep? || m.Woken? }

  ghost predicate MainOk(s: State) {
    && (MainHasIdx(s.main) ==>
         s.main.idx <= |s.threads| && forall j :: 0 <= j < s.main.idx ==> !s.threads[j].state.Terminated?)
    && (s.main.Joining? || s.main.SetJoined? ==> s.main.idx < |s.threads| && s.threads[s.main.idx].state.Terminated?)
    && (s.main.SetJoined? ==> s.threads[s.main.idx].pc.Gone?)
    && (s.main.DecLive? || s.main.DecUnjoined? ==> s.main.idx < |s.threads| && s.threads[s.main.idx].state.Joined?)
    && (s.main.MainUnlock? ==> forall j :: 0 <= j < |s.threads| ==> !s.threads[j].state.Terminated?)
    && (AboutToWait(s.main) ==> s.numLive != 0)
    && (s.main.Finished? ==> s.numLive == 0)
  }

  // When main goes to sleep no thread is marked; while it sleeps every marked thread still has its signal to send.
  ghost predicate SleepOk(s: State) {
    && (s.main.CondWait? ==> forall i :: 0 <= i < |s.threads| ==> !s.threads[i].state.Terminated?)
    && (s.main.Asleep? ==>
         forall i :: 0 <= i < |s.threads| && s.threads[i].state.Terminated? ==>
           s.threads[i].pc.Unlock? || s.threads[i].pc.Signal?)
  }

  ghost predicate JoinsOk(s: State) {
    && (forall i :: 0 <= i < |s.threads| ==>
         multiset(s.joins)[i] == if s.threads[i].state.Joined? || s.main == SetJoined(i) then 1 else 0)
    && (forall i :: i in s.joins ==> i < |s.threads|)
  }

  ghost predicate Inv(s: State) {
    LockOk(s) && ThreadsOk(s) && CountsOk(s) && MainOk(s) && SleepOk(s) && JoinsOk(s)
  }

  lemma InitOk(s: State)
    requires Init(s)
    ensures Inv(s)
  {
    SumIsZero(s.threads, IsTerminated);
    SumIsZero(s.threads, AtMark);
    AllNotJoined(s.threads);
  }

  lemma {:induction false} AllNotJoined(ts: seq<Thread>)
    requires forall i :: 0 <= i < |ts| ==> !ts[i].state.Joined?
    ensures Sum(ts, NotJoined) == |ts|
  {
    if ts != [] {
      assert !ts[0].state.Joined?;
      AllNotJoined(ts[1..]);
    }
  }

  lemma LockKept(s: State, a: Action)
    requires LockOk(s) && ThreadsOk(s) && MainOk(s) && Enabled(s, a)
    ensures LockOk(Apply(s, a))
  {}

  lemma ThreadsKept(s: State, a: Action)
    requires ThreadsOk(s) && MainOk(s) && Enabled(s, a)
    ensures ThreadsOk(Apply(s, a))
  {}

  lemma MainKept(s: State, a: Action)
    requires ThreadsOk(s) && MainOk(s) && LockOk(s) && Enabled(s, a)
    ensures MainOk(Apply(s, a))
  {}

  lemma SleepKept(s: State, a: Action)
    requires Inv(s) && Enabled(s, a)
    ensures SleepOk(Apply(s, a))
  {
    hide Sum, JoinsOk;
    if a.Go? && s.main.TestUnjoined? && s.numUnjoined == 0 {
      forall i | 0 <= i < |s.threads| ensures !s.threads[i].state.Terminated? {
        SumAtLeast(s.threads, i, IsTerminated);
      }
    }
  }

  lemma CountsKept(s: State, a: Action)
    requires CountsOk(s) && ThreadsOk(s) && MainOk(s) && Enabled(s, a)
    ensures CountsOk(Apply(s, a))
  {
    hide Sum;
    match a
    case Run(i) =>
      ThreadKeepsCounts(s, i);
    case Go =>
      if s.main.Create? && s.main.next < |s.threads| {
        TouchCounts(s, s.main.next, Thread(Sleeping, Alive));
      } else if s.main.SetJoined? {
        TouchCounts(s, s.main.idx, s.threads[s.main.idx].(state := Joined));
      }
    case Spurious =>
  }

  lemma TouchCounts(s: State, i: nat, t: Thread)
    requires i < |s.threads|
    ensures Sum(s.threads[i := t], IsTerminated) + IsTerminated(s.threads[i])
      == Sum(s.threads, IsTerminated) + IsTerminated(t)
    ensures Sum(s.threads[i := t], AtMark) + AtMark(s.threads[i]) == Sum(s.threads, AtMark) + AtMark(t)
    ensures Sum(s.threads[i := t], NotJoined) + NotJoined(s.threads[i]) == Sum(s.threads, NotJoined) + NotJoined(t)
  {
    SumUpdate(s.threads, i, t, IsTerminated);
    SumUpdate(s.threads, i, t, AtMark);
    SumUpdate(s.threads, i, t, NotJoined);
  }

  lemma ThreadKeepsCounts(s: State, i: nat)
    requires CountsOk(s) && ThreadsOk(s) && Enabled(s, Run(i))
    ensures CountsOk(ThreadStep(s, i))
  {
    hide Sum;
    TouchCounts(s, i, ThreadStep(s, i).threads[i]);
  }

  lemma JoinsKept(s: State, a: Action)
    requires JoinsOk(s) && ThreadsOk(s) && MainOk(s) && Enabled(s, a)
    ensures JoinsOk(Apply(s, a))
  {
    match a
    case Run(i) => ThreadKeepsJoins(s, i);
    case Go => MainKeepsJoins(s);
    case Spurious =>
  }

  lemma ThreadKeepsJoins(s: State, i: nat)
    requires JoinsOk(s) && ThreadsOk(s) && Enabled(s, Run(i))
    ensures JoinsOk(ThreadStep(s, i))
  {
    var t := ThreadStep(s, i);
    assert ThreadOk(s.threads[i]);
    forall j | 0 <= j < |t.threads| ensures t.threads[j].state.Joined? <==> s.threads[j].state.Joined? {}
  }

  lemma MainKeepsJoins(s: State)
    requires JoinsOk(s) && ThreadsOk(s) && MainOk(s) && Enabled(s, Go)
    ensures JoinsOk(MainStep(s))
  {
    if s.main.Joining? {
      JoinBegun(s);
    } else if s.main.SetJoined? {
      JoinNoted(s);
    } else if s.main.Create? && s.main.next < |s.threads| {
      assert ThreadOk(s.threads[s.main.next]);
    }
  }

  lemma JoinBegun(s: State)
    requires JoinsOk(s) && MainOk(s) && Enabled(s, Go) && s.main.Joining?
    ensures JoinsOk(MainStep(s))
  {
    var t, k := MainStep(s), s.main.idx;
    assert multiset(t.joins) == multiset(s.joins) + multiset{k};
    assert s.threads[k].state.Terminated? && t.threads == s.threads && t.main == SetJoined(k);
  }

  lemma JoinNoted(s: State)
    requires JoinsOk(s) && MainOk(s) && Enabled(s, Go) && s.main.SetJoined?
    ensures JoinsOk(MainStep(s))
  {}

  lemma StepKeepsInv(s: State, a: Action)
    requires Inv(s) && Enabled(s, a)
    ensures Inv(Apply(s, a))
  {
    hide Apply;
    LockKept(s, a);
    ThreadsKept(s, a);
    MainKept(s, a);
    SleepKept(s, a);
    CountsKept(s, a);
    JoinsKept(s, a);
  }

  lemma {:induction false} RunKeepsInv(s: State, run: seq<Action>)
    requires Inv(s) && CanRun(s, run)
    ensures Inv(After(s, run))
    decreases |run|
  {
    hide Inv, Apply;
    if run != [] {
      StepKeepsInv(s, run[0]);
      RunKeepsInv(Apply(s, run[0]), run[1..]);
    }
  }

  // ---------- The main results ----------

  /** Whenever the mutex is free, numUnjoined is the number of threads that have
      ended and are not joined, and numLive the number not joined. */
  lemma CountersAreRight(s0: State, run: seq<Action>)
    requires Init(s0) && CanRun(s0, run) && After(s0, run).lock.Free?
    ensures var s := After(s0, run);
      && s.numUnjoined == Sum(s.threads, IsTerminated)
      && (s.main.Create? || s.main.SetLive? || s.numLive == Sum(s.threads, NotJoined))
  {
    InitOk(s0);
    RunKeepsInv(s0, run);
    var s := After(s0, run);
    SumIsZero(s.threads, AtMark);
  }

  /** main never sleeps through an ended thread: if one waits to be joined, a
      signal to main is still due. */
  lemma NoMissedWakeup(s0: State, run: seq<Action>)
    requires Init(s0) && CanRun(s0, run)
    ensures var s := After(s0, run);
      s.main.Asleep? && s.numUnjoined > 0 ==>
        exists i :: 0 <= i < |s.threads|
          && (s.threads[i].pc.Mark? || s.threads[i].pc.Unlock? || s.threads[i].pc.Signal?)
  {
    InitOk(s0);
    RunKeepsInv(s0, run);
    var s := After(s0, run);
    if s.main.Asleep? && s.numUnjoined > 0 {
      if Sum(s.threads, AtMark) > 0 {
        var i := SumWitness(s.threads, AtMark);
        assert s.threads[i].pc.Mark?;
      } else {
        var i := SumWitness(s.threads, IsTerminated);
        assert s.threads[i].pc.Unlock? || s.threads[i].pc.Signal?;
      }
    }
  }

  /** Until main is finished somebody can always take a step; in particular
      joining under the mutex cannot deadlock, since a thread past its mark needs it no more. */
  lemma NeverStuck(s0: State, run: seq<Action>)
    requires Init(s0) && CanRun(s0, run) && !After(s0, run).main.Finished?
    ensures exists a: Action :: !a.Spurious? && Enabled(After(s0, run), a)
  {
    InitOk(s0);
    RunKeepsInv(s0, run);
    var s := After(s0, run);
    hide After, CanRun;
    if s.main.Joining? {
      JoinGoesOn(s);
    } else if s.lock.ByThread? {
      assert Enabled(s, Run(s.lock.thread));
    } else if s.main.Asleep? {
      SleeperHasCompany(s);
    } else {
      assert Enabled(s, Go);
    }
  }

  lemma JoinGoesOn(s: State)
    requires Inv(s) && s.main.Joining?
    ensures Enabled(s, Go) || Enabled(s, Run(s.main.idx))
  {
    assert ThreadOk(s.threads[s.main.idx]);
  }

  // While main sleeps some thread has not ended: else all would be joined.
  lemma SleeperHasCompany(s: State)
    requires Inv(s) && s.main.Asleep? && s.lock.Free?
    ensures exists i: nat :: Enabled(s, Run(i))
  {
    hide Sum, JoinsOk;
    LiveWhileAsleep(s);
    var i := SumWitness(s.threads, NotJoined);
    assert ThreadOk(s.threads[i]);
    assert Enabled(s, Run(i));
  }

  lemma LiveWhileAsleep(s: State)
    requires Inv(s) && s.main.Asleep?
    ensures Sum(s.threads, NotJoined) > 0
  {}

  /** When main finishes, every thread has been joined exactly once. */
  lemma EachJoinedOnce(s0: State, run: seq<Action>)
    requires Init(s0) && CanRun(s0, run) && After(s0, run).main.Finished?
    ensures var s := After(s0, run);
      && (forall i :: 0 <= i < |s.threads| ==> s.threads[i].pc.Gone? && multiset(s.joins)[i] == 1)
      && (forall i :: i in s.joins ==> i < |s.threads|)
  {
    InitOk(s0);
    RunKeepsInv(s0, run);
    var s := After(s0, run);
    forall i | 0 <= i < |s.threads| ensures s.threads[i].state.Joined? {
      SumAtLeast(s.threads, i, NotJoined);
    }
  }

  // ---------- Runs end ----------

  // How many steps a thread still has to take, its creation included.
  function Left(t: Thread): nat {
    match t.pc
    case NotCreated => 8
    case Sleeping => 7
    case WantLock => 6
    case Inc => 5
    case Mark => 4
    case Unlock => 3
    case Signal => 2
    case Return => 1
    case Gone => 0
  }

  // How many steps main can take before a thread has to; more if a scan will find a thread to join.
  function MainLeft(m: Main, n: nat, unjoined: bool): nat {
    var scan := if unjoined then 5 * n + 10 else 0;
    match m
    case Create(k) => 5 * n + 18 + if k < n then n - k else 0
    case SetLive => 5 * n + 17
    case LoopTest => 6 + scan
    case MainLock => 5 + scan
    case TestUnjoined => 4 + scan
    case CondWait => 3
    case Asleep => 2
    case Woken => 5 + scan
    case Scan(i) => 8 + if i < n then 5 * (n - i) else 0
    case Joining(i) => 7 + if i < n then 5 * (n - i) else 0
    case SetJoined(i) => 6 + if i < n then 5 * (n - i) else 0
    case DecLive(i) => 5 + if i < n then 5 * (n - i) else 0
    case DecUnjoined(i) => 4 + if i < n then 5 * (n - i) else 0
    case MainUnlock => 7
    case Finished => 0
  }

  // One step of a thread is worth this many of main's.
  function Worth(n: nat): nat { 6 * n + 20 }

  ghost function Measure(s: State): nat {
    Worth(|s.threads|) * Sum(s.threads, Left) + MainLeft(s.main, |s.threads|, s.numUnjoined > 0)
  }

  lemma NoneLeftOver(s: State)
    requires Inv(s)
    ensures s.numUnjoined >= 0 && (s.main.MainUnlock? ==> s.numUnjoined == 0)
  {
    if s.main.MainUnlock? {
      SumIsZero(s.threads, IsTerminated);
      SumIsZero(s.threads, AtMark);
    }
  }

  lemma MainDrops(s: State)
    requires Enabled(s, Go) && s.numUnjoined >= 0 && (s.main.MainUnlock? ==> s.numUnjoined == 0)
    requires s.main.Create? ==> s.main.next <= |s.threads|
    requires MainHasIdx(s.main) && !s.main.Scan? ==> s.main.idx < |s.threads|
    ensures var s' := MainStep(s);
      MainLeft(s'.main, |s.threads|, s'.numUnjoined > 0) < MainLeft(s.main, |s.threads|, s.numUnjoined > 0)
  {}

  // What another's step, or a wakeup, adds to main's share is worth less than a thread's step.
  lemma MainRises(m: Main, m': Main, n: nat, u: bool, u': bool)
    requires m' == m || (m.Asleep? && m'.Woken?)
    ensures MainLeft(m', n, u') < MainLeft(m, n, u) + Worth(n)
  {}

  lemma Times(w: nat, left: nat)
    ensures w * (left + 1) == w * left + w
  {}

  lemma ThreadDrops(s: State, i: nat)
    requires ThreadsOk(s) && Enabled(s, Run(i))
    ensures var s' := ThreadStep(s, i); |s'.threads| == |s.threads| && Sum(s'.threads, Left) + 1 == Sum(s.threads, Left)
  {
    SumUpdate(s.threads, i, ThreadStep(s, i).threads[i], Left);
  }

  lemma MainKeepsThreads(s: State)
    requires ThreadsOk(s) && MainOk(s) && Enabled(s, Go)
    ensures var s' := MainStep(s); |s'.threads| == |s.threads| && Sum(s'.threads, Left) <= Sum(s.threads, Left)
  {
    if s.main.Create? && s.main.next < |s.threads| {
      SumUpdate(s.threads, s.main.next, Thread(Sleeping, Alive), Left);
    } else if s.main.SetJoined? {
      SumUpdate(s.threads, s.main.idx, s.threads[s.main.idx].(state := Joined), Left);
    }
  }

  lemma Grows(w: nat, a: nat, b: nat)
    requires a <= b
    ensures w * a <= w * b
  {}

  lemma MeasureDrops(s: State, a: Action)
    requires Inv(s) && Enabled(s, a)
    ensures |Apply(s, a).threads| == |s.threads|
    ensures Measure(Apply(s, a)) + 1 <= Measure(s) + if a.Spurious? then Worth(|s.threads|) else 0
  {
    hide Sum, Worth, MainLeft, LockOk, CountsOk, JoinsOk, SleepOk;
    var n, s' := |s.threads|, Apply(s, a);
    match a
    case Run(i) =>
      ThreadDrops(s, i);
      MainRises(s.main, s'.main, n, s.numUnjoined > 0, s'.numUnjoined > 0);
      Times(Worth(n), Sum(s'.threads, Left));
    case Go =>
      NoneLeftOver(s);
      MainDrops(s);
      MainKeepsThreads(s);
      Grows(Worth(n), Sum(s'.threads, Left), Sum(s.threads, Left));
    case Spurious =>
      MainRises(s.main, s'.main, n, s.numUnjoined > 0, s'.numUnjoined > 0);
  }

  function Spurs(run: seq<Action>): nat {
    if run == [] then 0 else (if run[0].Spurious? then 1 else 0) + Spurs(run[1..])
  }

  lemma {:induction false} RunIsBounded(s: State, run: seq<Action>)
    requires Inv(s) && CanRun(s, run)
    ensures |run| <= Measure(s) + Worth(|s.threads|) * Spurs(run)
    decreases |run|
  {
    hide Inv, Apply, Measure, Worth;
    if run != [] {
      StepKeepsInv(s, run[0]);
      MeasureDrops(s, run[0]);
      RunIsBounded(Apply(s, run[0]), run[1..]);
      var w := Worth(|s.threads|);
      assert run[0].Spurious? ==> w * Spurs(run) == w + w * Spurs(run[1..]);
    }
  }

  lemma {:induction false} AllLeft(ts: seq<Thread>)
    requires forall i :: 0 <= i < |ts| ==> ts[i].pc.NotCreated?
    ensures Sum(ts, Left) == 8 * |ts|
  {
    if ts != [] {
      assert ts[0].pc.NotCreated?;
      AllLeft(ts[1..]);
    }
  }

  /** With n threads no run is longer than a bound, but for spurious wakeups: so
      main, which is never stuck, finishes. */
  lemma RunsEnd(s0: State, run: seq<Action>)
    requires Init(s0) && CanRun(s0, run)
    ensures var n := |s0.threads|;
      |run| <= Worth(n) * (8 * n) + 6 * n + 18 + Worth(n) * Spurs(run)
  {
    InitOk(s0);
    RunIsBounded(s0, run);
    AllLeft(s0.threads);
  }
}
