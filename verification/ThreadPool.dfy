/** The thread pool as an interleaving state machine: every action is one atomic
    step of one worker, one caller of thpool_wait, one caller of thpool_add_job
    or the caller of thpool_destroy.  A run is a sequence of actions. */
module ThreadPool {
  import opened Counting

  // Where a worker stands in thread_do; "locked" means it holds count_locker.
  datatype Worker =
    | AliveUnlock       // locked, has just counted itself alive
    | LoopTest          // about to read running
    | SemWait           // about to take a has_job token
    | TokenTest         // took a token, about to read running again
    | WorkLock          // committed to a job, wants count_locker
    | WorkInc           // locked
    | WorkUnlock        // locked, counted in thread_working
    | Pop               // about to pop the job queue
    | Running(job: nat) // executing that job
    | DoneLock          // job finished, wants count_locker
    | DoneDec           // locked
    | DoneSignal        // locked, about to signal all_idle
    | DoneUnlock        // locked
    | Repost            // about to give the token back
    | ExitLock          // wants count_locker
    | ExitDec           // locked
    | ExitUnlock        // locked, no longer counted alive
    | Exited

  // Where a caller of thpool_wait stands; mark counts the jobs pushed when len was last read.
  datatype Waiter =
    | Outside
    | WantLock
    | TestLen                 // locked
    | TestWorking(mark: nat)  // locked, has read len == 0
    | CondWait                // locked, about to release and sleep
    | Asleep
    | Woken                   // wants count_locker back
    | Leaving(mark: nat)      // locked, has read thread_working == 0
    | Returned(mark: nat)

  datatype Destroyer = NotCalled | AliveTest | Post | Sleep | Clear | Finished

  datatype Lock = Free | ByWorker(worker: nat) | ByWaiter(waiter: nat)

  /** Jobs are named by their position in push order.  The fields from pushed on
      are history: how many jobs were pushed, which were popped (in pop order),
      finished and dropped, and how many tokens the destroyer posted. */
  datatype State = State(
    workers: seq<Worker>,
    waiters: seq<Waiter>,
    destroyer: Destroyer,
    lock: Lock,
    queue: seq<nat>,
    hasJob: nat,
    running: bool,
    alive: int,
    working: int,
    adding: nat,          // callers of thpool_add_job between push and post
    pushed: nat,
    popped: seq<nat>,
    done: multiset<nat>,
    dropped: seq<nat>,
    posts: nat)

  datatype Action =
    | Work(worker: nat, wake: nat)  // wake: the waiter a signal reaches, if any sleeps
    | Wait(waiter: nat)
    | CallWait(caller: nat)
    | Spurious(sleeper: nat)
    | AddPush
    | AddPost
    | Destroy

  // ---------- The steps ----------

  predicate WorkerHolds(w: Worker) {
    w.AliveUnlock? || w.WorkInc? || w.WorkUnlock? || w.DoneDec? || w.DoneSignal? || w.DoneUnlock? ||
    w.ExitDec? || w.ExitUnlock?
  }

  predicate WaiterHolds(w: Waiter) {
    w.TestLen? || w.TestWorking? || w.CondWait? || w.Leaving?
  }

  predicate SomeAsleep(s: State) {
    exists w :: 0 <= w < |s.waiters| && s.waiters[w].Asleep?
  }

  predicate WorkerEnabled(s: State, i: nat, wake: nat)
    requires i < |s.workers|
  {
    match s.workers[i]
    case SemWait => s.hasJob > 0
    case WorkLock => s.lock.Free?
    case DoneLock => s.lock.Free?
    case ExitLock => s.lock.Free?
    case DoneSignal => SomeAsleep(s) ==> wake < |s.waiters| && s.waiters[wake].Asleep?
    case Exited => false
    case _ => true
  }

  predicate Enabled(s: State, a: Action) {
    match a
    case Work(i, wake) => i < |s.workers| && WorkerEnabled(s, i, wake)
    case Wait(w) =>
      && w < |s.waiters|
      && !s.waiters[w].Outside? && !s.waiters[w].Returned? && !s.waiters[w].Asleep?
      && (s.waiters[w].WantLock? || s.waiters[w].Woken? ==> s.lock.Free?)
    case CallWait(w) => w < |s.waiters| && (s.waiters[w].Outside? || s.waiters[w].Returned?)
    case Spurious(w) => w < |s.waiters| && s.waiters[w].Asleep?
    case AddPush => !s.destroyer.Clear? && !s.destroyer.Finished?
    case AddPost => s.adding > 0
    case Destroy => !s.destroyer.Finished?
  }

  function NextPc(s: State, w: Worker): Worker {
    match w
    case AliveUnlock => LoopTest
    case LoopTest => if s.running then SemWait else ExitLock
    case SemWait => TokenTest
    case TokenTest => if s.running then WorkLock else Repost
    case WorkLock => WorkInc
    case WorkInc => WorkUnlock
    case WorkUnlock => Pop
    case Pop => if s.queue == [] then DoneLock else Running(s.queue[0])
    case Running(_) => DoneLock
    case DoneLock => DoneDec
    case DoneDec => if s.working - 1 == 0 then DoneSignal else DoneUnlock
    case DoneSignal => DoneUnlock
    case DoneUnlock => LoopTest
    case Repost => LoopTest
    case ExitLock => ExitDec
    case ExitDec => ExitUnlock
    case ExitUnlock => Exited
    case Exited => Exited
  }

  predicate TakesLock(w: Worker) {
    w.WorkLock? || w.DoneLock? || w.ExitLock?
  }

  predicate DropsLock(w: Worker) {
    w.AliveUnlock? || w.WorkUnlock? || w.DoneUnlock? || w.ExitUnlock?
  }

  function WorkerStep(s: State, i: nat, wake: nat): State
    requires i < |s.workers| && WorkerEnabled(s, i, wake)
  {
    var w := s.workers[i];
    var pops := w.Pop? && s.queue != [];
    s.(workers := s.workers[i := NextPc(s, w)],
       lock := if TakesLock(w) then ByWorker(i) else if DropsLock(w) then Free else s.lock,
       hasJob := if w.SemWait? then s.hasJob - 1 else if w.Repost? then s.hasJob + 1 else s.hasJob,
       working := if w.WorkInc? then s.working + 1 else if w.DoneDec? then s.working - 1 else s.working,
       alive := if w.ExitDec? then s.alive - 1 else s.alive,
       queue := if pops then s.queue[1..] else s.queue,
       popped := if pops then s.popped + [s.queue[0]] else s.popped,
       done := if w.Running? then s.done + multiset{w.job} else s.done,
       waiters := if w.DoneSignal? && SomeAsleep(s) then s.waiters[wake := Woken] else s.waiters)
  }

  function WaiterAt(s: State, w: nat, pc: Waiter): State
    requires w < |s.waiters|
  {
    s.(waiters := s.waiters[w := pc])
  }

  function WaiterStep(s: State, w: nat): State
    requires w < |s.waiters|
  {
    match s.waiters[w]
    case WantLock => WaiterAt(s, w, TestLen).(lock := ByWaiter(w))
    case TestLen => WaiterAt(s, w, if s.queue != [] then CondWait else TestWorking(s.pushed))
    case TestWorking(mark) => WaiterAt(s, w, if s.working > 0 then CondWait else Leaving(mark))
    case CondWait => WaiterAt(s, w, Asleep).(lock := Free)
    case Woken => WaiterAt(s, w, TestLen).(lock := ByWaiter(w))
    case Leaving(mark) => WaiterAt(s, w, Returned(mark)).(lock := Free)
    case _ => s
  }

  function DestroyStep(s: State): State {
    match s.destroyer
    case NotCalled => s.(running := false, destroyer := AliveTest)
    case AliveTest => s.(destroyer := if s.alive > 0 then Post else Clear)
    case Post => s.(hasJob := s.hasJob + 1, posts := s.posts + 1, destroyer := Sleep)
    case Sleep => s.(destroyer := AliveTest)
    case Clear => s.(queue := [], dropped := s.dropped + s.queue, destroyer := Finished)
    case Finished => s
  }

  function Apply(s: State, a: Action): State
    requires Enabled(s, a)
  {
    match a
    case Work(i, wake) => WorkerStep(s, i, wake)
    case Wait(w) => WaiterStep(s, w)
    case CallWait(w) => WaiterAt(s, w, WantLock)
    case Spurious(w) => WaiterAt(s, w, Woken)
    case AddPush => s.(queue := s.queue + [s.pushed], pushed := s.pushed + 1, adding := s.adding + 1)
    case AddPost => s.(hasJob := s.hasJob + 1, adding := s.adding - 1)
    case Destroy => DestroyStep(s)
  }

  // ---------- Runs ----------

  /** The pool as thpool_init hands it out: every worker has counted itself
      alive, at most one of them still inside that critical section. */
  predicate Init(s: State) {
    && (forall i :: 0 <= i < |s.workers| ==> s.workers[i].AliveUnlock? || s.workers[i].LoopTest?)
    && (forall i :: 0 <= i < |s.workers| ==> (s.workers[i].AliveUnlock? <==> s.lock == ByWorker(i)))
    && (s.lock.Free? || (s.lock.ByWorker? && s.lock.worker < |s.workers|))
    && (forall w :: 0 <= w < |s.waiters| ==> s.waiters[w].Outside?)
    && s.destroyer.NotCalled? && s.queue == [] && s.hasJob == 0 && s.running
    && s.alive == |s.workers| && s.working == 0 && s.adding == 0
    && s.pushed == 0 && s.popped == [] && s.done == multiset{} && s.dropped == [] && s.posts == 0
  }

  predicate CanRun(s: State, run: seq<Action>)
    decreases |run|
  {
    run == [] || (Enabled(s, run[0]) && CanRun(Apply(s, run[0]), run[1..]))
  }

  function After(s: State, run: seq<Action>): State
    requires CanRun(s, run)
    decreases |run|
  {
    if run == [] then s else After(Apply(s, run[0]), run[1..])
  }

  // ---------- What every step keeps ----------

  function Counted(w: Worker): nat {
    if w.WorkUnlock? || w.Pop? || w.Running? || w.DoneLock? || w.DoneDec? then 1 else 0
  }

  function Alive(w: Worker): nat {
    if w.ExitUnlock? || w.Exited? then 0 else 1
  }

  function Token(w: Worker): nat {
    if w.TokenTest? || w.Repost? then 1 else Committed(w)
  }

  // A token of a worker that has decided to run a job.
  function Committed(w: Worker): nat {
    if w.WorkLock? || w.WorkInc? || w.WorkUnlock? || w.Pop? then 1 else 0
  }

  // A token that is bound to come back once running is false.
  function Returning(w: Worker): nat {
    if w.TokenTest? || w.Repost? then 1 else 0
  }

  function Runs(job: nat): Worker -> nat {
    (w: Worker) => if w == Running(job) then 1 else 0
  }

  // Every job pushed, in pop order and then queue order.
  function AllJobs(s: State): seq<nat> {
    s.popped + s.queue + s.dropped
  }

  ghost predicate LockOk(s: State) {
    && (forall i :: 0 <= i < |s.workers| ==> (WorkerHolds(s.workers[i]) <==> s.lock == ByWorker(i)))
    && (forall w :: 0 <= w < |s.waiters| ==> (WaiterHolds(s.waiters[w]) <==> s.lock == ByWaiter(w)))
    && (s.lock.ByWorker? ==> s.lock.worker < |s.workers|)
    && (s.lock.ByWaiter? ==> s.lock.waiter < |s.waiters|)
  }

  ghost predicate CountsOk(s: State) {
    && s.working == Sum(s.workers, Counted)
    && s.alive == Sum(s.workers, Alive)
  }

  ghost predicate TokensOk(s: State) {
    && |s.queue| + |s.dropped| + s.posts == s.hasJob + Sum(s.workers, Token) + s.adding
    && Sum(s.workers, Committed) <= |s.queue|
    && (s.posts > 0 ==> s.hasJob + Sum(s.workers, Returning) >= 1)
  }

  ghost predicate DestroyOk(s: State) {
    && (s.running <==> s.destroyer.NotCalled?)
    && (s.running ==> s.posts == 0)
    && (s.dropped != [] ==> s.destroyer.Finished?)
    && (s.destroyer.Finished? ==> s.queue == [])
    && (s.destroyer.Clear? || s.destroyer.Finished? ==> s.alive == 0)
    && (s.destroyer.Sleep? ==> s.posts > 0)
  }

  predicate Leaves(w: Worker) {
    w.ExitLock? || w.ExitDec? || w.ExitUnlock? || w.Exited?
  }

  ghost predicate StayOk(s: State) {
    s.running ==> forall i :: 0 <= i < |s.workers| ==> !Leaves(s.workers[i])
  }

  // Pop order is push order.
  ghost predicate OrderOk(s: State) {
    && |AllJobs(s)| == s.pushed
    && (forall k :: 0 <= k < s.pushed ==> AllJobs(s)[k] == k)
  }

  // A popped job is being run by one worker or has finished, once; no other job is either.
  ghost predicate OnceFor(s: State, job: nat) {
    s.done[job] + Sum(s.workers, Runs(job)) == if job < |s.popped| then 1 else 0
  }

  ghost predicate OnceOk(s: State) {
    forall j: nat :: OnceFor(s, j)
  }

  // Every job below mark has run to its end, or was thrown away by the destroyer.
  ghost predicate Settled(s: State, mark: nat) {
    forall j: nat :: j < mark ==> j in s.done || j in s.dropped
  }

  ghost predicate WaiterOk(s: State, w: Waiter) {
    match w
    case TestWorking(mark) => mark <= |s.popped| + |s.dropped|
    case Leaving(mark) => s.working == 0 && Settled(s, mark)
    case Returned(mark) => Settled(s, mark)
    case _ => true
  }

  ghost predicate WaitersOk(s: State) {
    forall w :: 0 <= w < |s.waiters| ==> WaiterOk(s, s.waiters[w])
  }

  ghost predicate Inv(s: State) {
    LockOk(s) && CountsOk(s) && TokensOk(s) && DestroyOk(s) && StayOk(s) && OrderOk(s) && OnceOk(s) && WaitersOk(s)
  }

  // ---------- Each part is kept ----------

  lemma InitOk(s: State)
    requires Init(s)
    ensures Inv(s)
  {
    hide LockOk, CountsOk, TokensOk, OnceOk;
    InitSums(s);
    InitOnce(s);
    InitLock(s);
  }

  lemma InitSums(s: State)
    requires Init(s)
    ensures CountsOk(s) && TokensOk(s)
  {
    SumIsZero(s.workers, Counted);
    SumIsZero(s.workers, Token);
    SumIsZero(s.workers, Committed);
    AllAlive(s.workers);
  }

  lemma InitOnce(s: State)
    requires Init(s)
    ensures OnceOk(s)
  {
    forall j: nat ensures OnceFor(s, j) {
      SumIsZero(s.workers, Runs(j));
    }
  }

  lemma InitLock(s: State)
    requires Init(s)
    ensures LockOk(s)
  {}

  // What a step of a caller of thpool_wait, and of thpool_destroy, leaves alone.
  lemma WaiterStepTouches(s: State, w: nat)
    requires w < |s.waiters|
    ensures var t := WaiterStep(s, w);
      |t.waiters| == |s.waiters| && t == s.(waiters := s.waiters[w := t.waiters[w]], lock := t.lock)
  {
    assert s.waiters[w := s.waiters[w]] == s.waiters;
  }

  lemma WorkerStepWakes(s: State, i: nat, wake: nat)
    requires Enabled(s, Work(i, wake))
    ensures var t := WorkerStep(s, i, wake);
      t.pushed == s.pushed && (t.waiters == s.waiters || (wake < |s.waiters| && t.waiters == s.waiters[wake := Woken]))
  {}

  lemma DestroyStepTouches(s: State)
    ensures var t := DestroyStep(s);
      && t.workers == s.workers && t.waiters == s.waiters && t.lock == s.lock
      && t.alive == s.alive && t.working == s.working
      && t.adding == s.adding && t.pushed == s.pushed && t.popped == s.popped && t.done == s.done
  {}

  lemma {:induction false} AllAlive(ws: seq<Worker>)
    requires forall i :: 0 <= i < |ws| ==> Alive(ws[i]) == 1
    ensures Sum(ws, Alive) == |ws|
  {
    if ws != [] {
      assert Alive(ws[0]) == 1;
      AllAlive(ws[1..]);
    }
  }

  lemma WaitKeepsLock(s: State, w: nat)
    requires LockOk(s) && Enabled(s, Wait(w))
    ensures LockOk(WaiterStep(s, w))
  {
    hide WaiterStep;
    WaiterStepTouches(s, w);
    LockMoves(s, w);
  }

  lemma LockMoves(s: State, w: nat)
    requires LockOk(s) && Enabled(s, Wait(w))
    ensures var t := WaiterStep(s, w);
      && |t.waiters| == |s.waiters| && (WaiterHolds(t.waiters[w]) <==> t.lock == ByWaiter(w))
      && (t.lock == s.lock || (s.lock == Free && t.lock == ByWaiter(w)) || (s.lock == ByWaiter(w) && t.lock == Free))
  {}

  lemma OthersKeepLock(s: State, a: Action)
    requires LockOk(s) && Enabled(s, a) && !a.Work? && !a.Wait?
    ensures LockOk(Apply(s, a))
  {
    hide DestroyStep;
    DestroyStepTouches(s);
  }

  lemma WorkKeepsLock(s: State, i: nat, wake: nat)
    requires LockOk(s) && Enabled(s, Work(i, wake))
    ensures LockOk(WorkerStep(s, i, wake))
  {
    var s' := WorkerStep(s, i, wake);
    var w := s'.workers[i];
    assert s'.workers == s.workers[i := w];
    assert WorkerHolds(w) <==> s'.lock == ByWorker(i);
    assert s'.lock == s.lock || s.lock == ByWorker(i) || s'.lock == ByWorker(i);
  }

  lemma CountsKept(s: State, a: Action)
    requires CountsOk(s) && Enabled(s, a)
    ensures CountsOk(Apply(s, a))
  {
    match a
    case Work(i, wake) =>
      var w := WorkerStep(s, i, wake).workers[i];
      SumUpdate(s.workers, i, w, Counted);
      SumUpdate(s.workers, i, w, Alive);
    case _ =>
  }

  lemma {:induction false} TokensSplit(ws: seq<Worker>)
    ensures Sum(ws, Token) == Sum(ws, Committed) + Sum(ws, Returning)
  {
    if ws != [] {
      TokensSplit(ws[1..]);
    }
  }

  // One worker step moves its token between has_job, its own hands and the job it pops.
  lemma TokenFlow(s: State, i: nat, wake: nat)
    requires Enabled(s, Work(i, wake)) && (s.workers[i].Pop? ==> s.queue != [])
    ensures var s' := WorkerStep(s, i, wake); var w, w' := s.workers[i], s'.workers[i];
      && s'.workers == s.workers[i := w']
      && s'.dropped == s.dropped && s'.posts == s.posts && s'.adding == s.adding && s'.running == s.running
      && |s'.queue| + s.hasJob + Token(w) == |s.queue| + s'.hasJob + Token(w')
      && |s'.queue| + Committed(w) >= |s.queue| + Committed(w') - (if s.running then Returning(w) else 0)
      && (!s.running ==> s.hasJob + Returning(w) <= s'.hasJob + Returning(w'))
  {}

  lemma WorkKeepsTokens(s: State, i: nat, wake: nat)
    requires TokensOk(s) && DestroyOk(s) && Enabled(s, Work(i, wake))
    ensures TokensOk(WorkerStep(s, i, wake))
  {
    hide WorkerStep, Token, Returning, WorkerEnabled;
    SumAtLeast(s.workers, i, Committed);
    TokenFlow(s, i, wake);
    var w := WorkerStep(s, i, wake).workers[i];
    SumUpdate(s.workers, i, w, Token);
    SumUpdate(s.workers, i, w, Committed);
    SumUpdate(s.workers, i, w, Returning);
    SumAtLeast(s.workers, i, Returning);
    TokensSplit(s.workers);
  }

  lemma TokensKept(s: State, a: Action)
    requires CountsOk(s) && TokensOk(s) && DestroyOk(s) && Enabled(s, a)
    ensures TokensOk(Apply(s, a))
  {
    hide WorkerStep, WaiterStep, DestroyStep, CountsOk, DestroyOk, Token, Committed, Returning;
    match a
    case Work(i, wake) => WorkKeepsTokens(s, i, wake);
    case Wait(w) => WaiterStepTouches(s, w);
    case Destroy => DestroyKeepsTokens(s);
    case _ =>
  }

  lemma DestroyKeepsTokens(s: State)
    requires CountsOk(s) && TokensOk(s) && DestroyOk(s)
    ensures TokensOk(DestroyStep(s))
  {
    hide Token, Returning;
    if s.destroyer.Clear? {
      WorkersGone(s);
      SumIsZero(s.workers, Committed);
    }
  }

  /** Once the destroyer has seen thread_alive == 0, no worker will ever touch the job queue. */
  lemma WorkersGone(s: State)
    requires CountsOk(s) && s.alive == 0
    ensures forall i :: 0 <= i < |s.workers| ==> s.workers[i].ExitUnlock? || s.workers[i].Exited?
  {
    forall i | 0 <= i < |s.workers| ensures s.workers[i].ExitUnlock? || s.workers[i].Exited? {
      SumAtLeast(s.workers, i, Alive);
    }
  }

  lemma DestroyKept(s: State, a: Action)
    requires CountsOk(s) && DestroyOk(s) && Enabled(s, a)
    ensures DestroyOk(Apply(s, a))
  {
    match a
    case Work(i, wake) =>
      if s.workers[i].ExitDec? {
        SumAtLeast(s.workers, i, Alive);
      }
    case _ =>
  }

  lemma StayKept(s: State, a: Action)
    requires StayOk(s) && Enabled(s, a)
    ensures StayOk(Apply(s, a))
  {}

  lemma PopFindsAJob(s: State, i: nat)
    requires TokensOk(s) && i < |s.workers| && s.workers[i].Pop?
    ensures s.queue != []
  {
    SumAtLeast(s.workers, i, Committed);
  }

  lemma OrderKept(s: State, a: Action)
    requires DestroyOk(s) && OrderOk(s) && Enabled(s, a)
    ensures OrderOk(Apply(s, a))
  {
    match a
    case AddPush => assert AllJobs(Apply(s, a)) == AllJobs(s) + [s.pushed];
    case _ => assert AllJobs(Apply(s, a)) == AllJobs(s);
  }

  lemma WorkKeepsOnce(s: State, i: nat, wake: nat, job: nat)
    requires Enabled(s, Work(i, wake)) && OnceFor(s, job)
    requires s.workers[i].Pop? ==> s.queue != [] && s.queue[0] == |s.popped|
    ensures OnceFor(WorkerStep(s, i, wake), job)
  {
    SumUpdate(s.workers, i, NextPc(s, s.workers[i]), Runs(job));
  }

  lemma OnceKept(s: State, a: Action)
    requires TokensOk(s) && OrderOk(s) && OnceOk(s) && Enabled(s, a)
    ensures OnceOk(Apply(s, a))
  {
    match a
    case Work(i, wake) =>
      if s.workers[i].Pop? {
        PopFindsAJob(s, i);
        assert s.queue[0] == AllJobs(s)[|s.popped|] == |s.popped|;
      }
      hide TokensOk, OrderOk, WorkerStep, OnceFor;
      forall j: nat ensures OnceFor(Apply(s, a), j) {
        WorkKeepsOnce(s, i, wake, j);
      }
    case _ => OthersKeepOnce(s, a);
  }

  lemma OthersKeepOnce(s: State, a: Action)
    requires OnceOk(s) && Enabled(s, a) && !a.Work?
    ensures OnceOk(Apply(s, a))
  {
    hide WaiterStep, DestroyStep;
    if a.Wait? {
      WaiterStepTouches(s, a.waiter);
    }
    DestroyStepTouches(s);
    forall j: nat ensures OnceFor(Apply(s, a), j) {
      assert OnceFor(s, j);
    }
  }

  lemma WorkKeepsWaiters(s: State, i: nat, wake: nat)
    requires LockOk(s) && WaitersOk(s) && Enabled(s, Work(i, wake))
    ensures WaitersOk(WorkerStep(s, i, wake))
  {
    var s' := WorkerStep(s, i, wake);
    assert forall j :: j in s.done ==> j in s'.done;
    assert |s'.popped| >= |s.popped|;
    if s'.working != s.working {
      assert s.lock == ByWorker(i);
    }
  }

  lemma WaiterStepOk(s: State, w: nat)
    requires CountsOk(s) && OrderOk(s) && OnceOk(s) && DestroyOk(s) && WaitersOk(s) && Enabled(s, Wait(w))
    ensures WaiterOk(s, WaiterStep(s, w).waiters[w])
  {
    assert WaiterOk(s, s.waiters[w]);
    match s.waiters[w]
    case TestWorking(mark) =>
      if s.working <= 0 {
        IdleMeansSettled(s, mark);
      }
    case TestLen => assert |AllJobs(s)| == s.pushed;
    case _ =>
  }

  lemma WaitKeepsWaiters(s: State, w: nat)
    requires WaitersOk(s) && Enabled(s, Wait(w)) && WaiterOk(s, WaiterStep(s, w).waiters[w])
    ensures WaitersOk(WaiterStep(s, w))
  {
    hide WaiterStep, WaiterOk;
    WaiterStepTouches(s, w);
    var t := WaiterStep(s, w);
    forall v | 0 <= v < |t.waiters| ensures WaiterOk(t, t.waiters[v]) {
      SameForWaiters(s, t, t.waiters[v]);
    }
  }

  lemma SameForWaiters(s: State, t: State, w: Waiter)
    requires t.popped == s.popped && t.dropped == s.dropped && t.working == s.working && t.done == s.done
    ensures WaiterOk(t, w) <==> WaiterOk(s, w)
  {}

  lemma ClearKeepsWaiters(s: State)
    requires WaitersOk(s)
    ensures WaitersOk(DestroyStep(s))
  {}

  lemma WaitersKept(s: State, a: Action)
    requires LockOk(s) && CountsOk(s) && OrderOk(s) && OnceOk(s) && DestroyOk(s) && WaitersOk(s) && Enabled(s, a)
    ensures WaitersOk(Apply(s, a))
  {
    hide LockOk, CountsOk, OrderOk, OnceOk, DestroyOk, WorkerStep, WaiterStep, DestroyStep;
    match a
    case Work(i, wake) => WorkKeepsWaiters(s, i, wake);
    case Wait(w) =>
      WaiterStepOk(s, w);
      WaitKeepsWaiters(s, w);
    case Destroy => ClearKeepsWaiters(s);
    case _ =>
  }

  lemma IdleMeansSettled(s: State, mark: nat)
    requires CountsOk(s) && OrderOk(s) && OnceOk(s) && DestroyOk(s)
    requires s.working <= 0 && mark <= |s.popped| + |s.dropped|
    ensures s.working == 0 && Settled(s, mark)
  {
    NobodyRuns(s);
    forall j: nat | j < mark ensures j in s.done || j in s.dropped {
      if j < |s.popped| {
        SumIsZero(s.workers, Runs(j));
        assert OnceFor(s, j);
      } else {
        assert s.dropped[j - |s.popped|] == AllJobs(s)[j] == j;
      }
    }
  }

  lemma NobodyRuns(s: State)
    requires CountsOk(s) && s.working <= 0
    ensures forall i :: 0 <= i < |s.workers| ==> Counted(s.workers[i]) == 0
  {
    forall i | 0 <= i < |s.workers| ensures Counted(s.workers[i]) == 0 {
      SumAtLeast(s.workers, i, Counted);
    }
  }

  lemma StepKeepsInv(s: State, a: Action)
    requires Inv(s) && Enabled(s, a)
    ensures Inv(Apply(s, a))
  {
    hide LockOk, CountsOk, TokensOk, DestroyOk, StayOk, OrderOk, OnceOk, WaitersOk, WorkerStep, WaiterStep, DestroyStep;
    match a {
      case Work(i, wake) => WorkKeepsLock(s, i, wake);
      case Wait(w) => WaitKeepsLock(s, w);
      case _ => OthersKeepLock(s, a);
    }
    CountsKept(s, a);
    TokensKept(s, a);
    DestroyKept(s, a);
    StayKept(s, a);
    OrderKept(s, a);
    OnceKept(s, a);
    WaitersKept(s, a);
  }

  // ---------- Whole runs ----------

  lemma {:induction false} RunKeepsInv(s: State, run: seq<Action>)
    requires Inv(s) && CanRun(s, run)
    ensures Inv(After(s, run))
    decreases |run|
  {
    if run != [] {
      StepKeepsInv(s, run[0]);
      RunKeepsInv(Apply(s, run[0]), run[1..]);
    }
  }

  /** In every interleaving, jobs are popped in push order, a popped job is
      being run by exactly one worker or has finished exactly once, no other
      job is either, and a worker that pops always finds a job. */
  lemma EveryJobExactlyOnce(s: State, run: seq<Action>)
    requires Init(s) && CanRun(s, run)
    ensures var t := After(s, run);
      && |t.popped + t.queue + t.dropped| == t.pushed
      && (forall k :: 0 <= k < t.pushed ==> (t.popped + t.queue + t.dropped)[k] == k)
      && (forall j: nat :: t.done[j] + Sum(t.workers, Runs(j)) == if j < |t.popped| then 1 else 0)
      && (forall i :: 0 <= i < |t.workers| && t.workers[i].Pop? ==> t.queue != [])
  {
    InitOk(s);
    RunKeepsInv(s, run);
    var t := After(s, run);
    forall i | 0 <= i < |t.workers| && t.workers[i].Pop? ensures t.queue != [] {
      PopFindsAJob(t, i);
    }
    forall j: nat ensures t.done[j] + Sum(t.workers, Runs(j)) == if j < |t.popped| then 1 else 0 {
      assert OnceFor(t, j);
    }
  }

  /** Tokens and jobs balance in every reachable state: each queued or dropped
      job and each token posted by the destroyer is one token of has_job, one
      worker past sem_wait and before its pop, or one adder before its post. */
  lemma TokensBalance(s: State, run: seq<Action>)
    requires Init(s) && CanRun(s, run)
    ensures var t := After(s, run);
      |t.queue| + |t.dropped| + t.posts == t.hasJob + Sum(t.workers, Token) + t.adding
  {
    InitOk(s);
    RunKeepsInv(s, run);
  }

  lemma {:induction false} WorkersAreKept(s: State, run: seq<Action>)
    requires CanRun(s, run)
    ensures |After(s, run).workers| == |s.workers|
    decreases |run|
  {
    if run != [] {
      WorkersAreKept(Apply(s, run[0]), run[1..]);
    }
  }
}
