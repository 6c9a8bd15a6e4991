/** The shared ring buffer with its empty and full semaphores, for any number of
    writing and reading processes; every action is one atomic step of one process. */
module BoundedBuffer {
  import opened Counting

  const BUFSIZE := 5

  // What two indices and the cells of a ring hold: items, oldest first.
  ghost predicate RingHolds(head: int, tail: int, nums: seq<int>, items: seq<int>) {
    && |nums| == BUFSIZE && 0 <= head < BUFSIZE && 0 <= tail < BUFSIZE
    && |items| <= BUFSIZE && head == (tail + |items|) % BUFSIZE
    && forall i :: 0 <= i < |items| ==> items[i] == nums[(tail + i) % BUFSIZE]
  }

  // The memory itself: two indices chasing each other around a ring.
  class Mem {
    var head: int
    var tail: int
    const nums: array<int>
    ghost var items: seq<int>  // written and not yet read, oldest first

    ghost predicate Valid()
      reads this, nums
    {
      nums.Length == BUFSIZE && RingHolds(head, tail, nums[..], items)
    }

    constructor ()
      ensures Valid() && items == [] && fresh(nums)
    {
      head, tail, items := 0, 0, [];
      nums := new int[BUFSIZE];
    }

    method MemWrite(val: int)
      requires Valid() && |items| < BUFSIZE
      modifies this`head, this`items, nums
      ensures Valid() && items == old(items) + [val]
    {
      nums[head] := val;
      head := (head + 1) % BUFSIZE;
      items := items + [val];
    }

    method MemRead() returns (val: int)
      requires Valid() && items != []
      modifies this`tail, this`items
      ensures Valid() && [val] + items == old(items)
    {
      val := nums[tail];
      tail := (tail + 1) % BUFSIZE;
      items := items[1..];
    }
  }

  // Where a process stands.  The locked stretches hold the buffer's own semaphore.
  datatype Process =
    | WantEmpty        // a writer, about to wait for an empty cell
    | WriteLock(val: int)
    | Store(val: int)  // locked
    | AdvanceHead      // locked
    | WriteUnlock      // locked
    | PostFull
    | WantFull         // a reader, about to wait for a full cell
    | ReadLock
    | Fetch            // locked
    | AdvanceTail      // locked
    | ReadUnlock       // locked
    | PostEmpty

  /** written and read are history: all values stored and all values fetched, in order. */
  datatype State = State(procs: seq<Process>, lock: nat, full: nat, empty: nat,
                         head: int, tail: int, nums: seq<int>, written: seq<int>, read: seq<int>)

  predicate Ready(s: State, i: nat)
    requires i < |s.procs|
  {
    match s.procs[i]
    case WantEmpty => s.empty > 0
    case WantFull => s.full > 0
    case WriteLock(_) => s.lock > 0
    case ReadLock => s.lock > 0
    case _ => true
  }

  function NextPc(p: Process, val: int): Process {
    match p
    case WantEmpty => WriteLock(val)
    case WriteLock(v) => Store(v)
    case Store(_) => AdvanceHead
    case AdvanceHead => WriteUnlock
    case WriteUnlock => PostFull
    case PostFull => WantEmpty
    case WantFull => ReadLock
    case ReadLock => Fetch
    case Fetch => AdvanceTail
    case AdvanceTail => ReadUnlock
    case ReadUnlock => PostEmpty
    case PostEmpty => WantFull
  }

  // The step of process i; val is what it is going to write, if it starts a round.
  function Step(s: State, i: nat, val: int): State
    requires i < |s.procs| && Ready(s, i) && |s.nums| == BUFSIZE && 0 <= s.head < BUFSIZE && 0 <= s.tail < BUFSIZE
  {
    var p := s.procs[i];
    s.(procs := s.procs[i := NextPc(p, val)],
       lock := if p.WriteLock? || p.ReadLock? then s.lock - 1
               else if p.WriteUnlock? || p.ReadUnlock? then s.lock + 1 else s.lock,
       empty := if p.WantEmpty? then s.empty - 1 else if p.PostEmpty? then s.empty + 1 else s.empty,
       full := if p.WantFull? then s.full - 1 else if p.PostFull? then s.full + 1 else s.full,
       nums := if p.Store? then s.nums[s.head := p.val] else s.nums,
       head := if p.AdvanceHead? then (s.head + 1) % BUFSIZE else s.head,
       tail := if p.AdvanceTail? then (s.tail + 1) % BUFSIZE else s.tail,
       written := if p.Store? then s.written + [p.val] else s.written,
       read := if p.Fetch? then s.read + [s.nums[s.tail]] else s.read)
  }

  predicate Init(s: State) {
    && (forall i :: 0 <= i < |s.procs| ==> s.procs[i].WantEmpty? || s.procs[i].WantFull?)
    && s.lock == 1 && s.full == 0 && s.empty == BUFSIZE && s.head == 0 && s.tail == 0 && |s.nums| == BUFSIZE
    && s.written == [] && s.read == []
  }

  datatype Action = Action(proc: nat, val: int)

  predicate CanStep(s: State, a: Action) {
    && a.proc < |s.procs| && Ready(s, a.proc)
    && |s.nums| == BUFSIZE && 0 <= s.head < BUFSIZE && 0 <= s.tail < BUFSIZE
  }

  predicate CanRun(s: State, run: seq<Action>)
    decreases |run|
  {
    run == [] || (CanStep(s, run[0]) && CanRun(Step(s, run[0].proc, run[0].val), run[1..]))
  }

  function After(s: State, run: seq<Action>): State
    requires CanRun(s, run)
    decreases |run|
  {
    if run == [] then s else After(Step(s, run[0].proc, run[0].val), run[1..])
  }

  // ---------- What every step keeps ----------

  function Holds(p: Process): nat {
    if p.Store? || p.AdvanceHead? || p.WriteUnlock? || p.Fetch? || p.AdvanceTail? || p.ReadUnlock? then 1 else 0
  }

  // Holds an empty cell it has not filled, a full cell not yet announced,
  // a full cell not yet emptied, an empty cell not yet announced.
  function Filling(p: Process): nat { if p.WriteLock? || p.Store? then 1 else 0 }
  function Filled(p: Process): nat { if p.AdvanceHead? || p.WriteUnlock? || p.PostFull? then 1 else 0 }
  function Emptying(p: Process): nat { if p.ReadLock? || p.Fetch? then 1 else 0 }
  function Emptied(p: Process): nat { if p.AdvanceTail? || p.ReadUnlock? || p.PostEmpty? then 1 else 0 }

  // Head and tail lag behind the history between a store or fetch and the advance.
  function HeadLag(p: Process): nat { if p.AdvanceHead? then 1 else 0 }
  function TailLag(p: Process): nat { if p.AdvanceTail? then 1 else 0 }

  ghost predicate LockOk(s: State) {
    s.lock + Sum(s.procs, Holds) == 1
  }

  /** The semaphores and the processes between them account for every cell. */
  ghost predicate CellsOk(s: State) {
    && s.full + Sum(s.procs, Filled) + Sum(s.procs, Emptying) == |s.written| - |s.read|
    && s.empty + Sum(s.procs, Filling) + Sum(s.procs, Emptied) == BUFSIZE - (|s.written| - |s.read|)
  }

  ghost predicate IndicesOk(s: State) {
    && |s.nums| == BUFSIZE && 0 <= s.head < BUFSIZE && 0 <= s.tail < BUFSIZE
    && (s.head + Sum(s.procs, HeadLag)) % BUFSIZE == |s.written| % BUFSIZE
    && (s.tail + Sum(s.procs, TailLag)) % BUFSIZE == |s.read| % BUFSIZE
  }

  ghost predicate ContentsOk(s: State) {
    && |s.nums| == BUFSIZE && |s.read| <= |s.written| <= |s.read| + BUFSIZE
    && s.read == s.written[..|s.read|]
    && forall k :: |s.read| <= k < |s.written| ==> s.nums[k % BUFSIZE] == s.written[k]
  }

  ghost predicate Inv(s: State) {
    LockOk(s) && CellsOk(s) && IndicesOk(s) && ContentsOk(s)
  }

  lemma InitOk(s: State)
    requires Init(s)
    ensures Inv(s)
  {
    SumIsZero(s.procs, Holds);
    SumIsZero(s.procs, Filled);
    SumIsZero(s.procs, Filling);
    SumIsZero(s.procs, Emptied);
    SumIsZero(s.procs, Emptying);
    SumIsZero(s.procs, HeadLag);
    SumIsZero(s.procs, TailLag);
  }

  // At most one process is inside the lock, so while one stores or fetches no index lags.
  lemma {:induction false} LagsAreLocked(procs: seq<Process>)
    ensures Sum(procs, HeadLag) + Sum(procs, TailLag) <= Sum(procs, Holds)
  {
    if procs != [] {
      LagsAreLocked(procs[1..]);
    }
  }

  lemma InsideAlone(s: State, i: nat)
    requires LockOk(s) && i < |s.procs| && (s.procs[i].Store? || s.procs[i].Fetch?)
    ensures Sum(s.procs, HeadLag) == Sum(s.procs, TailLag) == 0
  {
    var rest := s.procs[i := WantFull];
    SumUpdate(s.procs, i, WantFull, Holds);
    SumUpdate(s.procs, i, WantFull, HeadLag);
    SumUpdate(s.procs, i, WantFull, TailLag);
    LagsAreLocked(rest);
  }

  /** A store goes to a cell that holds nothing unread; a fetch finds an unread value, the oldest. */
  lemma RightCell(s: State, i: nat)
    requires Inv(s) && i < |s.procs|
    ensures s.procs[i].Store? ==>
      |s.written| - |s.read| < BUFSIZE && forall k :: |s.read| <= k < |s.written| ==> k % BUFSIZE != s.head
    ensures s.procs[i].Fetch? ==> |s.read| < |s.written| && s.nums[s.tail] == s.written[|s.read|]
  {
    hide Sum;
    SumAtLeast(s.procs, i, Filling);
    SumAtLeast(s.procs, i, Emptying);
    if s.procs[i].Store? || s.procs[i].Fetch? {
      InsideAlone(s, i);
      assert s.head == |s.written| % BUFSIZE && s.tail == |s.read| % BUFSIZE;
    }
  }

  lemma LockKept(s: State, i: nat, val: int)
    requires LockOk(s) && CanStep(s, Action(i, val))
    ensures LockOk(Step(s, i, val))
  {
    hide Sum;
    SumUpdate(s.procs, i, NextPc(s.procs[i], val), Holds);
  }

  lemma CellsKept(s: State, i: nat, val: int)
    requires CellsOk(s) && CanStep(s, Action(i, val))
    ensures CellsOk(Step(s, i, val))
  {
    hide Sum;
    var p := NextPc(s.procs[i], val);
    SumUpdate(s.procs, i, p, Filling);
    SumUpdate(s.procs, i, p, Filled);
    SumUpdate(s.procs, i, p, Emptying);
    SumUpdate(s.procs, i, p, Emptied);
  }

  lemma RingAdvances(a: int, b: int, h: int, lag: int)
    ensures a % BUFSIZE == b % BUFSIZE ==> (a + 1) % BUFSIZE == (b + 1) % BUFSIZE
    ensures ((h + 1) % BUFSIZE + lag) % BUFSIZE == (h + 1 + lag) % BUFSIZE
  {}

  lemma IndicesKept(s: State, i: nat, val: int)
    requires IndicesOk(s) && CanStep(s, Action(i, val))
    ensures IndicesOk(Step(s, i, val))
  {
    hide Sum;
    var p := NextPc(s.procs[i], val);
    SumUpdate(s.procs, i, p, HeadLag);
    SumUpdate(s.procs, i, p, TailLag);
    var h: int, t: int := Sum(s.procs, HeadLag), Sum(s.procs, TailLag);
    RingAdvances(s.head + h, |s.written|, s.head, h - 1);
    RingAdvances(s.tail + t, |s.read|, s.tail, t - 1);
    match s.procs[i]
    case Store(_) => assert Step(s, i, val).head == s.head;
    case AdvanceHead => assert Step(s, i, val).written == s.written;
    case Fetch => assert Step(s, i, val).tail == s.tail;
    case AdvanceTail => assert Step(s, i, val).read == s.read;
    case _ => assert Step(s, i, val).written == s.written && Step(s, i, val).read == s.read;
  }

  lemma ContentsKept(s: State, i: nat, val: int)
    requires Inv(s) && CanStep(s, Action(i, val))
    ensures ContentsOk(Step(s, i, val))
  {
    hide LockOk, CellsOk, Sum;
    RightCell(s, i);
    if s.procs[i].Store? {
      InsideAlone(s, i);
      StoreKeepsContents(s, s.procs[i].val);
    } else if s.procs[i].Fetch? {
      assert s.written[..|s.read| + 1] == s.written[..|s.read|] + [s.written[|s.read|]];
    }
  }

  lemma StoreKeepsContents(s: State, val: int)
    requires ContentsOk(s) && s.head == |s.written| % BUFSIZE && |s.written| - |s.read| < BUFSIZE
    requires forall k :: |s.read| <= k < |s.written| ==> k % BUFSIZE != s.head
    ensures ContentsOk(s.(nums := s.nums[s.head := val], written := s.written + [val]))
  {}

  lemma StepKeepsInv(s: State, a: Action)
    requires Inv(s) && CanStep(s, a)
    ensures Inv(Step(s, a.proc, a.val))
  {
    LockKept(s, a.proc, a.val);
    CellsKept(s, a.proc, a.val);
    IndicesKept(s, a.proc, a.val);
    ContentsKept(s, a.proc, a.val);
  }

  lemma {:induction false} RunKeepsInv(s: State, run: seq<Action>)
    requires Inv(s) && CanRun(s, run)
    ensures Inv(After(s, run))
    decreases |run|
  {
    hide Inv, Step;
    if run != [] {
      StepKeepsInv(s, run[0]);
      RunKeepsInv(Step(s, run[0].proc, run[0].val), run[1..]);
    }
  }

  // ---------- The main results ----------

  /** In every interleaving the values read, in order, are a prefix of the values
      written, in order, never more than the ring holds behind; and the semaphore
      values with the processes in flight always make up the ring's cells. */
  lemma ReadsFollowWrites(s0: State, run: seq<Action>)
    requires Init(s0) && CanRun(s0, run)
    ensures var s := After(s0, run);
      && s.read <= s.written && |s.written| - |s.read| <= 5
      && s.full + Sum(s.procs, Filled) + Sum(s.procs, Emptying) == |s.written| - |s.read|
      && s.full + s.empty + Sum(s.procs, Filled) + Sum(s.procs, Emptying)
         + Sum(s.procs, Filling) + Sum(s.procs, Emptied) == 5
  {
    InitOk(s0);
    RunKeepsInv(s0, run);
  }

  /** No step of any run overwrites an unread value or reads a cell that holds none. */
  lemma NoLostOrStaleValue(s0: State, run: seq<Action>, a: Action)
    requires Init(s0) && CanRun(s0, run) && CanStep(After(s0, run), a)
    ensures var s := After(s0, run); var s' := Step(s, a.proc, a.val);
      && (forall k :: |s.read| <= k < |s.written| ==> s'.nums[k % BUFSIZE] == s.written[k])
      && (s'.read != s.read ==> |s.read| < |s.written| && s'.read == s.read + [s.written[|s.read|]])
  {
    InitOk(s0);
    RunKeepsInv(s0, run);
    RightCell(After(s0, run), a.proc);
  }

  /** Whenever nobody is inside the lock, the shared memory is a ring that holds
      exactly the unread values: the state MemWrite and MemRead start from. */
  lemma FreeRingHoldsTheUnread(s0: State, run: seq<Action>)
    requires Init(s0) && CanRun(s0, run) && After(s0, run).lock == 1
    ensures var s := After(s0, run);
      |s.read| <= |s.written| && RingHolds(s.head, s.tail, s.nums, s.written[|s.read|..])
  {
    InitOk(s0);
    RunKeepsInv(s0, run);
    FreeRing(After(s0, run));
  }

  lemma FreeRing(s: State)
    requires LockOk(s) && IndicesOk(s) && ContentsOk(s) && s.lock == 1
    ensures RingHolds(s.head, s.tail, s.nums, s.written[|s.read|..])
  {
    hide Sum;
    LagsAreLocked(s.procs);
    Unread(s.head, s.tail, s.nums, s.written, |s.read|);
  }

  lemma Unread(head: int, tail: int, nums: seq<int>, written: seq<int>, n: nat)
    requires |nums| == BUFSIZE && 0 <= head < BUFSIZE && 0 <= tail < BUFSIZE && n <= |written| <= n + BUFSIZE
    requires head == |written| % BUFSIZE && tail == n % BUFSIZE
    requires forall k :: n <= k < |written| ==> nums[k % BUFSIZE] == written[k]
    ensures RingHolds(head, tail, nums, written[n..])
  {
    var items := written[n..];
    forall i | 0 <= i < |items| ensures items[i] == nums[(tail + i) % BUFSIZE] {
      assert items[i] == written[n + i];
      SameCell(tail, n, i);
    }
    SameCell(tail, n, |items|);
  }

  lemma SameCell(tail: int, n: int, i: int)
    requires tail % BUFSIZE == n % BUFSIZE
    ensures (tail + i) % BUFSIZE == (n + i) % BUFSIZE
  {}

  // The values process i sets out to write in a run: one a round, taken when it waits for an empty cell.
  function Given(s: State, run: seq<Action>, i: nat): seq<int>
    requires CanRun(s, run)
    decreases |run|
  {
    if run == [] then []
    else
      (if run[0].proc == i && s.procs[i].WantEmpty? then [run[0].val] else [])
      + Given(Step(s, run[0].proc, run[0].val), run[1..], i)
  }

  // What the steps of process i add to the values written.
  function Put(s: State, run: seq<Action>, i: nat): seq<int>
    requires CanRun(s, run)
    decreases |run|
  {
    if run == [] then []
    else
      var t := Step(s, run[0].proc, run[0].val);
      (if run[0].proc == i && |s.written| <= |t.written| then t.written[|s.written|..] else []) + Put(t, run[1..], i)
  }

  function InHand(p: Process): seq<int> {
    if p.WriteLock? || p.Store? then [p.val] else []
  }

  lemma StepPuts(s: State, a: Action, i: nat)
    requires CanStep(s, a) && i < |s.procs|
    ensures var t := Step(s, a.proc, a.val);
      && |t.procs| == |s.procs| && s.written <= t.written
      && InHand(s.procs[i]) + (if a.proc == i && s.procs[i].WantEmpty? then [a.val] else [])
         == (if a.proc == i then t.written[|s.written|..] else []) + InHand(t.procs[i])
  {}

  lemma Regrouped(had: seq<int>, g: seq<int>, gs: seq<int>, p: seq<int>, has: seq<int>, ps: seq<int>, end: seq<int>)
    requires had + g == p + has && has + gs == ps + end
    ensures had + (g + gs) == (p + ps) + end
  {
    assert had + (g + gs) == (had + g) + gs;
    assert (p + has) + gs == p + (has + gs);
    assert p + (ps + end) == (p + ps) + end;
  }

  lemma {:induction false} PutsWhatItIsGiven(s: State, run: seq<Action>, i: nat)
    requires CanRun(s, run) && i < |s.procs|
    ensures |After(s, run).procs| == |s.procs|
    ensures InHand(s.procs[i]) + Given(s, run, i) == Put(s, run, i) + InHand(After(s, run).procs[i])
    decreases |run|
  {
    hide Step, InHand;
    if run != [] {
      var a := run[0];
      var t := Step(s, a.proc, a.val);
      StepPuts(s, a, i);
      PutsWhatItIsGiven(t, run[1..], i);
      Regrouped(InHand(s.procs[i]), if a.proc == i && s.procs[i].WantEmpty? then [a.val] else [], Given(t, run[1..], i),
                if a.proc == i then t.written[|s.written|..] else [], InHand(t.procs[i]), Put(t, run[1..], i),
                InHand(After(s, run).procs[i]));
    } else {
      assert InHand(s.procs[i]) + [] == [] + InHand(s.procs[i]);
    }
  }

  /** Each writer's values are written, all of them and in its order, but for one
      it may still have in hand. */
  lemma WritersKeepTheirWord(s0: State, run: seq<Action>, i: nat)
    requires Init(s0) && CanRun(s0, run) && i < |s0.procs|
    ensures i < |After(s0, run).procs|
    ensures Given(s0, run, i) == Put(s0, run, i) + InHand(After(s0, run).procs[i])
  {
    PutsWhatItIsGiven(s0, run, i);
    assert [] + Given(s0, run, i) == Given(s0, run, i);
  }

  /** As long as there is a writer and a reader, some process can go on. */
  lemma NeverStuck(s0: State, run: seq<Action>, writer: nat, reader: nat)
    requires Init(s0) && CanRun(s0, run) && writer < |s0.procs| && reader < |s0.procs|
    requires s0.procs[writer].WantEmpty? && s0.procs[reader].WantFull?
    ensures exists i :: 0 <= i < |After(s0, run).procs| && Ready(After(s0, run), i)
  {
    InitOk(s0);
    RunKeepsInv(s0, run);
    RolesKept(s0, run);
    hide Inv, CanRun, After;
    SomeoneReady(After(s0, run), writer, reader);
  }

  predicate Writes(p: Process) {
    p.WantEmpty? || p.WriteLock? || p.Store? || p.AdvanceHead? || p.WriteUnlock? || p.PostFull?
  }

  lemma {:induction false} RolesKept(s: State, run: seq<Action>)
    requires CanRun(s, run)
    ensures |After(s, run).procs| == |s.procs|
    ensures forall i :: 0 <= i < |s.procs| ==> (Writes(After(s, run).procs[i]) <==> Writes(s.procs[i]))
    decreases |run|
  {
    if run != [] {
      RolesKept(Step(s, run[0].proc, run[0].val), run[1..]);
    }
  }

  lemma SomeoneReady(s: State, writer: nat, reader: nat)
    requires Inv(s) && writer < |s.procs| && reader < |s.procs| && Writes(s.procs[writer]) && !Writes(s.procs[reader])
    ensures exists i :: 0 <= i < |s.procs| && Ready(s, i)
  {
    Waiting(s);
    if s.full + s.empty == BUFSIZE && s.lock == 1 {
      assert Ready(s, writer) || s.procs[writer].WantEmpty?;
      assert Ready(s, reader) || s.procs[reader].WantFull?;
    }
  }

  // If nobody can go on, nobody is inside the lock, and so nobody waits for it.
  lemma Waiting(s: State)
    requires Inv(s)
    ensures (forall i :: 0 <= i < |s.procs| ==> !Ready(s, i)) ==> s.full + s.empty == BUFSIZE && s.lock == 1
  {
    if forall i :: 0 <= i < |s.procs| ==> !Ready(s, i) {
      assert forall i :: 0 <= i < |s.procs| ==> !Ready(s, i) ==> Holds(s.procs[i]) == 0;
      SumIsZero(s.procs, Holds);
      assert forall i :: 0 <= i < |s.procs| ==> !Ready(s, i) ==> s.procs[i].WantEmpty? || s.procs[i].WantFull?;
      SumIsZero(s.procs, Filling);
      SumIsZero(s.procs, Filled);
      SumIsZero(s.procs, Emptying);
      SumIsZero(s.procs, Emptied);
    }
  }
}
