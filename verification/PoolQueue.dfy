/** The linked job queue does what the pool's steps do to their queue. */
module PoolQueue {
  import opened JobQueue
  import opened ThreadPool

  // The linked queue holds the jobs of the pool's queue, by their numbers.
  ghost predicate Holds(q: Queue, s: State)
    reads q, q.jobs
  {
    && q.Valid() && |q.jobs| == |s.queue|
    && forall k :: 0 <= k < |s.queue| ==> q.jobs[k].work == s.queue[k]
  }

  method PushStep(q: Queue, job: Job, ghost s: State)
    requires Holds(q, s) && Enabled(s, AddPush) && job !in q.jobs && job.next == null && job.work == s.pushed
    modifies q, q.jobs
    ensures Holds(q, Apply(s, AddPush))
  {
    q.Push(job);
  }

  method PopStep(q: Queue, ghost s: State, ghost i: nat, ghost wake: nat) returns (job: Job?)
    requires Holds(q, s) && Enabled(s, Work(i, wake)) && s.workers[i].Pop?
    modifies q
    ensures Holds(q, Apply(s, Work(i, wake)))
    ensures job != null ==> s.queue != [] && job.work == s.queue[0]
    ensures Apply(s, Work(i, wake)).workers[i] == if job == null then DoneLock else Running(s.queue[0])
  {
    job := q.Pop();
  }

  method ClearStep(q: Queue, ghost s: State) returns (ghost freed: seq<Job>, ghost readsFreed: bool)
    requires Holds(q, s) && s.destroyer.Clear?
    modifies q
    ensures Holds(q, Apply(s, Destroy)) && |freed| == |s.queue|
    ensures (forall k :: 0 <= k < |s.queue| ==> freed[k].work == s.queue[k]) && (readsFreed <==> s.queue != [])
  {
    freed, readsFreed := q.Clear();
  }
}
