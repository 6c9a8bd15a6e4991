/** The pool's job queue: a singly linked list with a tail pointer and a length.
    Its three operations are one lock section each. */
module JobQueue {

  class Job {
    const work: int
    var next: Job?

    constructor (work: int)
      ensures this.work == work && next == null
    {
      this.work := work;
      next := null;
    }
  }

  predicate Apart(q: seq<Job>, i: int, j: int)
    requires 0 <= i < |q| && 0 <= j < |q|
  {
    q[i] != q[j]
  }

  // q, in order, is exactly a linked list.
  ghost predicate Linked(q: seq<Job>)
    reads q
  {
    && (forall i {:trigger q[i].next} :: 0 <= i < |q| ==> q[i].next == if i + 1 < |q| then q[i + 1] else null)
    && (forall i, j {:trigger Apart(q, i, j)} :: 0 <= i < j < |q| ==> Apart(q, i, j))
  }

  class Queue {
    var head: Job?
    var tail: Job?
    var len: int
    ghost var jobs: seq<Job>  // the waiting jobs, oldest first

    ghost predicate Valid()
      reads this, jobs
    {
      && len == |jobs| && Linked(jobs)
      && head == (if jobs == [] then null else jobs[0])
      && tail == (if jobs == [] then null else jobs[|jobs| - 1])
    }

    constructor ()
      ensures Valid() && jobs == []
    {
      head, tail, len, jobs := null, null, 0, [];
    }

    /** A job goes to the back.  The queue stays a list exactly when the caller
        has cleared the job's link. */
    method Push(job: Job)
      requires Valid() && job !in jobs
      modifies this, jobs
      ensures jobs == old(jobs) + [job] && len == old(len) + 1
      ensures Valid() <==> job.next == null
    {
      ghost var q := jobs;
      if tail != null {
        tail.next := job;
      } else {
        head := job;
      }
      tail := job;
      len := len + 1;
      jobs := q + [job];
      assert jobs[|q|] == job;
      assert forall i, j :: 0 <= i < j < |jobs| ==> Apart(jobs, i, j) by {
        forall i, j | 0 <= i < j < |jobs| ensures Apart(jobs, i, j) {
          assert j < |q| ==> Apart(q, i, j);
        }
      }
    }

    /** The oldest job comes out, with its link still in place; null only from an empty queue. */
    method Pop() returns (job: Job?)
      requires Valid()
      modifies this
      ensures Valid()
      ensures if old(jobs) == [] then job == null && jobs == [] else job == old(jobs)[0] && jobs == old(jobs)[1..]
    {
      if len == 0 {
        job := null;
      } else {
        job := head;
        head := job.next;
        if head == null {
          tail := null;
        }
        len := len - 1;
        Shorter(jobs);
        jobs := jobs[1..];
      }
    }

    /** Empties the queue, freeing every job once, oldest first.  A job's link is
        read when the job has just been freed: the queue comes out right as long
        as freed memory keeps its contents, and no freed job is read exactly if
        none was waiting. */
    method Clear() returns (ghost freed: seq<Job>, ghost readsFreed: bool)
      requires Valid()
      modifies this
      ensures Valid() && jobs == [] && len == 0 && freed == old(jobs)
      ensures readsFreed <==> old(jobs) != []
    {
      ghost var q, k := jobs, 0;
      freed, readsFreed := [], false;
      while head != null
        invariant 0 <= k <= |q| && len == |q| - k && head == (if k == |q| then null else q[k])
        invariant freed == q[..k] && jobs == q[k..] && Linked(q) && (readsFreed <==> k > 0)
        decreases |q| - k
      {
        assert q[..k + 1] == q[..k] + [q[k]] && q[..k + 1][k] == q[k];
        var job := head;
        freed := freed + [job];
        readsFreed := readsFreed || head in freed;
        head := head.next;
        len := len - 1;
        k := k + 1;
        jobs := q[k..];
      }
      head, tail := null, null;
    }
  }

  lemma Shorter(q: seq<Job>)
    requires Linked(q) && q != []
    ensures Linked(q[1..]) && q[0].next == if q[1..] == [] then null else q[1..][0]
  {
    var p := q[1..];
    forall i, j | 0 <= i < j < |p| ensures Apart(p, i, j) {
      assert Apart(q, i + 1, j + 1);
    }
    forall i | 0 <= i < |p| ensures p[i].next == if i + 1 < |p| then p[i + 1] else null {
      assert p[i] == q[i + 1];
    }
  }
}
