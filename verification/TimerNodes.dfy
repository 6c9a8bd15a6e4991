/** Timers, and the doubly linked lists the timing wheel and the sorted list keep them in. */
module TimerNodes {

  class Timer {
    var expire: int
    var rotation: int  // these two only in the wheel
    var slotIdx: int
    var prev: Timer?
    var next: Timer?

    constructor (expire: int)
      ensures this.expire == expire && prev == null && next == null
    {
      this.expire := expire;
      rotation, slotIdx := 0, 0;
      prev, next := null, null;
    }
  }

  function At(q: seq<Timer>, i: int): Timer? {
    if 0 <= i < |q| then q[i] else null
  }

  /** q, in order, is exactly a doubly linked list. */
  ghost predicate Chain(q: seq<Timer>)
    reads q
  {
    && (forall i {:trigger q[i].prev} :: 0 <= i < |q| ==> q[i].prev == At(q, i - 1))
    && (forall i {:trigger q[i].next} :: 0 <= i < |q| ==> q[i].next == At(q, i + 1))
    && Distinct(q)
  }

  /** q, in order, is what following the next links gives. */
  ghost predicate Forward(q: seq<Timer>)
    reads q
  {
    (forall i {:trigger q[i].next} :: 0 <= i < |q| ==> q[i].next == At(q, i + 1)) && Distinct(q)
  }

  predicate Apart(q: seq<Timer>, i: int, j: int)
    requires 0 <= i < |q| && 0 <= j < |q|
  {
    q[i] != q[j]
  }

  ghost predicate Distinct(q: seq<Timer>) {
    forall i, j {:trigger Apart(q, i, j)} :: 0 <= i < j < |q| ==> Apart(q, i, j)
  }

  lemma DistinctFront(t: Timer, q: seq<Timer>)
    requires Distinct(q) && t !in q
    ensures Distinct([t] + q)
  {
    var p := [t] + q;
    forall i, j | 0 <= i < j < |p| ensures Apart(p, i, j) {
      assert i > 0 ==> Apart(q, i - 1, j - 1);
    }
  }

  // A node of a list occurs in it only once.
  lemma Alone(q: seq<Timer>, k: int)
    requires Distinct(q)
    ensures 0 <= k < |q| ==> forall i :: 0 <= i < |q| && i != k ==> q[i] != q[k]
  {
    if 0 <= k < |q| {
      forall i | 0 <= i < |q| && i != k ensures q[i] != q[k] {
        assert Apart(q, if i < k then i else k, if i < k then k else i);
      }
    }
  }

  function Without<X>(q: seq<X>, j: nat): seq<X>
    requires j < |q|
  {
    q[..j] + q[j + 1..]
  }

  lemma AtWithout(q: seq<Timer>, j: nat, i: int)
    requires j < |q|
    ensures At(Without(q, j), i) == At(q, if i < j then i else i + 1)
  {}

  lemma DistinctWithout(q: seq<Timer>, j: nat)
    requires j < |q| && Distinct(q)
    ensures Distinct(Without(q, j))
  {
    var p := Without(q, j);
    forall i, k | 0 <= i < k < |p| ensures Apart(p, i, k) {
      assert Apart(q, if i < j then i else i + 1, if k < j then k else k + 1);
    }
  }

  lemma WithoutInside<X>(q: seq<X>, j: nat)
    requires j < |q|
    ensures |Without(q, j)| == |q| - 1 && forall i :: 0 <= i < |Without(q, j)| ==> Without(q, j)[i] in q
  {}

  lemma NotWithout(q: seq<Timer>, j: nat)
    requires j < |q| && Distinct(q)
    ensures q[j] !in Without(q, j)
  {
    Alone(q, j);
  }

  // Linking the neighbours of node j to each other takes node j out of the list.
  lemma Unlinked(q: seq<Timer>, j: nat)
    requires j < |q| && Distinct(q)
    requires forall i {:trigger q[i].next} :: 0 <= i < |q| && i != j ==>
      q[i].next == At(q, if i == j - 1 then j + 1 else i + 1)
    requires forall i {:trigger q[i].prev} :: 0 <= i < |q| && i != j ==>
      q[i].prev == At(q, if i == j + 1 then j - 1 else i - 1)
    ensures Chain(Without(q, j))
  {
    hide Distinct;
    DistinctWithout(q, j);
    var p := Without(q, j);
    forall i | 0 <= i < |p| ensures p[i].prev == At(p, i - 1) && p[i].next == At(p, i + 1) {
      var k := if i < j then i else i + 1;
      AtWithout(q, j, i - 1);
      AtWithout(q, j, i + 1);
      assert p[i] == q[k] && k != j;
      hide At;
      assert q[k].next == At(q, if k == j - 1 then j + 1 else k + 1);
      assert q[k].prev == At(q, if k == j + 1 then j - 1 else k - 1);
    }
  }

  lemma AtFront(t: Timer, q: seq<Timer>)
    ensures At([t] + q, 0) == t
  {}

  // A node put in front of a list makes a list again exactly when it brings no stale link along.
  lemma Pushed(p: seq<Timer>)
    requires p != [] && Distinct(p)
    requires forall i {:trigger p[i].next} :: 0 <= i < |p| && (i > 0 || |p| > 1) ==> p[i].next == At(p, i + 1)
    requires forall i {:trigger p[i].prev} :: 1 <= i < |p| ==> p[i].prev == At(p, i - 1)
    ensures Chain(p) <==> p[0].prev == null && (|p| == 1 ==> p[0].next == null)
  {}

  function InsertAt<X>(s: seq<X>, p: nat, x: X): seq<X>
    requires p <= |s|
  {
    s[..p] + [x] + s[p..]
  }

  lemma AtInserted(q: seq<Timer>, k: nat, t: Timer, i: int)
    requires k <= |q|
    ensures At(InsertAt(q, k, t), i) == if i < k then At(q, i) else if i == k then t else At(q, i - 1)
  {}

  lemma DistinctInserted(q: seq<Timer>, k: nat, t: Timer)
    requires k <= |q| && Distinct(q) && t !in q
    ensures Distinct(InsertAt(q, k, t))
  {
    var p := InsertAt(q, k, t);
    forall i, j | 0 <= i < j < |p| ensures Apart(p, i, j) {
      assert i != k && j != k ==> Apart(q, if i < k then i else i - 1, if j < k then j else j - 1);
    }
  }

  lemma AtDropped(q: seq<Timer>, k: nat, i: int)
    requires k <= |q| && i >= 0
    ensures At(q[k..], i) == At(q, k + i)
  {}

  lemma DistinctDropped(q: seq<Timer>, k: nat)
    requires k <= |q| && Distinct(q)
    ensures Distinct(q[k..])
  {
    var p := q[k..];
    forall i, j | 0 <= i < j < |p| ensures Apart(p, i, j) {
      assert Apart(q, k + i, k + j);
    }
  }

  // ---------- Lists by their next links alone ----------

  lemma ForwardAt(q: seq<Timer>, j: nat)
    requires Forward(q) && j < |q|
    ensures Distinct(q) && q[j].next == At(q, j + 1)
  {}

  lemma ForwardPushed(q: seq<Timer>, t: Timer)
    requires Forward(q) && t !in q && t.next == At(q, 0)
    ensures Forward([t] + q)
  {
    hide Distinct, At;
    DistinctFront(t, q);
    var p := [t] + q;
    forall i | 0 <= i < |p| ensures p[i].next == At(p, i + 1) {
      AtInserted(q, 0, t, i + 1);
      assert InsertAt(q, 0, t) == p;
      if i > 0 {
        assert p[i] == q[i - 1];
      }
    }
  }

  lemma ForwardInserted(q: seq<Timer>, k: nat, t: Timer)
    requires 1 <= k <= |q| && Distinct(q) && t !in q && t.next == At(q, k)
    requires forall i {:trigger q[i].next} :: 0 <= i < |q| ==> q[i].next == if i == k - 1 then t else At(q, i + 1)
    ensures Forward(InsertAt(q, k, t))
  {
    hide Distinct, At;
    DistinctInserted(q, k, t);
    var p := InsertAt(q, k, t);
    forall i | 0 <= i < |p| ensures p[i].next == At(p, i + 1) {
      AtInserted(q, k, t, i + 1);
      if i != k {
        var j := if i < k then i else i - 1;
        assert p[i] == q[j];
        assert q[j].next == if j == k - 1 then t else At(q, j + 1);
      }
    }
  }

  lemma ForwardWithout(q: seq<Timer>, j: nat)
    requires j < |q| && Distinct(q)
    requires forall i {:trigger q[i].next} :: 0 <= i < |q| && i != j ==>
      q[i].next == At(q, if i == j - 1 then j + 1 else i + 1)
    ensures Forward(Without(q, j))
  {
    hide Distinct, At;
    DistinctWithout(q, j);
    var p := Without(q, j);
    forall i | 0 <= i < |p| ensures p[i].next == At(p, i + 1) {
      var k := if i < j then i else i + 1;
      AtWithout(q, j, i + 1);
      assert p[i] == q[k] && k != j;
      assert q[k].next == At(q, if k == j - 1 then j + 1 else k + 1);
    }
  }

  lemma ForwardDropped(q: seq<Timer>, k: nat)
    requires k <= |q| && Forward(q)
    ensures Forward(q[k..]) && At(q[k..], 0) == At(q, k)
  {
    hide Distinct, At;
    var p := q[k..];
    AtDropped(q, k, 0);
    DistinctDropped(q, k);
    forall i | 0 <= i < |p| ensures p[i].next == At(p, i + 1) {
      assert p[i] == q[k + i];
      AtDropped(q, k, i + 1);
    }
  }
}
