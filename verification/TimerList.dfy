/** The sorted timer list: a doubly linked list kept in expiry order.  Only its
    next links are taken to be right; where the back links and tail lead is part
    of its state. */
module TimerList {
  import opened Wrappers
  import opened TimerNodes
  import opened TimerOrder
  import opened TimerCoded

  function Link(t: Timer?): Option<Timer> {
    if t == null then None else var u: Timer := t; Some(u)
  }

  // b says where the back links of q lead.
  ghost predicate Backed(q: seq<Timer>, b: seq<Option<Timer>>)
    reads q
  {
    |b| == |q| && forall i {:trigger q[i].prev} :: 0 <= i < |q| ==> Link(q[i].prev) == b[i]
  }

  lemma BackedAt(q: seq<Timer>, b: seq<Option<Timer>>, j: nat)
    requires Backed(q, b) && j < |q|
    ensures |b| == |q| && b[j] == Link(q[j].prev)
  {}

  lemma BackedWithout(q: seq<Timer>, b: seq<Option<Timer>>, j: nat)
    requires |b| == |q| && j < |q|
    requires forall i {:trigger q[i].prev} :: 0 <= i < |q| && i != j ==> Link(q[i].prev) == b[i]
    ensures Backed(Without(q, j), Without(b, j))
  {}

  lemma BackedInserted(q: seq<Timer>, b: seq<Option<Timer>>, p: nat, t: Timer)
    requires |b| == |q| && p <= |q|
    requires forall i {:trigger q[i].prev} :: 0 <= i < |q| ==> Link(q[i].prev) == if i == p then Some(t) else b[i]
    ensures Backed(InsertAt(q, p, t), Pointed(b, p, t, Link(t.prev)))
  {}

  lemma BackedDropped(q: seq<Timer>, b: seq<Option<Timer>>, k: nat)
    requires |b| == |q| && k <= |q|
    requires forall i {:trigger q[i].prev} :: k <= i < |q| ==> Link(q[i].prev) == if i == k then None else b[i]
    ensures Backed(q[k..], Cut(b, k))
  {}

  class SortedList {
    var head: Timer?
    var tail: Timer?
    ghost var items: seq<Timer>  // the timers in list order
    ghost var backs: seq<Option<Timer>>  // where their back links lead

    ghost predicate Valid()
      reads this, items
    {
      head == At(items, 0) && Forward(items) && Backed(items, backs)
    }

    ghost function View(): (v: seq<Entry<Timer>>)
      reads this, items`expire
      ensures |v| == |items|
      ensures forall i :: 0 <= i < |v| ==> v[i] == Entry(items[i], items[i].expire)
    {
      Entries(items)
    }

    ghost function State(): (l: ListState<Timer>)
      reads this, items`expire
    {
      ListState(View(), backs, Link(tail))
    }

    constructor ()
      ensures Valid() && items == [] && State() == ListState([], [], None)
    {
      head, tail := null, null;
      items, backs := [], [];
    }

    // The loop of add_timer (util_timer *, util_timer *): the timer to add behind.
    method FindPlace(timer: Timer) returns (cur: Timer, ghost k: nat)
      requires Valid() && items != [] && items[0].expire < timer.expire
      ensures k < |items| && cur == items[k] && k + 1 == Place(View(), timer.expire)
    {
      hide View, Place, Distinct, Backed;
      cur, k := head, 0;
      while cur.next != null && cur.next.expire < timer.expire
        invariant 0 <= k < |items| && cur == items[k]
        invariant forall i :: 0 <= i <= k ==> items[i].expire < timer.expire
        decreases |items| - k
      {
        cur := cur.next;
        k := k + 1;
      }
      assert cur.next == At(items, k + 1);
      PlaceIs(View(), timer.expire, k + 1);
    }

    // add_timer (util_timer *, util_timer *), for a timer that belongs behind the head.
    method AddBehind(timer: Timer)
      requires Valid() && items != [] && items[0].expire < timer.expire && timer !in items
      modifies this`tail, this`items, this`backs, timer`prev, timer`next, items`prev, items`next
      ensures Valid() && items == InsertAt(old(items), Place(old(View()), timer.expire), timer)
      ensures State() == Added(old(State()), timer, timer.expire, Link(old(timer.prev)))
    {
      hide Entries, Place, Forward, Backed, InsertAt, Pointed;
      ghost var q, v := items, View();
      var cur, k := FindPlace(timer);
      LinkBehind(timer, cur, k);
      EntriesInserted(q, v, k + 1, timer);
    }

    // Links the timer in behind cur, node k of the list.
    method LinkBehind(timer: Timer, cur: Timer, ghost k: nat)
      requires Valid() && k < |items| && cur == items[k] && timer !in items
      modifies this`tail, this`items, this`backs, timer`prev, timer`next, items`prev, items`next
      ensures Valid() && items == InsertAt(old(items), k + 1, timer)
      ensures |old(backs)| == |old(items)| && backs == Pointed(old(backs), k + 1, timer, Some(cur))
      ensures tail == if k + 1 == |old(items)| then timer else old(tail)
    {
      hide Distinct;
      ghost var q, b := items, backs;
      ForwardAt(q, k);
      Alone(q, k);
      Alone(q, k + 1);
      if cur.next != null {
        timer.next := cur.next;
        cur.next.prev := timer;
        timer.prev := cur;
        cur.next := timer;
      } else {
        timer.prev := cur;
        timer.next := null;
        tail := timer;
        cur.next := timer;
      }
      ForwardInserted(q, k + 1, timer);
      AtInserted(q, k + 1, timer, 0);
      BackedInserted(q, b, k + 1, timer);
      items, backs := InsertAt(q, k + 1, timer), Pointed(b, k + 1, timer, Some(cur));
    }

    method AddInFront(timer: Timer)
      requires Valid() && items != [] && timer !in items
      modifies this`head, this`items, this`backs, timer`next, items`prev
      ensures Valid() && items == InsertAt(old(items), 0, timer) && timer.prev == old(timer.prev)
      ensures |old(backs)| == |old(items)| && backs == Pointed(old(backs), 0, timer, Link(timer.prev))
    {
      hide Distinct;
      ghost var q, b := items, backs;
      Alone(q, 0);
      timer.next := head;
      head.prev := timer;
      head := timer;
      ForwardPushed(q, timer);
      BackedInserted(q, b, 0, timer);
      items, backs := InsertAt(q, 0, timer), Pointed(b, 0, timer, Link(timer.prev));
      assert items == [timer] + q;
    }

    // if (!head) head = tail = timer.
    method AddFirst(timer: Timer)
      requires Valid() && items == []
      modifies this
      ensures items == [timer] && tail == timer && backs == [Link(timer.prev)]
      ensures Valid() <==> timer.next == null
    {
      head := timer;
      tail := timer;
      items, backs := [timer], [Link(timer.prev)];
    }

    /** The timer goes to its place; an only timer keeps both its links, and one
        that comes to the front its back link. */
    method AddTimer(timer: Timer)
      requires Valid() && timer !in items
      modifies this, timer`prev, timer`next, items`prev, items`next
      ensures items == InsertAt(old(items), Place(old(View()), timer.expire), timer)
      ensures State() == Added(old(State()), timer, timer.expire, Link(old(timer.prev)))
      ensures Valid() <==> old(items) != [] || old(timer.next) == null
    {
      hide Entries, Place, Distinct;
      ghost var q, v := items, View();
      PlaceAtFront(v, timer.expire);
      if head == null {
        AddFirst(timer);
        EntriesInserted(q, v, 0, timer);
      } else if head.expire >= timer.expire {
        AddInFront(timer);
        EntriesInserted(q, v, 0, timer);
      } else {
        AddBehind(timer);
      }
    }

    // The timer a back link leads to, if there is one.
    ghost function Behind(timer: Timer): set<Timer>
      reads timer
    {
      if timer.prev == null then {} else {timer.prev}
    }

    /** del_timer follows the timer's own links, so it must be in the list.  It
        takes tail's word for which timer is the last and the back link's for
        which one comes before: it dereferences null (not ok) or unlinks the timer
        from another one, so that the one before keeps its link to it.  Deleting
        the last of several timers leaves tail pointing to it. */
    method DelTimer(timer: Timer, ghost j: nat) returns (ok: bool)
      requires Valid() && j < |items| && items[j] == timer
      modifies this`head, this`tail, this`items, this`backs, items`prev, items`next, Behind(timer)`next
      ensures old(State()).Shaped()
      ensures match Deleted(old(State()), j)
        case Done(l) =>
          && ok && Valid() && items == Without(old(items), j) && State() == l
          && timer.prev == old(timer.prev) && timer.next == old(timer.next)
        case NullDereference => !ok
        case _ => j > 0 && old(items)[j - 1].next == timer
    {
      hide Entries, Without, Forward, Backed;
      ghost var q, v := items, View();
      BackedAt(q, backs, j);
      ok := Relink(timer, j);
      if ok && (j == 0 || old(timer.prev) == q[j - 1]) {
        EntriesWithout(q, v, j);
      }
    }

    // What del_timer does to the links.
    method Relink(timer: Timer, ghost j: nat) returns (ok: bool)
      requires Valid() && j < |items| && items[j] == timer
      modifies this`head, this`tail, this`items, this`backs, items`prev, items`next, Behind(timer)`next
      ensures ok <==> (j == 0 || old(timer.prev) != null) && (old(tail) == timer || j < |old(items)| - 1)
      ensures j > 0 && old(timer.prev) != old(items)[j - 1] ==> old(items)[j - 1].next == timer
      ensures |old(backs)| == |old(items)|
      ensures ok && (j == 0 || old(timer.prev) == old(items)[j - 1]) ==>
        && Valid() && items == Without(old(items), j)
        && tail == (if |old(items)| == 1 then null else old(tail))
        && backs == Without(if old(tail) == timer then old(backs) else old(backs)[j + 1 := old(backs)[j]], j)
        && timer.prev == old(timer.prev) && timer.next == old(timer.next)
    {
      hide Without, Distinct;
      ghost var q, b := items, backs;
      ForwardAt(q, j);
      Alone(q, j);
      Alone(q, j - 1);
      Alone(q, j + 1);
      AtWithout(q, j, 0);
      if timer != head {
        if timer.prev == null {
          return false;
        }
        timer.prev.next := timer.next;
      }
      if timer != tail {
        if timer.next == null {
          return false;
        }
        timer.next.prev := timer.prev;
        b := b[j + 1 := b[j]];
      }
      if head == timer {
        head := head.next;
        if head == null {
          tail := null;
        }
      }
      if j == 0 || old(timer.prev) == q[j - 1] {
        ForwardWithout(q, j);
        BackedWithout(q, b, j);
        items, backs := Without(q, j), Without(b, j);
      }
      ok := true;
    }

    /** Re-sorting one timer: only a timer out of order on both sides is moved,
        and to the front it takes its old back link along. */
    method AdjustTimer(timer: Timer, ghost j: nat)
      requires Valid() && j < |items| && items[j] == timer
      requires State().Shaped() && Readjusted(State(), j).Done?
      modifies this, items`prev, items`next
      ensures Valid() && State() == Readjusted(old(State()), j).state
    {
      hide Without, InsertAt, Place, Entries, Backed, Forward, Deleted, Added, Readjusted;
      Tested(timer, j);
      if (timer.prev == null || timer.expire >= timer.prev.expire)
        || (timer.next == null || timer.expire <= timer.next.expire)
      {
        return;
      }
      ghost var q := items;
      var ok := DelTimer(timer, j);
      NotWithout(q, j);
      WithoutInside(q, j);
      AddTimer(timer);
    }

    // What the test of adjust_timer finds.
    lemma Tested(timer: Timer, j: nat)
      requires Valid() && j < |items| && items[j] == timer && State().Shaped() && Readjusted(State(), j).Done?
      ensures Distinct(items) && timer in items && (timer.prev == null || timer.prev in items)
      ensures
        if (timer.prev == null || timer.expire >= timer.prev.expire)
          || (timer.next == null || timer.expire <= timer.next.expire)
        then Readjusted(State(), j) == Done(State())
        else
          && |items| > 1 && Deleted(State(), j).Done?
          && Readjusted(State(), j) == Done(Added(Deleted(State(), j).state, timer, timer.expire, Link(timer.prev)))
    {
      hide Entries, Deleted, Added;
      ForwardAt(items, j);
      BackedAt(items, backs, j);
    }

    method Tick(now: int) returns (fired: seq<Timer>)
      requires Valid()
      modifies this`head, this`items, this`backs, items`prev
      ensures Valid() && fired == old(items)[..DueCount(old(View()), now)] && items == old(items)[|fired|..]
      ensures old(State()).Shaped() && State() == Ticked(old(State()), now) && Entries(fired) == old(View())[..|fired|]
    {
      hide Entries, DueCount, Forward, Backed;
      ghost var q, v := items, View();
      BackedLength();
      fired := FireDue(now);
      CutOff(|fired|);
      EntriesTaken(q, v, |fired|);
      EntriesDropped(q, v, |fired|);
    }

    lemma BackedLength()
      requires Valid()
      ensures |backs| == |items|
    {}

    // The loop of tick, up to the first timer that is not due.
    method FireDue(now: int) returns (fired: seq<Timer>)
      requires Valid()
      modifies this`head
      ensures |fired| == DueCount(View(), now) && fired == items[..|fired|] && head == At(items, |fired|)
    {
      hide View, DueCount, Distinct, Backed;
      ghost var k := 0;
      fired := [];
      while head != null && head.expire <= now
        invariant 0 <= k <= |items| && head == At(items, k) && fired == items[..k]
        invariant forall i :: 0 <= i < k ==> items[i].expire <= now
        decreases |items| - k
      {
        fired := fired + [head];
        head := head.next;
        k := k + 1;
      }
      DueCountIs(View(), now, k);
    }

    // The end of tick: the first k timers are gone and the new head has nothing before it.
    method CutOff(ghost k: nat)
      requires Forward(items) && Backed(items, backs) && k <= |items| && head == At(items, k)
      modifies this`items, this`backs, items`prev
      ensures Valid() && items == old(items)[k..] && |old(backs)| == |old(items)| && backs == Cut(old(backs), k)
    {
      hide Distinct;
      ghost var q, b := items, backs;
      Alone(q, k);
      if head != null {
        head.prev := null;
      }
      ForwardDropped(q, k);
      BackedDropped(q, b, k);
      items, backs := q[k..], Cut(b, k);
    }
  }

  lemma EntriesWithout(q: seq<Timer>, v: seq<Entry<Timer>>, j: nat)
    requires |v| == |q| && j < |q| && forall i :: 0 <= i < |v| ==> v[i] == Entry(q[i], q[i].expire)
    ensures Entries(Without(q, j)) == Without(v, j)
  {
    hide Entries;
  }

  lemma EntriesDropped(q: seq<Timer>, v: seq<Entry<Timer>>, k: nat)
    requires |v| == |q| && k <= |q| && forall i :: 0 <= i < |v| ==> v[i] == Entry(q[i], q[i].expire)
    ensures Entries(q[k..]) == v[k..]
  {
    hide Entries;
  }

  lemma EntriesTaken(q: seq<Timer>, v: seq<Entry<Timer>>, k: nat)
    requires |v| == |q| && k <= |q| && forall i :: 0 <= i < |v| ==> v[i] == Entry(q[i], q[i].expire)
    ensures Entries(q[..k]) == v[..k]
  {
    hide Entries;
  }

  lemma EntriesInserted(q: seq<Timer>, v: seq<Entry<Timer>>, p: nat, t: Timer)
    requires |v| == |q| && p <= |q| && forall i :: 0 <= i < |v| ==> v[i] == Entry(q[i], q[i].expire)
    ensures Entries(InsertAt(q, p, t)) == InsertAt(v, p, Entry(t, t.expire))
  {
    hide Entries;
  }
}
