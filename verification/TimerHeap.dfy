/** The timer heap: a growing array of timers in heap order of expiry. */
module TimerHeap {
  import opened TimerNodes
  import opened HeapOrder

  ghost predicate Single(m: multiset<Timer?>) {
    forall t :: t in m ==> m[t] == 1
  }

  // A stretch of slots holding timers with these expiries.
  ghost predicate Keyed(q: seq<Timer?>, k: seq<int>)
    reads q
  {
    |q| == |k| && null !in q && forall i :: 0 <= i < |q| ==> q[i].expire == k[i]
  }

  lemma KeyedLength(q: seq<Timer?>, k: seq<int>)
    requires Keyed(q, k)
    ensures |k| == |q|
  {}

  lemma KeyedSwap(q: seq<Timer?>, k: seq<int>, i: int, j: int)
    requires Keyed(q, k) && 0 <= i < |q| && 0 <= j < |q|
    ensures |k| == |q| && Keyed(Swap(q, i, j), Swap(k, i, j))
  {}

  lemma KeyedPush(q: seq<Timer?>, k: seq<int>, t: Timer)
    requires Keyed(q, k)
    ensures Keyed(q + [t], k + [t.expire])
  {}

  lemma KeyedTaken(q: seq<Timer?>, k: seq<int>, i: int)
    requires Keyed(q, k) && 0 <= i < |q|
    ensures |k| == |q| && Keyed(Taken(q, i), Taken(k, i))
  {}

  lemma KeyedButOne(q: seq<Timer?>, k: seq<int>, t: Timer)
    requires Single(multiset(q)) && |k| == |q| && null !in q
    requires forall i :: 0 <= i < |q| && q[i] != t ==> q[i].expire == k[i]
    ensures forall i :: 0 <= i < |q| && q[i] == t ==> Keyed(q, k[i := t.expire])
    ensures t !in q ==> Keyed(q, k)
  {
    hide Single;
    Once(q);
  }

  class Heap {
    var slots: array<Timer?>
    var capacity: int
    var size: int
    ghost var keys: seq<int>  // the expiries the slots in use are ordered by

    ghost predicate Shaped()
      reads this, slots
    {
      0 <= size <= capacity == slots.Length && capacity > 0 && Single(multiset(Items()))
    }

    ghost function Items(): (q: seq<Timer?>)
      requires 0 <= size <= slots.Length
      reads this, slots
      ensures |q| == size
    {
      slots[..size]
    }

    ghost predicate Current()
      reads this, slots, slots[..]
    {
      Shaped() && Keyed(Items(), keys)
    }

    ghost predicate Valid()
      reads this, slots, slots[..]
    {
      Current() && IsHeap(keys)
    }

    // What is in a slot in use.
    lemma InSlot(i: int)
      requires Current() && 0 <= i < size
      ensures |keys| == size && slots[i] != null && slots[i].expire == keys[i] && Items()[i] == slots[i]
    {
      assert Items()[i] == slots[i];
    }

    constructor ()
      ensures Valid() && size == 0 && fresh(slots)
    {
      capacity, size, keys := 5, 0, [];
      slots := new Timer?[5](_ => null);
    }

    method SwapSlots(i: int, j: int)
      requires Current() && 0 <= i < size && 0 <= j < size
      modifies slots, this`keys
      ensures Current() && |keys| == size && keys == Swap(old(keys), i, j)
      ensures multiset(Items()) == multiset(old(Items()))
    {
      hide Single, Keyed;
      ghost var a := slots[..];
      ItemsAre(a);
      SwappedSlots(a, keys, i, j, size);
      slots[i], slots[j] := slots[j], slots[i];
      keys := Swap(keys, i, j);
      ItemsAre(a[i := a[j]][j := a[i]]);
    }

    method PercolateUp(start: int)
      requires Current() && 0 <= start < size && RisesAt(keys, start)
      modifies slots, this`keys
      ensures Valid() && multiset(Items()) == multiset(old(Items()))
    {
      hide Single, Keyed, IsHeap, RisesAt, Swap;
      var i := start;
      while i > 0
        invariant 0 <= i < size && Current() && RisesAt(keys, i)
        invariant multiset(Items()) == multiset(old(Items()))
      {
        var parent := i / 2;
        InSlot(i);
        InSlot(parent);
        if slots[i].expire < slots[parent].expire {
          Risen(keys, i);
          SwapSlots(i, parent);
          i := parent;
        } else {
          break;
        }
      }
      KeyedLength(Items(), keys);
      RisenToRest(keys, i);
    }

    method PercolateDown(start: int)
      requires Current() && 0 <= start < size && SinksAt(keys, start)
      modifies slots, this`keys
      ensures Valid() && multiset(Items()) == multiset(old(Items()))
    {
      hide Single, Keyed, IsHeap, SinksAt, Swap;
      var i := start;
      while 2 * i < size
        invariant 0 <= i < size && Current() && SinksAt(keys, i)
        invariant multiset(Items()) == multiset(old(Items()))
        decreases size - i
      {
        var child := SmallerChild(i);
        InSlot(i);
        InSlot(child);
        if slots[child].expire < slots[i].expire {
          Sunk(keys, i);
          SwapSlots(i, child);
          i := child;
        } else {
          break;
        }
      }
      KeyedLength(Items(), keys);
      SunkToRest(keys, i);
    }

    method SmallerChild(i: int) returns (child: int)
      requires Current() && 0 <= i && 2 * i < size
      ensures |keys| == size && child == Child(keys, i)
    {
      hide Single, Keyed;
      child := 2 * i;
      InSlot(child);
      if child + 1 < size {
        InSlot(child + 1);
        if slots[child + 1].expire < slots[child].expire {
          child := child + 1;
        }
      }
    }

    method Resize()
      requires Shaped()
      modifies this`capacity, this`slots
      ensures capacity == 2 * old(capacity) && fresh(slots) && Shaped() && Items() == old(Items())
    {
      hide Single;
      var n, was := size, slots;
      capacity := capacity * 2;
      var bigger := new Timer?[capacity](_ => null);
      for i := 0 to n
        modifies bigger
        invariant bigger[..i] == was[..i]
      {
        bigger[i] := was[i];
      }
      slots := bigger;
      assert Items() == was[..n];
    }

    method GetIdx(timer: Timer) returns (idx: int)
      requires Shaped()
      ensures 0 <= idx <= size && (idx < size ==> slots[idx] == timer) && (idx == size ==> timer !in Items())
    {
      hide Single;
      idx := 0;
      while idx < size && slots[idx] != timer
        invariant 0 <= idx <= size && timer !in slots[..idx]
      {
        idx := idx + 1;
      }
    }

    // slots[size++] = timer.
    method Append(timer: Timer)
      requires Current() && size < capacity && timer !in Items()
      modifies this`size, this`keys, slots
      ensures Current() && Items() == old(Items()) + [timer] && keys == old(keys) + [timer.expire]
    {
      hide Single, Keyed;
      ghost var q := Items();
      KeyedPush(q, keys, timer);
      slots[size] := timer;
      size := size + 1;
      keys := keys + [timer.expire];
      assert Items() == q + [timer];
      SinglePushed(q, timer);
    }

    method AddTimer(timer: Timer)
      requires Valid() && timer !in Items()
      modifies this, slots
      ensures Valid() && (slots == old(slots) || fresh(slots))
      ensures multiset(Items()) == multiset(old(Items())) + multiset{timer}
    {
      hide Single, Keyed, IsHeap, RisesAt;
      if size == capacity {
        Resize();
      }
      KeyedLength(Items(), keys);
      LongerHeap(keys, timer.expire);
      Append(timer);
      PercolateUp(size - 1);
    }

    /** The caller has given the timer another expiry, which the heap was not ordered by. */
    method AdjustTimer(timer: Timer)
      requires Shaped() && IsHeap(keys) && |keys| == size && null !in Items()
      requires forall i :: 0 <= i < size && Items()[i] != timer ==> Items()[i].expire == keys[i]
      modifies slots, this`keys
      ensures Valid() && multiset(Items()) == multiset(old(Items()))
    {
      hide Single, Keyed, IsHeap, RisesAt, SinksAt;
      KeyedButOne(Items(), keys, timer);
      var idx := GetIdx(timer);
      if idx == size {
        return;
      }
      Adjusted(keys, idx, timer.expire);
      keys := keys[idx := timer.expire];
      var parent := idx / 2;
      InSlot(idx);
      InSlot(parent);
      if slots[idx].expire < slots[parent].expire {
        PercolateUp(idx);
      } else if 2 * idx < size {
        var child := SmallerChild(idx);
        InSlot(child);
        if slots[idx].expire > slots[child].expire {
          PercolateDown(idx);
        } else {
          SunkToRest(keys, idx);
        }
      } else {
        SunkToRest(keys, idx);
      }
    }

    // slots[idx] = slots[--size], slots[size] = nullptr.
    method TakeOut(idx: int)
      requires Current() && 0 <= idx < size
      modifies this`size, this`keys, slots
      ensures Current() && size == old(size) - 1 && (slots[idx] == null <==> idx == size)
      ensures multiset(Items()) == multiset(old(Items())) - multiset{old(slots[idx])}
      ensures |old(keys)| == old(size) && keys == Taken(old(keys), idx)
    {
      hide Single, Keyed, Taken;
      ghost var a, k := slots[..], keys;
      ItemsAre(a);
      TakenSlots(a, k, idx, size - 1);
      size := size - 1;
      slots[idx] := slots[size];
      slots[size] := null;
      keys := Taken(keys, idx);
      ItemsAre(a[idx := a[size]][size := null]);
    }

    lemma ItemsAre(a: seq<Timer?>)
      requires 0 <= size <= slots.Length && a == slots[..]
      ensures Items() == a[..size]
    {}

    method DelTimer(timer: Timer)
      requires Valid()
      modifies this`size, this`keys, slots
      ensures Valid() && multiset(Items()) == multiset(old(Items())) - multiset{timer}
    {
      hide Single, Keyed, IsHeap, RisesAt, SinksAt, Taken, Items;
      if size == 0 {
        return;
      }
      var idx := GetIdx(timer);
      if idx == size {
        return;
      }
      InSlot(idx);
      TakenHeap(keys, idx);
      TakeOut(idx);
      if slots[idx] != null {
        InSlot(idx);
        if slots[idx].expire < timer.expire {
          PercolateUp(idx);
        } else {
          PercolateDown(idx);
        }
      }
    }

    method RemoveFirst()
      requires Valid() && size > 0
      modifies this`size, this`keys, slots
      ensures Valid() && size < old(size) && multiset(Items()) == multiset(old(Items())) - multiset{old(slots[0])}
    {
      hide Single, Keyed, IsHeap, SinksAt, Taken;
      if size == 1 {
        NoTimers(Items());
        size, keys := size - 1, [];
        return;
      }
      InSlot(0);
      RootIsLeast(keys, size - 1);
      TakenHeap(keys, 0);
      TakeOut(0);
      PercolateDown(0);
    }

    /** Fires exactly the timers that are due, in expiry order, and keeps the others. */
    method Tick(now: int) returns (fired: seq<Timer>)
      requires Valid()
      modifies this`size, this`keys, slots
      ensures Valid() && FiredDue(multiset(old(Items())), fired, multiset(Items()), now)
    {
      hide Single, Keyed, IsHeap, FiredFrom, FiredDue, Items;
      ghost var all := multiset(Items());
      fired := [];
      NoneFired(all, now);
      if size == 0 {
        FiredAll(all, fired, Items(), keys, now);
        return;
      }
      while size != 0 && InUse(0).expire <= now
        invariant Valid() && FiredFrom(all, fired, multiset(Items()), now)
        decreases size
      {
        InSlot(0);
        FiredFirst(all, fired, Items(), keys, now);
        fired := fired + [slots[0]];
        assert FiredFrom(all, fired, multiset(Items()) - multiset{slots[0]}, now);
        RemoveFirst();
      }
      if size > 0 {
        InSlot(0);
      }
      FiredAll(all, fired, Items(), keys, now);
    }

    // The timer in a slot in use.
    function InUse(i: int): (t: Timer)
      requires Current() && 0 <= i < size
      reads this, slots, slots[..]
      ensures t == slots[i]
    {
      InSlot(i);
      slots[i]
    }
  }

  // fired came out of all in expiry order, rest is left, and none of it was due earlier.
  ghost predicate FiredFrom(all: multiset<Timer?>, fired: seq<Timer>, rest: multiset<Timer?>, now: int)
    reads set t: Timer | t in all
  {
    && multiset(fired) + rest == all
    && (forall t :: t in fired ==> t.expire <= now)
    && (forall i, j :: 0 <= i < j < |fired| ==> fired[i].expire <= fired[j].expire)
    && (forall i, t: Timer :: 0 <= i < |fired| && t in rest ==> fired[i].expire <= t.expire)
  }

  lemma NoneFired(all: multiset<Timer?>, now: int)
    ensures FiredFrom(all, [], all, now)
  {}

  lemma FiredFirst(all: multiset<Timer?>, fired: seq<Timer>, q: seq<Timer?>, k: seq<int>, now: int)
    requires FiredFrom(all, fired, multiset(q), now)
    requires q != [] && Keyed(q, k) && IsHeap(k) && q[0] != null && q[0].expire <= now
    ensures FiredFrom(all, fired + [q[0]], multiset(q) - multiset{q[0]}, now)
  {
    hide IsHeap;
    FirstIsLeast(q, k);
  }

  // fired is the timers of all that are due, in expiry order, and rest the others.
  ghost predicate FiredDue(all: multiset<Timer?>, fired: seq<Timer>, rest: multiset<Timer?>, now: int)
    reads set t: Timer | t in all
  {
    && multiset(fired) + rest == all
    && (forall t :: t in fired ==> t.expire <= now)
    && (forall i, j :: 0 <= i < j < |fired| ==> fired[i].expire <= fired[j].expire)
    && (forall t: Timer :: t in rest ==> t in all && t.expire > now)
  }

  lemma FiredAll(all: multiset<Timer?>, fired: seq<Timer>, q: seq<Timer?>, k: seq<int>, now: int)
    requires FiredFrom(all, fired, multiset(q), now) && Keyed(q, k) && IsHeap(k)
    requires q == [] || (q[0] != null && q[0].expire > now)
    ensures FiredDue(all, fired, multiset(q), now)
  {
    hide Keyed, IsHeap;
    if q != [] {
      FirstIsLeast(q, k);
    }
  }

  lemma FirstIsLeast(q: seq<Timer?>, k: seq<int>)
    requires q != [] && Keyed(q, k) && IsHeap(k)
    ensures forall t :: t in q ==> q[0].expire <= t.expire
  {
    hide IsHeap;
    forall i | 0 <= i < |q| ensures q[0].expire <= q[i].expire {
      RootIsLeast(k, i);
    }
  }

  lemma TakenSlots(a: seq<Timer?>, k: seq<int>, i: int, n: int)
    requires 0 <= i <= n < |a| && Single(multiset(a[..n + 1])) && Keyed(a[..n + 1], k)
    ensures |k| == n + 1
    ensures var b := a[i := a[n]][n := null];
      && Single(multiset(b[..n])) && Keyed(b[..n], Taken(k, i)) && (b[i] == null <==> i == n)
      && multiset(b[..n]) == multiset(a[..n + 1]) - multiset{a[i]}
  {
    hide Single;
    var q, b := a[..n + 1], a[i := a[n]][n := null];
    KeyedTaken(q, k, i);
    assert q[n] == a[n] && q[i] == a[i];
    assert b[..n] == Taken(q, i);
    TakenElements(q, i);
    SingleLess(multiset(q), q[i]);
  }

  lemma SwappedSlots(a: seq<Timer?>, k: seq<int>, i: int, j: int, n: int)
    requires 0 <= i < n <= |a| && 0 <= j < n && Single(multiset(a[..n])) && Keyed(a[..n], k)
    ensures |k| == n
    ensures var b := a[i := a[j]][j := a[i]];
      && Single(multiset(b[..n])) && Keyed(b[..n], Swap(k, i, j)) && multiset(b[..n]) == multiset(a[..n])
  {
    hide Single;
    var q, b := a[..n], a[i := a[j]][j := a[i]];
    KeyedSwap(q, k, i, j);
    assert b[..n] == Swap(q, i, j);
    SwapKeepsElements(q, i, j);
  }

  lemma SingleLess(m: multiset<Timer?>, t: Timer?)
    requires Single(m)
    ensures Single(m - multiset{t})
  {}

  lemma SinglePushed(q: seq<Timer?>, t: Timer)
    requires Single(multiset(q)) && t !in q
    ensures Single(multiset(q + [t]))
  {}

  lemma NoTimers(q: seq<Timer?>)
    requires |q| == 1
    ensures Single(multiset(q[..0])) && multiset(q) - multiset{q[0]} == multiset(q[..0])
    ensures Keyed(q[..0], []) && IsHeap([])
  {
    assert q == [q[0]];
  }

  // A timer held once is in one slot only.
  lemma Once(q: seq<Timer?>)
    requires Single(multiset(q))
    ensures forall i, j :: 0 <= i < j < |q| ==> q[i] != q[j]
  {
    forall i, j | 0 <= i < j < |q| ensures q[i] != q[j] {
      assert q == q[..j] + [q[j]] + q[j + 1..];
      assert q[i] in q[..j];
      assert multiset(q)[q[j]] >= multiset(q[..j])[q[j]] + 1;
    }
  }
}
