/** The heap and the sorted list of timers, operation by operation, as steps of a trace. */
module TimerAgreement {
  import opened Wrappers
  import opened TimerNodes
  import opened TimerOrder
  import opened TimerTraces
  import opened TimerCoded
  import opened HeapOrder
  import opened TimerHeap
  import opened TimerList

  // The timers of a heap and their expiries.
  ghost function TimesOf(all: multiset<Timer?>): map<Timer, int>
    reads set t: Timer | t in all
  {
    map t: Timer | t in all :: t.expire
  }

  lemma HeapAdds(all: multiset<Timer?>, t: Timer)
    requires t !in all
    ensures Step(TimesOf(all), Add(t, t.expire), TimesOf(all + multiset{t}), [])
  {
    assert TimesOf(all + multiset{t}) == TimesOf(all)[t := t.expire];
  }

  lemma HeapDeletes(all: multiset<Timer?>, t: Timer)
    requires t in all && Single(all)
    ensures Step(TimesOf(all), Delete(t), TimesOf(all - multiset{t}), [])
  {
    assert TimesOf(all - multiset{t}) == TimesOf(all) - {t};
  }

  lemma HeapTicks(all: multiset<Timer?>, fired: seq<Timer>, rest: multiset<Timer?>, now: int)
    requires Single(all) && FiredDue(all, fired, rest, now)
    ensures Step(TimesOf(all), Tick(now), TimesOf(rest), Entries(fired))
  {
    hide Entries, Single, TimesOf, Due, Undue;
    FiredOnce(all, fired, rest);
    SplitTimes(all, fired, rest, now);
    EntriesListed(fired, Due(TimesOf(all), now));
  }

  lemma SplitTimes(all: multiset<Timer?>, fired: seq<Timer>, rest: multiset<Timer?>, now: int)
    requires FiredDue(all, fired, rest, now)
    ensures TimesOf(rest) == Undue(TimesOf(all), now)
    ensures forall t :: t in Due(TimesOf(all), now) <==> t in fired
    ensures forall t :: t in Due(TimesOf(all), now) ==> Due(TimesOf(all), now)[t] == t.expire
  {
    assert forall t :: t in all <==> t in rest || t in fired;
  }

  lemma EntriesListed(fired: seq<Timer>, m: map<Timer, int>)
    requires forall i, j :: 0 <= i < j < |fired| ==> fired[i] != fired[j]
    requires forall t :: t in m <==> t in fired
    requires forall t :: t in m ==> m[t] == t.expire
    ensures Lists(Entries(fired), m)
  {
    hide Entries;
    forall t | t in m ensures Entry(t, t.expire) in Entries(fired) {
      var i :| 0 <= i < |fired| && fired[i] == t;
      assert Entries(fired)[i] == Entry(t, t.expire);
    }
  }

  lemma FiredOnce(all: multiset<Timer?>, fired: seq<Timer>, rest: multiset<Timer?>)
    requires Single(all) && multiset(fired) + rest == all
    ensures forall i, j :: 0 <= i < j < |fired| ==> fired[i] != fired[j]
    ensures forall t :: t in all <==> t in multiset(fired) || t in rest
    ensures forall t :: t in fired ==> t !in rest && t in all
  {
    forall i, j | 0 <= i < j < |fired| ensures fired[i] != fired[j] {
      assert fired == fired[..j] + [fired[j]] + fired[j + 1..];
      assert fired[i] in fired[..j];
      assert all[fired[j]] >= multiset(fired)[fired[j]] >= multiset(fired[..j])[fired[j]] + 1;
    }
  }

  lemma HeapAdjusts(all: multiset<Timer?>, m: map<Timer, int>, t: Timer)
    requires t in all && m.Keys == TimesOf(all).Keys && forall u: Timer :: u in all && u != t ==> m[u] == u.expire
    ensures Step(m, Adjust(t, t.expire), TimesOf(all), [])
  {
    assert TimesOf(all) == m[t := t.expire];
  }

  // ---------- The containers themselves ----------

  ghost function Times(heap: Heap): map<Timer, int>
    requires heap.Shaped()
    reads heap, heap.slots, heap.slots[..]
  {
    TimesOf(multiset(heap.Items()))
  }

  /** Every operation of the heap is a step of a timer container. */
  method HeapAdd(heap: Heap, t: Timer)
    requires heap.Valid() && t !in heap.Items()
    modifies heap, heap.slots
    ensures heap.Valid() && Step(old(Times(heap)), Add(t, t.expire), Times(heap), [])
  {
    hide Step, TimesOf, IsHeap, Keyed, Single;
    heap.AddTimer(t);
    HeapAdds(old(multiset(heap.Items())), t);
  }

  method HeapDelete(heap: Heap, t: Timer)
    requires heap.Valid() && t in heap.Items()
    modifies heap, heap.slots
    ensures heap.Valid() && Step(old(Times(heap)), Delete(t), Times(heap), [])
  {
    hide Step, TimesOf, IsHeap, Keyed, Single;
    heap.DelTimer(t);
    HeapDeletes(old(multiset(heap.Items())), t);
  }

  method HeapAdjust(heap: Heap, t: Timer, expire: int)
    requires heap.Valid() && t in heap.Items()
    modifies heap, heap.slots, t
    ensures heap.Valid() && Step(old(Times(heap)), Adjust(t, expire), Times(heap), [])
  {
    t.expire := expire;
    heap.AdjustTimer(t);
    HeapAdjusts(multiset(heap.Items()), old(Times(heap)), t);
  }

  method HeapTick(heap: Heap, now: int) returns (fired: seq<Timer>)
    requires heap.Valid()
    modifies heap, heap.slots
    ensures heap.Valid() && Step(old(Times(heap)), Tick(now), Times(heap), Entries(fired))
  {
    hide Step, TimesOf, FiredDue, IsHeap, Keyed, Single;
    fired := heap.Tick(now);
    HeapTicks(old(multiset(heap.Items())), fired, multiset(heap.Items()), now);
  }

  lemma Position(s: seq<Entry<Timer>>, t: Timer, j: nat)
    requires j < |s| && s[j].timer == t && forall i :: 0 <= i < |s| && i != j ==> s[i].timer != t
    ensures IndexOf(s, t) == j
  {}

  lemma Absent(s: seq<Entry<Timer>>, t: Timer)
    requires forall i :: 0 <= i < |s| ==> s[i].timer != t
    ensures IndexOf(s, t) == |s|
  {}

  /** Every operation of the sorted list is the step of the list as written:
      adding a timer whose links are clear, */
  method ListAdd(list: SortedList, t: Timer)
    requires list.Valid() && t !in list.items && t.prev == null && t.next == null
    modifies list, t`prev, t`next, list.items`prev, list.items`next
    ensures Legal(old(list.State()).entries, Add(t, t.expire))
    ensures list.Valid() && Coded(old(list.State()), Add(t, t.expire)) == Done(list.State())
  {
    hide Entries, Place, IndexOf, Added;
    Absent(list.View(), t);
    list.AddTimer(t);
  }

  /** deleting any of its timers, */
  method ListDelete(list: SortedList, t: Timer, ghost j: nat) returns (ok: bool)
    requires list.Valid() && j < |list.items| && list.items[j] == t
    modifies list, list.items`prev, list.items`next, list.Behind(t)`next
    ensures Legal(old(list.State()).entries, Delete(t))
    ensures match Coded(old(list.State()), Delete(t))
      case Done(l) => ok && list.Valid() && list.State() == l
      case NullDereference => !ok
      case _ => j > 0 && old(list.items)[j - 1].next == t
  {
    hide Entries, Without, IndexOf, Deleted;
    Alone(list.items, j);
    Position(list.View(), t, j);
    ok := list.DelTimer(t, j);
  }

  /** changing any expiry and adjusting, */
  method ListAdjust(list: SortedList, t: Timer, expire: int, ghost j: nat)
    requires list.Valid() && j < |list.items| && list.items[j] == t
    requires Coded(list.State(), Adjust(t, expire)).Done?
    modifies list, list.items
    ensures list.Valid() && Coded(old(list.State()), Adjust(t, expire)) == Done(list.State())
  {
    hide Entries, IndexOf, Readjusted;
    ghost var l := list.State();
    Alone(list.items, j);
    Position(list.View(), t, j);
    t.expire := expire;
    assert list.State() == l.(entries := l.entries[j := Entry(t, expire)]);
    list.AdjustTimer(t, j);
  }

  /** and firing what is due. */
  method ListTick(list: SortedList, now: int) returns (fired: seq<Timer>)
    requires list.Valid()
    modifies list`head, list`items, list`backs, list.items`prev
    ensures list.Valid() && Coded(old(list.State()), Tick(now)) == Done(list.State())
    ensures Entries(fired) == Fired(old(list.State()).entries, Tick(now))
  {
    hide Entries, DueCount, Ticked, Forward, Coded, Fired;
    CodedTick(list.State(), now);
    fired := list.Tick(now);
  }

  lemma CodedTick(l: ListState<Timer>, now: int)
    ensures Fired(l.entries, Tick(now)) == l.entries[..DueCount(l.entries, now)]
    ensures l.Shaped() ==> Coded(l, Tick(now)) == Done(Ticked(l, now))
  {}
}
