/** The timing wheel: sixty slots, each a doubly linked list of timers that fire
    when the wheel comes round to the slot and their rotation count is used up. */
module TimerWheel {
  import opened TimerNodes

  const N := 60

  // Division and remainder of C++: the quotient truncates toward zero.
  function TruncDiv(a: int, b: int): int
    requires b > 0
  {
    if a >= 0 then a / b else -((-a) / b)
  }

  function TruncMod(a: int, b: int): (r: int)
    requires b > 0
    ensures -b < r < b
  {
    if a >= 0 then a % b else -((-a) % b)
  }

  // The ticks add_timer computes (SI is one second), and where they put the timer.
  function Ticks(expire: int, now: int): int {
    if expire - now == 0 then 1 else expire - now
  }

  function SlotFor(cur: int, ticks: int): int {
    TruncMod(cur + ticks, N)
  }

  /** Ticks until a timer of this slot and rotation count fires, the hand being at cur. */
  function TicksLeft(slot: int, rotation: int, cur: int): int {
    (slot - cur - 1) % N + 1 + N * (if rotation > 0 then rotation else 0)
  }

  lemma TickDown(slot: int, rotation: int, cur: int)
    requires 0 <= slot < N && 0 <= cur < N
    ensures var next := (cur + 1) % N;
      && (slot == next && rotation <= 0 <==> TicksLeft(slot, rotation, cur) == 1)
      && TicksLeft(slot, if slot == next then rotation - 1 else rotation, next)
         == TicksLeft(slot, rotation, cur) - 1 + (if slot == next && rotation <= 0 then N else 0)
  {}

  /** When a timer added with this many ticks fires: late by a whole revolution
      if N divides the ticks, and within one revolution if the expiry is past. */
  function FireDelay(ticks: int): int {
    if ticks > 0 then ticks + (if ticks % N == 0 then N else 0)
    else if ticks % N == 0 then N
    else ticks % N
  }

  lemma AddedTicksLeft(cur: int, ticks: int)
    requires 0 <= cur < N && ticks != 0 && SlotFor(cur, ticks) >= 0
    ensures TicksLeft(SlotFor(cur, ticks), TruncDiv(ticks, N), cur) == FireDelay(ticks)
  {
    if ticks > 0 {
      AheadTicksLeft(cur, ticks / N, ticks % N);
    } else {
      PastTicksLeft(cur, -ticks);
    }
  }

  lemma AheadTicksLeft(cur: int, d: int, r: int)
    requires 0 <= cur < N && 0 <= d && 0 <= r < N && d + r > 0
    ensures TicksLeft(SlotFor(cur, N * d + r), d, cur) == N * d + if r == 0 then N else r
  {
    assert SlotFor(cur, N * d + r) == if cur + r < N then cur + r else cur + r - N;
  }

  lemma PastTicksLeft(cur: int, late: int)
    requires 0 <= cur < N && late > 0 && SlotFor(cur, -late) >= 0
    ensures TicksLeft(SlotFor(cur, -late), -(late / N), cur) == if (-late) % N == 0 then N else (-late) % N
  {
    if late <= cur {
      assert late / N == 0 && SlotFor(cur, -late) == cur - late;
      Below(late);
      Below(late + 1);
    } else {
      hide SlotFor;
      WrapsToZero(cur, late, (late - cur) / N);
      Below(cur + 1);
    }
  }

  lemma Below(x: int)
    requires 0 < x <= N
    ensures (-x) % N == if x == N then 0 else N - x
  {}

  lemma WrapsToZero(cur: int, late: int, m: int)
    requires 0 <= cur < N && cur < late && SlotFor(cur, -late) >= 0 && m == (late - cur) / N
    ensures SlotFor(cur, -late) == 0 && late == cur + N * m && m > 0
    ensures late / N >= 0 && (-late) % N == if cur == 0 then 0 else N - cur
  {
    assert (late - cur) % N == 0;
  }

  /** After how many ticks a timer fires, from its expiry and the time alone. */
  lemma AddedDelay(expire: int, now: int)
    ensures var d := expire - now;
      FireDelay(Ticks(expire, now)) ==
        if d == 0 then 1 else if d > 0 then d + (if d % 60 == 0 then 60 else 0) else if d % 60 == 0 then 60 else d % 60
  {}

  // When there is a slot for it.
  lemma HasSlotIff(cur: int, expire: int, now: int)
    requires 0 <= cur < N
    ensures SlotFor(cur, Ticks(expire, now)) >= 0 <==> now - expire <= cur || (now - expire - cur) % 60 == 0
  {}

  /** A timer just added fires after exactly as many ticks as it has seconds left
      when it expires in the future and 60 does not divide them, and only then. */
  lemma FiresOnTimeIff(cur: int, expire: int, now: int)
    requires 0 <= cur < N && (now - expire <= cur || (now - expire - cur) % 60 == 0)
    ensures var ticks := Ticks(expire, now);
      TicksLeft(SlotFor(cur, ticks), TruncDiv(ticks, N), cur) == expire - now <==>
        expire > now && (expire - now) % 60 != 0
  {
    HasSlotIff(cur, expire, now);
    AddedTicksLeft(cur, Ticks(expire, now));
    AddedDelay(expire, now);
  }

  /** q, in order, is exactly a doubly linked list, and every node of it
      carries the slot's index. */
  ghost predicate Linked(q: seq<Timer>, slot: int)
    reads q
  {
    && (forall i {:trigger q[i].slotIdx} :: 0 <= i < |q| ==> q[i].slotIdx == slot)
    && Chain(q)
  }

  lemma LinkedDistinct(q: seq<Timer>, slot: int)
    requires Linked(q, slot)
    ensures Distinct(q)
  {}

  // The nodes of q that lie in s, in order.
  function Select<T>(q: seq<T>, s: set<T>): seq<T> {
    if q == [] then []
    else Select(q[..|q| - 1], s) + if q[|q| - 1] in s then [q[|q| - 1]] else []
  }

  lemma {:induction false} WithoutIsSelect(q: seq<Timer>, j: nat, s: set<Timer>)
    requires j < |q| && q[j] !in s && forall i :: 0 <= i < |q| && i != j ==> q[i] in s
    ensures Select(q, s) == Without(q, j) && |Without(q, j)| == |q| - 1
  {
    var p := q[..|q| - 1];
    if j < |q| - 1 {
      WithoutIsSelect(p, j, s);
      assert Without(q, j) == Without(p, j) + [q[|q| - 1]];
    } else {
      SelectAll(p, s);
    }
  }

  lemma {:induction false} RejectMembers<T>(q: seq<T>, s: set<T>)
    ensures |Reject(q, s)| == |q| - |Select(q, s)|
    ensures forall x :: x in Reject(q, s) <==> x in q && x !in s
  {
    if q != [] {
      RejectMembers(q[..|q| - 1], s);
    }
  }

  lemma {:induction false} RejectElements<T>(q: seq<T>, s: set<T>)
    ensures forall i :: 0 <= i < |Reject(q, s)| ==> Reject(q, s)[i] in q && Reject(q, s)[i] !in s
  {
    if q != [] {
      RejectElements(q[..|q| - 1], s);
    }
  }

  lemma {:induction false} RejectDistinct(q: seq<Timer>, s: set<Timer>)
    requires Distinct(q)
    ensures Distinct(Reject(q, s))
  {
    if q != [] {
      var p, last := q[..|q| - 1], q[|q| - 1];
      DistinctFronts(q);
      RejectDistinct(p, s);
      RejectElements(p, s);
      if last !in s {
        DistinctBack(Reject(p, s), last);
      } else {
        assert Reject(q, s) == Reject(p, s);
      }
    }
  }

  // All but the last of a list without repetition.
  lemma DistinctFronts(q: seq<Timer>)
    requires Distinct(q) && q != []
    ensures Distinct(q[..|q| - 1]) && q[|q| - 1] !in q[..|q| - 1]
  {
    var p := q[..|q| - 1];
    forall i, j | 0 <= i < j < |p| ensures Apart(p, i, j) {
      assert Apart(q, i, j);
    }
    Alone(q, |q| - 1);
  }

  lemma DistinctBack(q: seq<Timer>, t: Timer)
    requires Distinct(q) && t !in q
    ensures Distinct(q + [t])
  {
    var p := q + [t];
    forall i, j | 0 <= i < j < |p| ensures Apart(p, i, j) {
      assert j < |q| ==> Apart(q, i, j);
    }
  }

  lemma OneLess(q: seq<Timer>, j: nat, slot: int, s: set<Timer>)
    requires j < |q| && Linked(q, slot) && forall t :: t in q ==> t in s
    ensures Select(q, s - {q[j]}) == Without(q, j) && |Without(q, j)| == |q| - 1
  {
    Alone(q, j);
    WithoutIsSelect(q, j, s - {q[j]});
  }

  function Reject<T>(q: seq<T>, s: set<T>): seq<T> {
    if q == [] then []
    else Reject(q[..|q| - 1], s) + if q[|q| - 1] in s then [] else [q[|q| - 1]]
  }

  lemma {:induction false} SelectMembers<T>(q: seq<T>, s: set<T>)
    ensures forall x :: x in Select(q, s) <==> x in q && x in s
  {
    if q != [] {
      SelectMembers(q[..|q| - 1], s);
    }
  }

  lemma {:induction false} SelectAll<T>(q: seq<T>, s: set<T>)
    requires forall i :: 0 <= i < |q| ==> q[i] in s
    ensures Select(q, s) == q
  {
    if q != [] {
      SelectAll(q[..|q| - 1], s);
    }
  }

  // How far a sweep over q has got: k timers visited, chain is what the slot's list looks like now.
  ghost predicate Swept(q: seq<Timer>, stay: set<Timer>, k: nat, kept: seq<Timer>, fired: seq<Timer>,
                        visited: set<Timer>, chain: seq<Timer>)
  {
    && Distinct(q) && k <= |q| && chain == kept + q[k..]
    && kept == Select(q[..k], stay) && fired == Reject(q[..k], stay)
    && visited == (set t | t in q[..k])
  }

  lemma SweepStarts(q: seq<Timer>, stay: set<Timer>)
    requires Distinct(q)
    ensures Swept(q, stay, 0, [], [], {}, q)
  {}

  lemma SweepSees(q: seq<Timer>, stay: set<Timer>, k: nat, kept: seq<Timer>, fired: seq<Timer>,
                  visited: set<Timer>, chain: seq<Timer>)
    requires Swept(q, stay, k, kept, fired, visited, chain) && At(q, k) != null
    ensures k < |q| && At(q, k) == q[k] && q[k] !in visited && q[k] in q
    ensures |kept| < |chain| && chain[|kept|] == q[k] && At(chain, |kept| + 1) == At(q, k + 1)
    ensures forall t :: t in chain ==> t in q
  {
    SelectMembers(q[..k], stay);
    Alone(q, k);
  }

  // What visiting node j leaves of the list q, and of the fired timers.
  function Left(q: seq<Timer>, j: nat, fires: bool): seq<Timer>
    requires j < |q|
  {
    if fires then Without(q, j) else q
  }

  function Joined(q: seq<Timer>, t: Timer, joins: bool): (r: seq<Timer>)
    ensures |r| == |q| + if joins then 1 else 0
  {
    if joins then q + [t] else q
  }

  lemma SweepMoves(q: seq<Timer>, stay: set<Timer>, k: nat, kept: seq<Timer>, fired: seq<Timer>,
                   visited: set<Timer>, chain: seq<Timer>)
    requires Swept(q, stay, k, kept, fired, visited, chain) && k < |q| && |kept| < |chain|
    ensures var fires := q[k] !in stay;
      Swept(q, stay, k + 1, Joined(kept, q[k], !fires), Joined(fired, q[k], fires), visited + {q[k]},
            Left(chain, |kept|, fires))
  {
    assert q[..k + 1][..k] == q[..k];
  }

  lemma SweepEnds(q: seq<Timer>, stay: set<Timer>, k: nat, kept: seq<Timer>, fired: seq<Timer>,
                  visited: set<Timer>, chain: seq<Timer>)
    requires Swept(q, stay, k, kept, fired, visited, chain) && At(q, k) == null
    ensures chain == Select(q, stay) && fired == Reject(q, stay) && visited == (set t | t in q)
  {
    assert q[..k] == q;
  }

  ghost function Total(lists: seq<seq<Timer>>): nat {
    if lists == [] then 0 else |lists[0]| + Total(lists[1..])
  }

  lemma {:induction false} TotalUpdate(lists: seq<seq<Timer>>, s: nat, q: seq<Timer>)
    requires s < |lists|
    ensures Total(lists[s := q]) + |lists[s]| == Total(lists) + |q|
  {
    if s == 0 {
      assert lists[s := q][1..] == lists[1..];
    } else {
      assert lists[s := q][1..] == lists[1..][s - 1 := q];
      TotalUpdate(lists[1..], s - 1, q);
    }
  }

  class Wheel {
    const slots: array<Timer?>
    var curSlot: int
    var count: int
    ghost var lists: seq<seq<Timer>>  // the timers of each slot, in list order
    ghost var timers: set<Timer>      // all of them

    // Who is in which slot, whatever the links say.
    ghost predicate Filed()
      reads this, timers
    {
      && slots.Length == N == |lists| && 0 <= curSlot < N
      && (forall s, i :: 0 <= s < N && 0 <= i < |lists[s]| ==> lists[s][i] in timers && lists[s][i].slotIdx == s)
      && (forall t :: t in timers ==> 0 <= t.slotIdx < N && t in lists[t.slotIdx])
      && count == Total(lists)
    }

    ghost predicate Valid()
      reads this, slots, timers
    {
      && Filed()
      && forall s :: 0 <= s < N ==> slots[s] == At(lists[s], 0) && Linked(lists[s], s)
    }

    /** Ticks until t fires. */
    ghost function Remaining(t: Timer): int
      reads this, t
    {
      TicksLeft(t.slotIdx, t.rotation, curSlot)
    }

    ghost function Due(): set<Timer>
      reads this, timers
    {
      set t | t in timers && Remaining(t) == 1
    }

    constructor ()
      ensures Valid() && timers == {} && curSlot == 0 && fresh(slots)
    {
      slots := new Timer?[N](_ => null);
      curSlot, count := 0, 0;
      lists := seq(N, _ => []);
      timers := {};
      new;
      EmptyTotal(lists);
    }

    // Changing only nodes of slot s leaves the other slots linked.
    twostate lemma OtherSlotsKept(s: int)
      requires old(Valid()) && 0 <= s < N && |lists| == N
      requires forall u :: 0 <= u < N && u != s ==> lists[u] == old(lists)[u] && slots[u] == old(slots[u])
      requires forall t :: t in old(timers) && old(t.slotIdx) != s ==>
        t.prev == old(t.prev) && t.next == old(t.next) && t.slotIdx == old(t.slotIdx)
      ensures forall u :: 0 <= u < N && u != s ==> slots[u] == At(lists[u], 0) && Linked(lists[u], u)
    {
      forall u | 0 <= u < N && u != s ensures Linked(lists[u], u) {
        assert old(Linked(lists[u], u));
      }
    }

    // A timer counted in and put in front of its slot, nothing else having changed.
    ghost predicate PutInFront(timer: Timer, lists0: seq<seq<Timer>>, timers0: set<Timer>, count0: int)
      reads this, timer
    {
      && 0 <= timer.slotIdx < N == |lists0|
      && lists == lists0[timer.slotIdx := [timer] + lists0[timer.slotIdx]]
      && timers == timers0 + {timer} && timer !in timers0 && count == count0 + 1
    }

    // Links a timer in at the front of its slot.
    method PushFront(timer: Timer)
      requires Valid() && 0 <= timer.slotIdx < N && timer !in timers
      modifies this`lists, this`timers, this`count, slots, timer`next, timers`prev
      ensures PutInFront(timer, old(lists), old(timers), old(count)) && slots[timer.slotIdx] == timer
      ensures forall u :: 0 <= u < N && u != timer.slotIdx ==> slots[u] == old(slots[u])
      ensures forall t :: t in old(timers) && t.slotIdx != timer.slotIdx ==> t.prev == old(t.prev)
      ensures Linked(lists[timer.slotIdx], timer.slotIdx) <==>
        timer.prev == null && (old(lists)[timer.slotIdx] == [] ==> old(timer.next) == null)
    {
      ghost var s, q := timer.slotIdx, lists[timer.slotIdx];
      assert Linked(q, s);
      Alone(q, 0);
      DistinctFront(timer, q);
      if slots[timer.slotIdx] == null {
        slots[timer.slotIdx] := timer;
      } else {
        timer.next := slots[timer.slotIdx];
        slots[timer.slotIdx].prev := timer;
        slots[timer.slotIdx] := timer;
      }
      count := count + 1;
      lists, timers := lists[s := [timer] + q], timers + {timer};
      Pushed([timer] + q);
    }

    twostate lemma AddedFiled(timer: Timer)
      requires old(Filed()) && PutInFront(timer, old(lists), old(timers), old(count)) && curSlot == old(curSlot)
      requires forall t :: t in old(timers) ==> t.slotIdx == old(t.slotIdx)
      ensures Filed()
    {
      TotalUpdate(old(lists), timer.slotIdx, [timer] + old(lists)[timer.slotIdx]);
      forall t | t in timers ensures 0 <= t.slotIdx < N && t in lists[t.slotIdx] {
        if t != timer {
          assert t in old(lists)[t.slotIdx];
        }
      }
    }

    twostate lemma CountdownAdded(timer: Timer)
      requires curSlot == old(curSlot) && timers == old(timers) + {timer}
      requires forall t :: t in old(timers) ==> t.slotIdx == old(t.slotIdx) && t.rotation == old(t.rotation)
      requires timer !in old(timers)
      ensures Countdown() == old(Countdown())[timer := Remaining(timer)]
    {
      hide TicksLeft;
    }

    twostate lemma Added(timer: Timer)
      requires old(Valid()) && PutInFront(timer, old(lists), old(timers), old(count)) && curSlot == old(curSlot)
      requires slots[timer.slotIdx] == timer
      requires forall u :: 0 <= u < N && u != timer.slotIdx ==> slots[u] == old(slots[u])
      requires forall t :: t in old(timers) ==> t.slotIdx == old(t.slotIdx) && t.rotation == old(t.rotation)
      requires forall t :: t in old(timers) && t.slotIdx != timer.slotIdx ==>
        t.prev == old(t.prev) && t.next == old(t.next)
      ensures Filed() && (Valid() <==> Linked(lists[timer.slotIdx], timer.slotIdx))
      ensures Countdown() == old(Countdown())[timer := Remaining(timer)]
    {
      hide Linked, At, Remaining, Countdown, Total;
      var s := timer.slotIdx;
      AddedFiled(timer);
      OtherSlotsKept(s);
      AtFront(timer, old(lists)[s]);
      CountdownAdded(timer);
    }

    twostate lemma CountdownRemoved(timer: Timer)
      requires curSlot == old(curSlot) && timers == old(timers) - {timer}
      requires forall t :: t in old(timers) ==> t.slotIdx == old(t.slotIdx) && t.rotation == old(t.rotation)
      ensures Countdown() == old(Countdown()) - {timer}
    {}

    /** Not ok: the expiry is so far in the past that the slot index comes out negative. */
    method AddTimer(timer: Timer, now: int) returns (ok: bool)
      requires Valid() && timer !in timers
      modifies this, slots, timers, timer
      ensures ok <==> now - timer.expire <= curSlot || (now - timer.expire - curSlot) % 60 == 0
      ensures Filed() && curSlot == old(curSlot)
      ensures timer.slotIdx == SlotFor(curSlot, Ticks(timer.expire, now)) && timer.expire == old(timer.expire)
      ensures timer.rotation == TruncDiv(Ticks(timer.expire, now), N)
      ensures if ok then PutInFront(timer, old(lists), old(timers), old(count)) else Valid() && timers == old(timers)
      ensures ok ==>
        (Valid() <==> old(timer.prev) == null && (old(lists)[timer.slotIdx] == [] ==> old(timer.next) == null))
      ensures Countdown() ==
        if ok then
          var d := timer.expire - now;
          old(Countdown())[timer :=
            if d == 0 then 1
            else if d > 0 then d + (if d % 60 == 0 then 60 else 0)
            else if d % 60 == 0 then 60 else d % 60]
        else old(Countdown())
    {
      hide Countdown, Remaining, FireDelay, TruncDiv, SlotFor, Filed, Valid, PutInFront;
      SetSlot(timer, Ticks(timer.expire, now));
      HasSlotIff(curSlot, timer.expire, now);
      AddedDelay(timer.expire, now);
      ok := timer.slotIdx >= 0;
      if ok {
        File(timer);
      }
    }

    // Counts a timer in and links it into the slot it names.
    method File(timer: Timer)
      requires Valid() && 0 <= timer.slotIdx < N && timer !in timers
      modifies this`lists, this`timers, this`count, slots, timer`next, timers`prev
      ensures Filed() && PutInFront(timer, old(lists), old(timers), old(count)) && |old(lists)| == N
      ensures Valid() <==> timer.prev == null && (old(lists)[timer.slotIdx] == [] ==> old(timer.next) == null)
      ensures Countdown() == old(Countdown())[timer := Remaining(timer)] && Remaining(timer) == old(Remaining(timer))
    {
      hide Countdown, TicksLeft, At, Total, Linked;
      PushFront(timer);
      Added(timer);
    }

    // When and where a timer is to fire.
    method SetSlot(timer: Timer, ticks: int)
      requires Valid() && timer !in timers && ticks != 0
      modifies timer`rotation, timer`slotIdx
      ensures Filed() && Valid() && Countdown() == old(Countdown()) && 0 <= curSlot < N
      ensures timer.rotation == TruncDiv(ticks, N) && timer.slotIdx == SlotFor(curSlot, ticks) < N
      ensures timer.slotIdx >= 0 ==> Remaining(timer) == FireDelay(ticks)
    {
      hide TruncDiv, TruncMod, FireDelay, TicksLeft, At, Total;
      if SlotFor(curSlot, ticks) >= 0 {
        AddedTicksLeft(curSlot, ticks);
      }
      timer.rotation := TruncDiv(ticks, N);
      timer.slotIdx := TruncMod(curSlot + ticks, N);
      forall u | 0 <= u < N ensures Linked(lists[u], u) {
        assert old(Linked(lists[u], u));
      }
      assert Filed();
    }

    // The relinking of del_timer: takes node j out of its slot, whose list is q.
    method Unlink(timer: Timer, ghost q: seq<Timer>, ghost j: nat, ghost all: set<Timer>)
      requires slots.Length == N && j < |q| && timer == q[j] && 0 <= timer.slotIdx < N
      requires slots[timer.slotIdx] == At(q, 0) && Linked(q, timer.slotIdx) && forall t :: t in q ==> t in all
      modifies slots, all`prev, all`next
      ensures Linked(Without(q, j), timer.slotIdx) && slots[timer.slotIdx] == At(Without(q, j), 0)
      ensures forall u :: 0 <= u < N && u != timer.slotIdx ==> slots[u] == old(slots[u])
      ensures forall t :: t in all && t.slotIdx != timer.slotIdx ==> t.prev == old(t.prev) && t.next == old(t.next)
      ensures timer.prev == old(timer.prev) && timer.next == old(timer.next)
    {
      assert timer.prev == At(q, j - 1) && timer.next == At(q, j + 1);
      Alone(q, j - 1);
      Alone(q, j + 1);
      if timer.prev != null {
        timer.prev.next := timer.next;
      } else {
        slots[timer.slotIdx] := timer.next;
      }
      if timer.next != null {
        timer.next.prev := timer.prev;
      }
      Unlinked(q, j);
      AtWithout(q, j, 0);
    }

    twostate lemma RemovedFiled(s: int)
      requires old(Filed()) && 0 <= s < N && |lists| == N && 0 <= curSlot < N
      requires lists == old(lists)[s := lists[s]] && timers <= old(timers)
      requires forall t :: t in lists[s] <==> t in old(lists)[s] && t in timers
      requires forall t :: t in old(timers) && t.slotIdx != s ==> t in timers
      requires forall t :: t in old(timers) ==> t.slotIdx == old(t.slotIdx)
      requires count == old(count) + |lists[s]| - |old(lists)[s]|
      ensures Filed()
    {
      TotalUpdate(old(lists), s, lists[s]);
    }

    // The loop over a slot's list, up to the null link a search in vain ends at.
    method Search(timer: Timer, ghost q: seq<Timer>) returns (cur: Timer?)
      requires slots.Length == N && 0 <= timer.slotIdx < N
      requires slots[timer.slotIdx] == At(q, 0) && Linked(q, timer.slotIdx)
      ensures cur == if timer in q then timer else null
    {
      ghost var k := 0;
      cur := slots[timer.slotIdx];
      while cur != null && cur != timer
        invariant 0 <= k <= |q| && cur == At(q, k) && timer !in q[..k]
        decreases |q| - k
      {
        cur := cur.next;
        k := k + 1;
      }
    }

    // Takes a timer found in its slot's list out of it.
    method TakeOut(timer: Timer, ghost q: seq<Timer>)
      requires Valid() && timer in timers && 0 <= timer.slotIdx < N && q == lists[timer.slotIdx]
      modifies this, slots, timers
      ensures Valid() && timers == old(timers) - {timer} && curSlot == old(curSlot)
      ensures 0 <= timer.slotIdx < N && lists == old(lists)[timer.slotIdx := Select(old(lists)[timer.slotIdx], timers)]
      ensures Countdown() == old(Countdown()) - {timer}
      ensures timer.prev == old(timer.prev) && timer.next == old(timer.next) && timer.slotIdx == old(timer.slotIdx)
      ensures forall t :: t in old(timers) ==> t.expire == old(t.expire)
    {
      hide Countdown, TicksLeft;
      hide At, Linked, Total, Without, Select, Distinct;
      ghost var s := timer.slotIdx;
      ghost var j :| 0 <= j < |q| && q[j] == timer;
      assert Linked(q, s);
      OneLess(q, j, s, timers);
      Unlink(timer, q, j, timers);
      count := count - 1;
      timers := timers - {timer};
      SelectMembers(q, timers);
      lists := lists[s := Select(q, timers)];
      RemovedFiled(s);
      OtherSlotsKept(s);
      CountdownRemoved(timer);
    }

    /** Not ok: the timer is not in the wheel, and the search leaves the slots or
        follows the null link at the end of one. */
    method DelTimer(timer: Timer) returns (ok: bool)
      requires Valid()
      modifies this, slots, timers
      ensures ok <==> timer in old(timers)
      ensures Filed() && Valid() && timers == old(timers) - {timer} && curSlot == old(curSlot)
      ensures if !ok then lists == old(lists)
              else 0 <= timer.slotIdx < N
                   && lists == old(lists)[timer.slotIdx := Select(old(lists)[timer.slotIdx], timers)]
      ensures Countdown() == old(Countdown()) - {timer}
      ensures timer.prev == old(timer.prev) && timer.next == old(timer.next) && timer.slotIdx == old(timer.slotIdx)
      ensures forall t :: t in old(timers) ==> t.expire == old(t.expire)
    {
      hide Linked, Total, Select, Remaining;
      ok := 0 <= timer.slotIdx < N;
      if ok {
        var cur := Search(timer, lists[timer.slotIdx]);
        ok := cur != null;
        if ok {
          TakeOut(cur, lists[cur.slotIdx]);
        }
      }
    }

    lemma AllTheirOwn()
      requires Valid()
      ensures |lists| == N && forall u :: 0 <= u < N ==> Select(lists[u], timers) == lists[u]
    {
      forall u | 0 <= u < N ensures Select(lists[u], timers) == lists[u] {
        SelectAll(lists[u], timers);
      }
    }

    /** Re-adding a timer whose links still point to its old neighbours: the
        wheel survives exactly when the timer was first in its slot and, should
        the target slot be empty by then, also last.  Not ok: the timer is not in
        the wheel, or its new expiry has no slot and it ends up outside. */
    method AdjustTimer(timer: Timer, now: int) returns (ok: bool)
      requires Valid()
      modifies this, slots, timers, timer
      ensures ok <==>
        timer in old(timers) && (now - timer.expire <= curSlot || (now - timer.expire - curSlot) % 60 == 0)
      ensures Filed() && curSlot == old(curSlot) && timer.expire == old(timer.expire)
      ensures timers == if ok then old(timers) else old(timers) - {timer}
      ensures ok ==> timer.slotIdx == SlotFor(curSlot, Ticks(timer.expire, now))
      ensures Countdown() ==
        if ok then
          var d := timer.expire - now;
          old(Countdown())[timer :=
            if d == 0 then 1
            else if d > 0 then d + (if d % 60 == 0 then 60 else 0)
            else if d % 60 == 0 then 60 else d % 60]
        else old(Countdown()) - {timer}
      ensures Valid() <==>
        (ok ==>
          && old(timer.prev) == null
          && (Select(old(lists)[timer.slotIdx], timers - {timer}) == [] ==> old(timer.next) == null))
    {
      hide TruncDiv, TruncMod, SlotFor, Ticks, Linked, Select, FireDelay, TicksLeft, Countdown, Filed, Valid;
      AllTheirOwn();
      ok := DelTimer(timer);
      if ok {
        AllTheirOwn();
        ghost var others, rest, from := timers, lists, timer.slotIdx;
        ok := AddTimer(timer, now);
        if ok {
          ghost var s := timer.slotIdx;
          assert timers == old(timers) && timers - {timer} == others;
          assert rest[s] == Select(rest[s], others);
          assert s == from || rest[s] == old(lists)[s];
        }
      }
    }

    /** What adjust_timer needs to be sound for every timer: the old links cleared in between. */
    method AdjustClearingLinks(timer: Timer, now: int) returns (ok: bool)
      requires Valid()
      modifies this, slots, timers, timer
      ensures ok <==>
        timer in old(timers) && (now - timer.expire <= curSlot || (now - timer.expire - curSlot) % 60 == 0)
      ensures Valid() && curSlot == old(curSlot) && timer.expire == old(timer.expire)
      ensures timers == if ok then old(timers) else old(timers) - {timer}
      ensures Countdown() ==
        if ok then
          var d := timer.expire - now;
          old(Countdown())[timer :=
            if d == 0 then 1
            else if d > 0 then d + (if d % 60 == 0 then 60 else 0)
            else if d % 60 == 0 then 60 else d % 60]
        else old(Countdown()) - {timer}
    {
      hide TruncDiv, TruncMod, SlotFor, Ticks, Linked, Select, FireDelay, TicksLeft, Countdown, Filed, Valid;
      ok := DelTimer(timer);
      if ok {
        ClearLinks(timer);
        ok := AddTimer(timer, now);
        assert ok ==> timers == old(timers);
      }
    }

    method ClearLinks(timer: Timer)
      requires Valid() && timer !in timers
      modifies timer`prev, timer`next
      ensures Valid() && Countdown() == old(Countdown()) && timer.prev == null && timer.next == null
    {
      timer.prev, timer.next := null, null;
    }

    // The relinking of tick: takes node j out of the slot under the hand, whose list is q.
    method UnlinkFired(cur: Timer, ghost q: seq<Timer>, ghost j: nat, ghost own: set<Timer>) returns (next: Timer?)
      requires slots.Length == N && j < |q| && cur == q[j] && 0 <= curSlot < N
      requires slots[curSlot] == At(q, 0) && Linked(q, curSlot) && forall t :: t in q ==> t in own
      modifies slots, own`prev, own`next
      ensures Linked(Without(q, j), curSlot) && slots[curSlot] == At(Without(q, j), 0) && next == At(q, j + 1)
      ensures forall u :: 0 <= u < N && u != curSlot ==> slots[u] == old(slots[u])
    {
      assert cur.prev == At(q, j - 1) && cur.next == At(q, j + 1);
      Alone(q, j - 1);
      Alone(q, j + 1);
      next := cur.next;
      if cur == slots[curSlot] {
        if next != null {
          next.prev := null;
        }
        slots[curSlot] := next;
      } else {
        if next != null {
          next.prev := cur.prev;
        }
        cur.prev.next := next;
      }
      Unlinked(q, j);
      AtWithout(q, j, 0);
    }

    // The timer at node j has rotations left.
    method Defer(cur: Timer, ghost q: seq<Timer>, ghost j: nat) returns (next: Timer?)
      requires j < |q| && cur == q[j] && Linked(q, curSlot)
      modifies cur`rotation
      ensures Linked(q, curSlot) && next == At(q, j + 1) && cur.rotation == old(cur.rotation) - 1
    {
      cur.rotation := cur.rotation - 1;
      next := cur.next;
    }

    // One round of the loop of tick, at node j of the slot's list q.
    method Visit(cur: Timer, ghost q: seq<Timer>, ghost j: nat, ghost own: set<Timer>)
      returns (fires: bool, next: Timer?)
      requires slots.Length == N && j < |q| && cur == q[j] && 0 <= curSlot < N
      requires slots[curSlot] == At(q, 0) && Linked(q, curSlot) && forall t :: t in q ==> t in own
      modifies slots, own`prev, own`next, cur`rotation, `count
      ensures fires <==> old(cur.rotation) <= 0
      ensures next == At(q, j + 1) && count == old(count) - if fires then 1 else 0
      ensures Linked(Left(q, j, fires), curSlot) && slots[curSlot] == At(Left(q, j, fires), 0)
      ensures forall u :: 0 <= u < N && u != curSlot ==> slots[u] == old(slots[u])
      ensures cur.rotation == old(cur.rotation) - if fires then 0 else 1
    {
      hide At, Without, Linked;
      fires := cur.rotation <= 0;
      if cur.rotation > 0 {
        next := Defer(cur, q, j);
      } else {
        next := UnlinkFired(cur, q, j, own);
        count := count - 1;
      }
    }

    // The loop of tick over the slot under the hand; stay are its timers with rotations left.
    method Sweep(ghost q: seq<Timer>, ghost stay: set<Timer>, ghost own: set<Timer>) returns (fired: seq<Timer>)
      requires slots.Length == N && 0 <= curSlot < N && slots[curSlot] == At(q, 0) && Linked(q, curSlot)
      requires own == (set t | t in q) && forall t :: t in own ==> (t in stay <==> t.rotation > 0)
      modifies slots, own`prev, own`next, own`rotation, `count
      ensures Linked(Select(q, stay), curSlot) && slots[curSlot] == At(Select(q, stay), 0)
      ensures forall u :: 0 <= u < N && u != curSlot ==> slots[u] == old(slots[u])
      ensures fired == Reject(q, stay) && count == old(count) - |fired|
      ensures forall t :: t in own ==> t.rotation == old(t.rotation) - if t in stay then 1 else 0
    {
      hide At, Left, Joined, Select, Reject, Linked, Chain, Distinct, Swept;
      LinkedDistinct(q, curSlot);
      var cur := slots[curSlot];
      ghost var k: nat := 0;
      ghost var kept: seq<Timer>, visited: set<Timer>, chain := [], {}, q;
      fired := [];
      SweepStarts(q, stay);
      while cur != null
        invariant cur == At(q, k) && Swept(q, stay, k, kept, fired, visited, chain)
        invariant Linked(chain, curSlot) && slots[curSlot] == At(chain, 0)
        invariant count == old(count) - |fired|
        invariant forall u :: 0 <= u < N && u != curSlot ==> slots[u] == old(slots[u])
        invariant forall t :: t in own ==> t.rotation == old(t.rotation) - if t in visited && t in stay then 1 else 0
        decreases |q| - k
      {
        SweepSees(q, stay, k, kept, fired, visited, chain);
        SweepMoves(q, stay, k, kept, fired, visited, chain);
        var timer, fires := cur, false;
        fires, cur := Visit(cur, chain, |kept|, own);
        fired := Joined(fired, timer, fires);
        chain := Left(chain, |kept|, fires);
        kept, visited, k := Joined(kept, timer, !fires), visited + {timer}, k + 1;
      }
      SweepEnds(q, stay, k, kept, fired, visited, chain);
    }

    // The same, told of all the timers of the wheel.
    method SweepSlot(ghost q: seq<Timer>, ghost stay: set<Timer>, ghost all: set<Timer>) returns (fired: seq<Timer>)
      requires slots.Length == N && 0 <= curSlot < N && slots[curSlot] == At(q, 0) && Linked(q, curSlot)
      requires forall t :: t in q ==> t in all && (t in stay <==> t.rotation > 0)
      requires forall t :: t in all ==> (t.slotIdx == curSlot <==> t in q)
      modifies slots, all`prev, all`next, all`rotation, `count
      ensures Linked(Select(q, stay), curSlot) && slots[curSlot] == At(Select(q, stay), 0)
      ensures forall u :: 0 <= u < N && u != curSlot ==> slots[u] == old(slots[u])
      ensures fired == Reject(q, stay) && count == old(count) - |fired|
      ensures forall t :: t in all && t.slotIdx != curSlot ==> t.prev == old(t.prev) && t.next == old(t.next)
      ensures forall t :: t in all ==>
        t.rotation == old(t.rotation) - if t.slotIdx == curSlot && t in stay then 1 else 0
    {
      hide At, Select, Reject, Linked;
      fired := Sweep(q, stay, set t | t in q);
    }

    twostate lemma CountdownTicked()
      requires old(Filed()) && curSlot == (old(curSlot) + 1) % N && timers == old(timers - Due())
      requires forall t :: t in old(timers) ==> t.slotIdx == old(t.slotIdx)
      requires forall t :: t in timers ==> t.rotation == old(t.rotation) - if t.slotIdx == curSlot then 1 else 0
      ensures Countdown() == Later(old(Countdown()), 1)
    {
      forall t | t in timers ensures Remaining(t) == old(Remaining(t)) - 1 && old(Remaining(t)) > 1 {
        TickDown(t.slotIdx, old(t.rotation), old(curSlot));
      }
    }

    // Who is due at the next tick: the timers of the next slot with no rotations left.
    lemma DueIsNext()
      requires Filed()
      ensures Due() == set t | t in timers && t.slotIdx == (curSlot + 1) % N && t.rotation <= 0
    {
      forall t | t in timers ensures Remaining(t) == 1 <==> t.slotIdx == (curSlot + 1) % N && t.rotation <= 0 {
        TickDown(t.slotIdx, t.rotation, curSlot);
      }
    }

    lemma FiredAreDue(q: seq<Timer>, due: set<Timer>)
      requires Filed() && due == Due() && forall t :: t in due ==> t in q
      requires Distinct(q) && forall t :: t in q ==> t in timers
      ensures FireWith(Reject(q, timers - due), Countdown(), 1)
    {
      RejectDistinct(q, timers - due);
      RejectMembers(q, timers - due);
      RejectElements(q, timers - due);
    }

    /** One second of the wheel: fires exactly the timers with one tick
        remaining, and every other timer comes one tick closer. */
    method Tick() returns (fired: seq<Timer>)
      requires Valid()
      modifies this, slots, timers
      ensures Valid() && curSlot == (old(curSlot) + 1) % N
      ensures timers == old(timers - Due()) && fired == Reject(old(lists)[curSlot], timers)
      ensures FireWith(fired, old(Countdown()), 1) && Countdown() == Later(old(Countdown()), 1)
      ensures lists == old(lists)[curSlot := Select(old(lists)[curSlot], timers)]
    {
      hide At, Select, Reject, Linked, Total, Due, Countdown, Distinct, Later, FireWith;
      ghost var due, stay, q := Due(), timers - Due(), lists[(curSlot + 1) % N];
      DueIsNext();
      LinkedDistinct(q, (curSlot + 1) % N);
      FiredAreDue(q, due);
      curSlot := (curSlot + 1) % N;
      fired := SweepSlot(q, stay, timers);
      timers := stay;
      SelectMembers(q, timers);
      RejectMembers(q, timers);
      lists := lists[curSlot := Select(q, timers)];
      RemovedFiled(curSlot);
      OtherSlotsKept(curSlot);
      CountdownTicked();
    }

    /** Over any number of ticks, each timer fires exactly once, on the tick its
        Remaining at the start says, and the others are still there. */
    method Run(ticks: nat) returns (fired: seq<seq<Timer>>)
      requires Valid()
      modifies this, slots, timers
      ensures Valid() && Countdown() == Later(old(Countdown()), ticks)
      ensures |fired| == ticks && forall k :: 0 <= k < ticks ==> FireWith(fired[k], old(Countdown()), k + 1)
    {
      hide Filed, Linked, Valid, Countdown, Later, FireWith, Remaining, Select, Reject;
      fired := [];
      AllAhead();
      ghost var start := Countdown();
      for n := 0 to ticks
        invariant Valid() && Countdown() == Later(start, n) && timers <= old(timers)
        invariant |fired| == n && forall k :: 0 <= k < n ==> FireWith(fired[k], start, k + 1)
      {
        var now := Tick();
        LaterNext(start, n, now);
        fired := fired + [now];
      }
    }

    ghost function Countdown(): map<Timer, int>
      reads this, timers
    {
      map t | t in timers :: Remaining(t)
    }

    lemma AllAhead()
      requires Valid()
      ensures Countdown() == Later(Countdown(), 0)
    {}
  }

  // The second timer put into a slot comes before the first.
  lemma SecondHasBackLink(wheel: Wheel, first: Timer, second: Timer, rest: seq<Timer>)
    requires wheel.Valid() && 0 <= first.slotIdx < N && wheel.lists[first.slotIdx] == [second] + ([first] + rest)
    ensures first in wheel.timers && first.prev == second
  {
    assert wheel.lists[first.slotIdx][1] == first;
  }

  lemma SlotAhead(cur: int, ticks: int)
    requires 0 <= cur && 0 < ticks
    ensures 0 <= SlotFor(cur, ticks) < N
  {}

  // Changing when a timer expires does not move it.
  method SetExpire(wheel: Wheel, timer: Timer, expire: int)
    requires wheel.Valid() && timer in wheel.timers
    modifies timer`expire
    ensures wheel.Valid() && 0 <= wheel.curSlot < N && timer.expire == expire
  {
    hide At, Total, Distinct;
    timer.expire := expire;
    forall u | 0 <= u < N ensures Linked(wheel.lists[u], u) {
      assert old(Linked(wheel.lists[u], u));
    }
    assert wheel.Filed();
  }

  // Puts a new timer in, in front of a slot.
  method AddNew(wheel: Wheel, ticks: int, now: int) returns (timer: Timer)
    requires wheel.Valid() && ticks > 0
    modifies wheel, wheel.slots, wheel.timers
    ensures wheel.Valid() && fresh(timer) && timer.expire == now + ticks && wheel.curSlot == old(wheel.curSlot)
    ensures timer.slotIdx == SlotFor(wheel.curSlot, ticks) && 0 <= timer.slotIdx < N
    ensures wheel.PutInFront(timer, old(wheel.lists), old(wheel.timers), old(wheel.count))
  {
    hide SlotFor, TruncDiv, TruncMod, FireDelay, Linked, At, Total, TicksLeft;
    assert 0 <= wheel.curSlot < N;
    SlotAhead(wheel.curSlot, ticks);
    timer := new Timer(now + ticks);
    assert Ticks(timer.expire, now) == ticks;
    var ok := wheel.AddTimer(timer, now);
    assert ok;
  }

  method AddTwo(wheel: Wheel, now: int) returns (first: Timer)
    requires wheel.Valid()
    modifies wheel, wheel.slots, wheel.timers
    ensures wheel.Valid() && fresh(wheel.timers - old(wheel.timers)) && first in wheel.timers && first.prev != null
  {
    hide SlotFor, Linked, At, Total;
    first := AddNew(wheel, 5, now);
    ghost var rest := wheel.lists[first.slotIdx][1..];
    assert wheel.lists[first.slotIdx] == [first] + rest;
    var second := AddNew(wheel, 5, now);
    SecondHasBackLink(wheel, first, second, rest);
  }

  /** Two timers due in the same second, the older one pushed back to another
      second: re-adding it drags its stale back link along. */
  method AdjustCanBreakTheWheel(wheel: Wheel, now: int)
    requires wheel.Valid()
    modifies wheel, wheel.slots, wheel.timers
    ensures !wheel.Valid()
  {
    hide SlotFor, FireDelay, Select, Linked, At, Total, TicksLeft;
    var first := AddTwo(wheel, now);
    SetExpire(wheel, first, now + 7);
    SlotAhead(wheel.curSlot, 7);
    assert Ticks(first.expire, now) == 7;
    var ok := wheel.AdjustTimer(first, now);
    assert ok;
  }

  /** A timer added and the wheel then left running: the tick it fires on. */
  method AddedTimerFires(wheel: Wheel, timer: Timer, now: int, ticks: nat) returns (fired: seq<seq<Timer>>)
    requires wheel.Valid() && timer !in wheel.timers && timer.prev == null && timer.next == null && timer.expire >= now
    modifies wheel, wheel.slots, wheel.timers, timer
    ensures |fired| == ticks
    ensures var d := old(timer.expire) - now;
      forall k :: 0 <= k < ticks ==>
        (timer in fired[k] <==> k + 1 == if d == 0 then 1 else if d % 60 == 0 then d + 60 else d)
  {
    hide FireDelay, Linked, At, Total, TicksLeft, SlotFor, TruncDiv, Distinct;
    assert 0 <= wheel.curSlot;
    var ok := wheel.AddTimer(timer, now);
    ghost var m := wheel.Countdown();
    fired := wheel.Run(ticks);
    forall k | 0 <= k < ticks ensures timer in fired[k] <==> k + 1 == m[timer] {
      assert FireWith(fired[k], m, k + 1);
    }
  }

  // The timers of a countdown that have not fired after n ticks.
  function Later(m: map<Timer, int>, n: int): map<Timer, int> {
    map t | t in m && m[t] > n :: m[t] - n
  }

  // fired holds exactly the timers of m with n ticks left, each once.
  ghost predicate FireWith(fired: seq<Timer>, m: map<Timer, int>, n: int) {
    && Distinct(fired)
    && (forall i :: 0 <= i < |fired| ==> fired[i] in m && m[fired[i]] == n)
    && (forall t :: t in m && m[t] == n ==> t in fired)
  }

  lemma LaterNext(m: map<Timer, int>, n: nat, fired: seq<Timer>)
    ensures Later(Later(m, n), 1) == Later(m, n + 1)
    ensures FireWith(fired, Later(m, n), 1) ==> FireWith(fired, m, n + 1)
  {}

  lemma {:induction false} EmptyTotal(lists: seq<seq<Timer>>)
    requires forall s :: 0 <= s < |lists| ==> lists[s] == []
    ensures Total(lists) == 0
  {
    if lists != [] {
      EmptyTotal(lists[1..]);
    }
  }
}
