/** The sorted list as written, on plain values, with its back links and tail:
    for which traces it does what it is meant to. */
module TimerCoded {
  import opened Wrappers
  import opened TimerNodes
  import opened TimerOrder
  import opened TimerTraces

  // The entries in list order, the timer each one's back link leads to, and the timer tail points to.
  datatype ListState<T> = ListState(entries: seq<Entry<T>>, backs: seq<Option<T>>, tail: Option<T>) {
    ghost predicate Shaped() { |backs| == |entries| }
  }

  /** How an operation ends.  NullDereference: a null link is followed.
      FreedTimer: a link is followed to a timer that is not in the list any more.
      StillLinked: the timer to delete is unlinked from another one than that
      before it, which therefore keeps its link to the deleted timer. */
  datatype Outcome<T> = Done(state: ListState<T>) | NullDereference | FreedTimer | StillLinked

  // The back link of entry j leads to the entry before it.
  ghost predicate BackRight<T>(l: ListState<T>, j: nat)
    requires l.Shaped() && j < |l.entries|
  {
    l.backs[j] == if j == 0 then None else Some(l.entries[j - 1].timer)
  }

  // The list is a list from both ends.
  ghost predicate TwoWay<T>(l: ListState<T>) {
    l.Shaped() && forall j :: 0 <= j < |l.entries| ==> BackRight(l, j)
  }

  ghost predicate Listed<T>(l: ListState<T>, t: T) {
    IndexOf(l.entries, t) < |l.entries|
  }

  /** del_timer of entry j: it takes the back link's word for which entry is
      before, and tail's for which is the last. */
  ghost function Deleted<T>(l: ListState<T>, j: nat): (out: Outcome<T>)
    requires l.Shaped() && j < |l.entries|
    ensures out.Done? ==> out.state.Shaped() && out.state.entries == Without(l.entries, j)
  {
    var s, t := l.entries, l.entries[j].timer;
    if j > 0 && !BackRight(l, j) then
      match l.backs[j]
      case None => NullDereference
      case Some(v) => if Listed(l, v) then StillLinked else FreedTimer
    else if l.tail != Some(t) && j == |s| - 1 then NullDereference
    else
      var b := if l.tail == Some(t) then l.backs else l.backs[j + 1 := l.backs[j]];
      Done(ListState(Without(s, j), Without(b, j), if |s| == 1 then None else l.tail))
  }

  // The back links after a timer has been put at p with this back link.
  function Pointed<T>(backs: seq<Option<T>>, p: nat, t: T, back: Option<T>): seq<Option<T>>
    requires p <= |backs|
  {
    InsertAt(if p < |backs| then backs[p := Some(t)] else backs, p, back)
  }

  // add_timer of a timer that brings this back link along, which it keeps only at the front.
  ghost function Added<T>(l: ListState<T>, t: T, expire: int, back: Option<T>): (r: ListState<T>)
    requires l.Shaped()
    ensures r.Shaped() && r.entries == InsertAt(l.entries, Place(l.entries, expire), Entry(t, expire))
  {
    var s, p := l.entries, Place(l.entries, expire);
    ListState(InsertAt(s, p, Entry(t, expire)), Pointed(l.backs, p, t, if p == 0 then back else Some(s[p - 1].timer)),
              if p == |s| then Some(t) else l.tail)
  }

  // What adjust_timer tests: entry j is out of order towards both the entry its back link leads to and the next.
  ghost predicate OutOfOrder<T>(s: seq<Entry<T>>, j: nat, v: T)
    requires j < |s| && IndexOf(s, v) < |s|
  {
    s[j].expire < s[IndexOf(s, v)].expire && j + 1 < |s| && s[j].expire > s[j + 1].expire
  }

  // adjust_timer of entry j, which has its new expiry already.
  ghost function Readjusted<T>(l: ListState<T>, j: nat): (out: Outcome<T>)
    requires l.Shaped() && j < |l.entries|
    ensures out.Done? ==> out.state.Shaped()
  {
    match l.backs[j]
    case None => Done(l)
    case Some(v) =>
      if !Listed(l, v) then FreedTimer
      else if !OutOfOrder(l.entries, j, v) then Done(l)
      else
        match Deleted(l, j)
        case Done(rest) => Done(Added(rest, l.entries[j].timer, l.entries[j].expire, l.backs[j]))
        case failed => failed
  }

  // The back links after the first n timers have gone and that of the new head has been cleared.
  function Cut<T>(backs: seq<Option<T>>, n: nat): seq<Option<T>>
    requires n <= |backs|
  {
    if n < |backs| then backs[n..][0 := None] else []
  }

  ghost function Ticked<T>(l: ListState<T>, now: int): (r: ListState<T>)
    requires l.Shaped()
    ensures r.Shaped() && r.entries == l.entries[DueCount(l.entries, now)..]
  {
    var n := DueCount(l.entries, now);
    ListState(l.entries[n..], Cut(l.backs, n), l.tail)
  }

  ghost function Coded<T>(l: ListState<T>, op: Op<T>): (out: Outcome<T>)
    requires l.Shaped() && Legal(l.entries, op)
    ensures out.Done? ==> out.state.Shaped()
  {
    match op
    case Add(t, expire) => Done(Added(l, t, expire, None))
    case Delete(t) => Deleted(l, IndexOf(l.entries, t))
    case Adjust(t, expire) =>
      var j := IndexOf(l.entries, t);
      Readjusted(l.(entries := l.entries[j := Entry(t, expire)]), j)
    case Tick(now) => Done(Ticked(l, now))
  }

  // ---------- The links ----------

  /** Adding keeps a list whole unless the timer comes to the front with a back link of its own. */
  lemma AddKeepsLinksIff<T>(l: ListState<T>, t: T, expire: int, back: Option<T>)
    requires TwoWay(l)
    ensures TwoWay(Added(l, t, expire, back)) <==> Place(l.entries, expire) > 0 || back == None
  {
    hide Place;
    var r, p := Added(l, t, expire, back), Place(l.entries, expire);
    forall j | 0 <= j < |r.entries| && j != p ensures BackRight(r, j) {
      assert BackRight(l, if j < p then j else j - 1);
    }
    assert BackRight(r, p) <==> p > 0 || back == None;
  }

  /** Deleting keeps it whole exactly when tail tells whether the timer is the last. */
  lemma DeleteKeepsLinksIff<T>(l: ListState<T>, j: nat)
    requires TwoWay(l) && j < |l.entries| && Deleted(l, j).Done?
    requires forall i, k :: 0 <= i < k < |l.entries| ==> l.entries[i].timer != l.entries[k].timer
    ensures TwoWay(Deleted(l, j).state) <==> (l.tail == Some(l.entries[j].timer) <==> j == |l.entries| - 1)
  {
    var r := Deleted(l, j).state;
    assert BackRight(l, j);
    forall i | 0 <= i < |r.entries| && i != j ensures BackRight(r, i) {
      assert BackRight(l, if i < j then i else i + 1);
    }
    if j < |r.entries| {
      assert BackRight(l, j + 1);
      assert BackRight(r, j) <==> l.tail != Some(l.entries[j].timer);
    }
  }

  /** A tick keeps it whole: the new head has nothing before it. */
  lemma TickKeepsLinks<T>(l: ListState<T>, now: int)
    requires TwoWay(l)
    ensures TwoWay(Ticked(l, now))
  {
    hide DueCount;
    var r, n := Ticked(l, now), DueCount(l.entries, now);
    forall j | 0 <= j < |r.entries| ensures BackRight(r, j) {
      assert BackRight(l, n + j);
    }
  }

  /** So does adjusting a timer, which is then never moved. */
  lemma AdjustKeepsLinks<T>(l: ListState<T>, op: Op<T>)
    requires TwoWay(l) && Ascending(l.entries) && op.Adjust? && Legal(l.entries, op)
    ensures Coded(l, op) == Done(l.(entries := l.entries[IndexOf(l.entries, op.timer) := Entry(op.timer, op.expire)]))
    ensures TwoWay(Coded(l, op).state)
  {
    hide Place, Added, Deleted, IndexOf, Ascending;
    var j := IndexOf(l.entries, op.timer);
    var s := l.entries[j := Entry(op.timer, op.expire)];
    Present(l.entries, op);
    AdjustNeverMoves(l.entries, j, op.expire);
    assert BackRight(l, j);
    forall i | 0 <= i < |s| ensures s[i].timer == l.entries[i].timer {}
    if j > 0 {
      var v := l.entries[j - 1].timer;
      SameIndex(l.entries, j, op.expire, v);
      FirstOfItsName(l.entries, v, j - 1);
      if j + 1 < |s| {
        InOrder(l.entries, IndexOf(l.entries, v), j + 1);
      }
    }
    forall i | 0 <= i < |s| ensures BackRight(l.(entries := s), i) {
      assert BackRight(l, i);
    }
  }

  // ---------- One operation ----------

  /** What a caller has to see to before the call.  To delete a timer: its back
      link is right, and if it is the last, tail says so.  To change an expiry:
      the timer its back link leads to is not freed, and the new expiry fits
      between the neighbours', or the code moves the timer away from the front,
      which takes a back link that has no business there. */
  ghost predicate Sound<T>(l: ListState<T>, op: Op<T>)
    requires l.Shaped() && Legal(l.entries, op)
  {
    match op
    case Delete(t) =>
      var j := IndexOf(l.entries, t);
      (j > 0 ==> BackRight(l, j)) && (j == |l.entries| - 1 ==> l.tail == Some(t))
    case Adjust(t, expire) =>
      var j := IndexOf(l.entries, t);
      && (l.backs[j].Some? ==> Listed(l, l.backs[j].value))
      && (FitsAt(l.entries, j, expire) || (j == 0 && LeavesTheFront(l, expire)))
    case _ => true
  }

  ghost predicate LeavesTheFront<T>(l: ListState<T>, expire: int)
    requires l.Shaped() && l.entries != []
  {
    var s := l.entries[0 := Entry(l.entries[0].timer, expire)];
    l.backs[0].Some? && IndexOf(s, l.backs[0].value) < |s| && OutOfOrder(s, 0, l.backs[0].value)
  }

  lemma SameIndex<T>(s: seq<Entry<T>>, j: nat, expire: int, t: T)
    requires j < |s|
    ensures IndexOf(s[j := Entry(s[j].timer, expire)], t) == IndexOf(s, t)
  {
    var s', i, i' := s[j := Entry(s[j].timer, expire)], IndexOf(s, t), IndexOf(s[j := Entry(s[j].timer, expire)], t);
    assert forall k :: 0 <= k < |s| ==> s'[k].timer == s[k].timer;
  }

  /** An operation the caller has seen to does what is meant. */
  lemma SoundIsMeant<T>(l: ListState<T>, op: Op<T>)
    requires l.Shaped() && Ascending(l.entries) && Legal(l.entries, op) && Sound(l, op)
    ensures Coded(l, op).Done? && Coded(l, op).state.entries == Meant(l.entries, op)
  {
    hide Place, DueCount, IndexOf, Without, InsertAt, Ascending;
    if op.Adjust? {
      AdjustSound(l, op.timer, op.expire);
    }
  }

  lemma AdjustSound<T>(l: ListState<T>, t: T, expire: int)
    requires l.Shaped() && Ascending(l.entries) && Legal(l.entries, Adjust(t, expire)) && Sound(l, Adjust(t, expire))
    ensures Coded(l, Adjust(t, expire)).Done?
    ensures Coded(l, Adjust(t, expire)).state.entries == Meant(l.entries, Adjust(t, expire))
  {
    hide Place, IndexOf, Without, InsertAt, Ascending;
    var j := IndexOf(l.entries, t);
    var s := l.entries[j := Entry(t, expire)];
    if l.backs[j].Some? {
      SameIndex(l.entries, j, expire, l.backs[j].value);
    }
    WithoutUpdated(l.entries, j, Entry(t, expire));
  }

  lemma WithoutUpdated<X>(s: seq<X>, j: nat, x: X)
    requires j < |s|
    ensures Without(s[j := x], j) == Without(s, j)
  {}

  /** An operation the caller has not seen to never gets done right: it follows a
      null or dangling link, leaves the timer linked, or leaves the list out of order. */
  lemma UnsoundFails<T>(l: ListState<T>, op: Op<T>)
    requires l.Shaped() && Ascending(l.entries) && Legal(l.entries, op) && !Sound(l, op)
    ensures var out := Coded(l, op);
      out.Done? ==>
        && op.Adjust? && !Ascending(out.state.entries)
        && out.state.entries == l.entries[IndexOf(l.entries, op.timer) := Entry(op.timer, op.expire)]
  {
    hide Place, DueCount, IndexOf, Without, InsertAt, Ascending;
    if op.Adjust? {
      AdjustUnsound(l, op.timer, op.expire);
    }
  }

  lemma AdjustUnsound<T>(l: ListState<T>, t: T, expire: int)
    requires l.Shaped() && Ascending(l.entries) && Legal(l.entries, Adjust(t, expire)) && !Sound(l, Adjust(t, expire))
    ensures var out := Coded(l, Adjust(t, expire));
      out.Done? ==>
        out.state.entries == l.entries[IndexOf(l.entries, t) := Entry(t, expire)] && !Ascending(out.state.entries)
  {
    hide Place, IndexOf, Without, InsertAt, Ascending, Added;
    var j := IndexOf(l.entries, t);
    var s := l.entries[j := Entry(t, expire)];
    AdjustNeverMoves(l.entries, j, expire);
    if l.backs[j].Some? {
      var v := l.backs[j].value;
      SameIndex(l.entries, j, expire, v);
      if j > 0 && v == l.entries[j - 1].timer && Listed(l, v) {
        FirstOfItsName(l.entries, v, j - 1);
        if j + 1 < |s| {
          InOrder(l.entries, IndexOf(s, v), j + 1);
        }
      }
    }
  }

  lemma FirstOfItsName<T>(s: seq<Entry<T>>, t: T, j: nat)
    requires j < |s| && s[j].timer == t
    ensures IndexOf(s, t) <= j
  {}

  lemma InOrder<T>(s: seq<Entry<T>>, i: nat, j: nat)
    requires Ascending(s) && i <= j < |s|
    ensures s[i].expire <= s[j].expire
  {}

  // ---------- Traces ----------

  // The list after a trace; an operation on a timer that is not there uses a freed one.
  ghost function CodedAfter<T>(ops: seq<Op<T>>): (out: Outcome<T>)
    ensures out.Done? ==> out.state.Shaped()
  {
    if ops == [] then Done(ListState([], [], None))
    else match CodedAfter(ops[..|ops| - 1])
      case Done(l) => if Legal(l.entries, ops[|ops| - 1]) then Coded(l, ops[|ops| - 1]) else FreedTimer
      case failed => failed
  }

  /** No link has led astray, and a tick now, whatever the time, would fire
      exactly the timers of m that are due. */
  ghost predicate RightAfter<T>(ops: seq<Op<T>>, m: map<T, int>) {
    CodedAfter(ops).Done? && TicksRight(CodedAfter(ops).state.entries, m)
  }

  ghost predicate SoundAfter<T>(ops: seq<Op<T>>, op: Op<T>) {
    CodedAfter(ops).Done? && Legal(CodedAfter(ops).state.entries, op) && Sound(CodedAfter(ops).state, op)
  }

  lemma {:induction false} SoundSoFar<T>(ms: seq<map<T, int>>, ops: seq<Op<T>>, fh: seq<seq<Entry<T>>>, n: nat)
    requires Run(ms, ops, fh) && n <= |ops| && forall k :: 0 <= k < n ==> SoundAfter(ops[..k], ops[k])
    ensures CodedAfter(ops[..n]).Done? && Lists(CodedAfter(ops[..n]).state.entries, ms[n])
    ensures Ascending(CodedAfter(ops[..n]).state.entries)
  {
    hide Lists, Step, Meant, Ascending, Legal, Sound, Coded;
    if n > 0 {
      SoundSoFar(ms, ops, fh, n - 1);
      assert ops[..n][..n - 1] == ops[..n - 1] && SoundAfter(ops[..n - 1], ops[n - 1]);
      var l := CodedAfter(ops[..n - 1]).state;
      SoundIsMeant(l, ops[n - 1]);
      MeantRefines(l.entries, ms[n - 1], ops[n - 1], ms[n], fh[n - 1]);
    } else {
      NothingListed<T>();
    }
  }

  // The first unsound operation of a trace leaves a list that cannot fire right.
  lemma UnsoundShows<T>(ms: seq<map<T, int>>, ops: seq<Op<T>>, fh: seq<seq<Entry<T>>>, n: nat)
    requires Run(ms, ops, fh) && n < |ops| && forall k :: 0 <= k < n ==> SoundAfter(ops[..k], ops[k])
    requires !SoundAfter(ops[..n], ops[n])
    ensures !RightAfter(ops[..n + 1], ms[n + 1])
  {
    hide Lists, Meant, Ascending, Legal, Sound, Coded, TicksRight, IndexOf;
    SoundSoFar(ms, ops, fh, n);
    var l := CodedAfter(ops[..n]).state;
    MeantRefines(l.entries, ms[n], ops[n], ms[n + 1], fh[n]);
    UnsoundFails(l, ops[n]);
    assert ops[..n + 1][..n] == ops[..n];
    if Coded(l, ops[n]).Done? {
      var j := IndexOf(l.entries, ops[n].timer);
      Present(l.entries, ops[n]);
      OneChangedListed(l.entries, ms[n], j, ops[n].expire);
      TicksRightIffAscending(Coded(l, ops[n]).state.entries, ms[n + 1]);
    }
  }

  lemma Present<T>(s: seq<Entry<T>>, op: Op<T>)
    requires Legal(s, op) && op.Adjust?
    ensures IndexOf(s, op.timer) < |s| && s[IndexOf(s, op.timer)].timer == op.timer
  {}

  /** Over a trace, the list as written follows no null or dangling link, keeps
      no deleted timer, and can at every point fire exactly the due timers, at
      whatever time it is asked next, if and only if every operation is sound.
      That its back links are all right is not needed for that. */
  lemma CodedIsRightIffSound<T>(ms: seq<map<T, int>>, ops: seq<Op<T>>, fh: seq<seq<Entry<T>>>)
    requires Run(ms, ops, fh)
    ensures (forall n :: 0 <= n <= |ops| ==> RightAfter(ops[..n], ms[n])) <==>
      forall n :: 0 <= n < |ops| ==> SoundAfter(ops[..n], ops[n])
  {
    hide Step, RightAfter, SoundAfter, Lists, Ascending, TicksRight;
    if forall n :: 0 <= n < |ops| ==> SoundAfter(ops[..n], ops[n]) {
      forall n | 0 <= n <= |ops| ensures RightAfter(ops[..n], ms[n]) {
        RightSoFar(ms, ops, fh, n);
      }
    }
    if forall n :: 0 <= n <= |ops| ==> RightAfter(ops[..n], ms[n]) {
      AllSound(ms, ops, fh, |ops|);
    }
  }

  lemma RightSoFar<T>(ms: seq<map<T, int>>, ops: seq<Op<T>>, fh: seq<seq<Entry<T>>>, n: nat)
    requires Run(ms, ops, fh) && n <= |ops| && forall k :: 0 <= k < n ==> SoundAfter(ops[..k], ops[k])
    ensures RightAfter(ops[..n], ms[n])
  {
    hide Lists, Step, Ascending, TicksRight, SoundAfter;
    SoundSoFar(ms, ops, fh, n);
    TicksRightIffAscending(CodedAfter(ops[..n]).state.entries, ms[n]);
  }

  lemma {:induction false} AllSound<T>(ms: seq<map<T, int>>, ops: seq<Op<T>>, fh: seq<seq<Entry<T>>>, n: nat)
    requires Run(ms, ops, fh) && n <= |ops| && forall k :: 0 <= k <= |ops| ==> RightAfter(ops[..k], ms[k])
    ensures forall k :: 0 <= k < n ==> SoundAfter(ops[..k], ops[k])
  {
    hide RightAfter, SoundAfter, Step;
    if n > 0 {
      AllSound(ms, ops, fh, n - 1);
      if !SoundAfter(ops[..n - 1], ops[n - 1]) {
        UnsoundShows(ms, ops, fh, n - 1);
      }
      assert SoundAfter(ops[..n - 1], ops[n - 1]);
    }
  }

  // ---------- Where it goes wrong ----------

  lemma Grown<T>(ops: seq<Op<T>>, op: Op<T>)
    ensures CodedAfter(ops + [op]) == match CodedAfter(ops)
      case Done(l) => if Legal(l.entries, op) then Coded(l, op) else FreedTimer
      case failed => failed
  {
    assert (ops + [op])[..|ops|] == ops;
  }

  // The timers 0, expiring at 10, and 1, expiring at 20.
  const TWO: seq<Op<int>> := [Add(0, 10), Add(1, 20)]

  lemma TwoAdded()
    ensures CodedAfter(TWO) == Done(ListState([Entry(0, 10), Entry(1, 20)], [None, Some(0)], Some(1)))
  {
    hide CodedAfter;
    NothingYet();
    Grown<int>([], Add(0, 10));
    Grown([Add(0, 10)], Add(1, 20));
    assert [] + [Add(0, 10)] == [Add(0, 10)] && [Add(0, 10)] + [Add(1, 20)] == TWO;
    PlaceIs([Entry(0, 10)], 20, 1);
    assert IndexOf([Entry(0, 10)], 1) == 1;
  }

  lemma NothingYet()
    ensures CodedAfter<int>([]) == Done(ListState([], [], None))
  {}

  lemma FoundAt(s: seq<Entry<int>>, t: int, j: nat)
    requires j < |s| && s[j].timer == t && forall i :: 0 <= i < |s| && i != j ==> s[i].timer != t
    ensures IndexOf(s, t) == j
  {
    hide IndexOf;
  }

  /** Timer 1 is brought forward from 20 to 5: at time 7 it is due, but the list fires nothing. */
  lemma AdjustedTimerFiresLate()
    ensures var o := CodedAfter(TWO + [Adjust(1, 5)]);
      && o.Done? && Fired(o.state.entries, Tick(7)) == []
      && Lists(o.state.entries, map[0 := 10, 1 := 5]) && 1 in Due(map[0 := 10, 1 := 5], 7)
  {
    hide CodedAfter, IndexOf;
    var s, s' := [Entry(0, 10), Entry(1, 20)], [Entry(0, 10), Entry(1, 5)];
    TwoAdded();
    FoundAt(s, 1, 1);
    FoundAt(s', 0, 0);
    Grown(TWO, Adjust(1, 5));
    assert s[1 := Entry(1, 5)] == s';
    assert s'[0] == Entry(0, 10) && s'[1] == Entry(1, 5);
  }

  lemma TailLeftBehind()
    ensures CodedAfter(TWO + [Delete(1)]) == Done(ListState([Entry(0, 10)], [None], Some(1)))
  {
    hide CodedAfter, IndexOf;
    var s := [Entry(0, 10), Entry(1, 20)];
    TwoAdded();
    FoundAt(s, 1, 1);
    Grown(TWO, Delete(1));
    assert Without(s, 1) == [Entry(0, 10)] && Without([None, Some(0)], 1) == [None];
  }

  /** The last of two timers is deleted and then the other one: the second delete
      dereferences null. */
  lemma SecondDeleteDereferencesNull()
    ensures CodedAfter(TWO + [Delete(1)] + [Delete(0)]) == NullDereference
  {
    hide CodedAfter, IndexOf;
    TailLeftBehind();
    FoundAt([Entry(0, 10)], 0, 0);
    Grown(TWO + [Delete(1)], Delete(0));
  }

  lemma AddedInFront()
    ensures CodedAfter(TWO + [Delete(1)] + [Add(1, 5)])
         == Done(ListState([Entry(1, 5), Entry(0, 10)], [None, Some(1)], Some(1)))
  {
    hide CodedAfter, IndexOf;
    TailLeftBehind();
    Missing([Entry(0, 10)], 1);
    Grown(TWO + [Delete(1)], Add(1, 5));
    PlaceAtFront([Entry(0, 10)], 5);
    assert InsertAt([Entry(0, 10)], 0, Entry(1, 5)) == [Entry(1, 5), Entry(0, 10)];
    assert [None][0 := Some(1)] == [Some(1)] && InsertAt([Some(1)], 0, None) == [None, Some(1)];
  }

  lemma LeftLinked()
    ensures CodedAfter(TWO + [Delete(1)] + [Add(1, 5)] + [Delete(1)])
         == Done(ListState([Entry(0, 10)], [Some(1)], Some(1)))
  {
    hide CodedAfter, IndexOf;
    var s := [Entry(1, 5), Entry(0, 10)];
    AddedInFront();
    FoundAt(s, 1, 0);
    Grown(TWO + [Delete(1)] + [Add(1, 5)], Delete(1));
    assert Without(s, 0) == [Entry(0, 10)] && Without([None, Some(1)], 0) == [Some(1)];
  }

  /** The last of two timers is deleted, added again in front and deleted again:
      the other one keeps a back link to it, and still a tick fires right at any time. */
  lemma BrokenLinkFiresRight()
    ensures var o := CodedAfter(TWO + [Delete(1)] + [Add(1, 5)] + [Delete(1)]);
      o == Done(ListState([Entry(0, 10)], [Some(1)], Some(1))) && !TwoWay(o.state)
      && TicksRight(o.state.entries, map[0 := 10])
  {
    hide CodedAfter, TicksRight;
    LeftLinked();
    var r := ListState([Entry(0, 10)], [Some(1)], Some(1));
    assert !BackRight(r, 0);
    assert r.entries[0] == Entry(0, 10);
    TicksRightIffAscending(r.entries, map[0 := 10]);
  }

  /** That link does harm once it is followed: adjusting the timer reads the freed one. */
  lemma AdjustReadsAFreedTimer(expire: int)
    ensures CodedAfter(TWO + [Delete(1)] + [Add(1, 5)] + [Delete(1)] + [Adjust(0, expire)]) == FreedTimer
  {
    hide CodedAfter, IndexOf;
    BrokenLinkFiresRight();
    FoundAt([Entry(0, 10)], 0, 0);
    Grown(TWO + [Delete(1)] + [Add(1, 5)] + [Delete(1)], Adjust(0, expire));
    Missing([Entry(0, 10)][0 := Entry(0, expire)], 1);
  }

  lemma Missing(s: seq<Entry<int>>, t: int)
    requires forall i :: 0 <= i < |s| ==> s[i].timer != t
    ensures IndexOf(s, t) == |s|
  {
    hide IndexOf;
  }
}
