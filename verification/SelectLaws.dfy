/** What the select loop keeps: every client is either read from or written to,
    the bounds cover everybody, and every ready client is served. */
module SelectLaws {
  import opened Wrappers
  import opened SelectPool

  // A client that is read from has nothing waiting; one that is written to has a slot's buffer waiting.
  predicate Reads(p: Pool, c: Client) {
    c.writeBuf == NONE && c.connfd in p.readFds && c.connfd in p.exceptionFds && c.connfd !in p.writeFds
  }

  predicate Writes(p: Pool, c: Client) {
    0 <= c.writeBuf < |p.clients| && c.connfd in p.writeFds && c.connfd !in p.readFds && c.connfd !in p.exceptionFds
  }

  predicate SlotOk(p: Pool, listenfd: int, j: int)
    requires 0 <= j < |p.clients|
  {
    var c := p.clients[j];
    if Live(c) then j <= p.maxi && c.connfd <= p.maxfd && c.connfd != listenfd && (Reads(p, c) || Writes(p, c))
    else c == FREE
  }

  ghost predicate Distinct(p: Pool) {
    forall i, j :: 0 <= i < j < |p.clients| && Live(p.clients[i]) && Live(p.clients[j]) ==>
      p.clients[i].connfd != p.clients[j].connfd
  }

  // Nobody is watched but the listening socket and live clients.
  predicate Belongs(p: Pool, listenfd: int, fd: int) {
    fd == listenfd || exists j :: 0 <= j < |p.clients| && Live(p.clients[j]) && p.clients[j].connfd == fd
  }

  ghost predicate WatchedOk(p: Pool, listenfd: int) {
    && listenfd in p.readFds && listenfd in p.exceptionFds && listenfd !in p.writeFds && 0 <= listenfd <= p.maxfd
    && forall fd :: fd in p.readFds || fd in p.writeFds || fd in p.exceptionFds ==> Belongs(p, listenfd, fd)
  }

  ghost predicate PoolOk(p: Pool, listenfd: int) {
    && |p.clients| == CLIENT_FD_NUMBER && NONE <= p.maxi < CLIENT_FD_NUMBER
    && (forall j :: 0 <= j < |p.clients| ==> SlotOk(p, listenfd, j))
    && Distinct(p) && WatchedOk(p, listenfd)
  }

  lemma FreshOk(listenfd: int, nready: int)
    requires listenfd >= 0
    ensures PoolOk(Fresh(listenfd, nready), listenfd)
  {}

  lemma BelongsUpdated(p: Pool, q: Pool, listenfd: int, i: nat, fd: int)
    requires i < |p.clients| == |q.clients| && q.clients == p.clients[i := q.clients[i]]
    requires Belongs(p, listenfd, fd)
    requires fd != p.clients[i].connfd || q.clients[i].connfd == p.clients[i].connfd || !Live(p.clients[i])
    ensures Belongs(q, listenfd, fd)
  {
    if fd != listenfd {
      var j :| 0 <= j < |p.clients| && Live(p.clients[j]) && p.clients[j].connfd == fd;
      assert Live(q.clients[j]) && q.clients[j].connfd == fd;
    }
  }

  lemma AddedOk(p: Pool, listenfd: int, connfd: int)
    requires PoolOk(p, listenfd) && FreeSlot(p.clients, 0) < |p.clients|
    requires connfd >= 0 && !Belongs(p, listenfd, connfd)
    ensures PoolOk(Added(p, connfd), listenfd)
  {
    var q, k := Added(p, connfd), FreeSlot(p.clients, 0);
    assert SlotOk(p, listenfd, k);
    forall j | 0 <= j < |q.clients| ensures SlotOk(q, listenfd, j) {
      assert SlotOk(p, listenfd, j);
      assert Live(p.clients[j]) ==> p.clients[j].connfd != connfd;
    }
    forall fd | fd in q.readFds || fd in q.writeFds || fd in q.exceptionFds ensures Belongs(q, listenfd, fd) {
      if fd == connfd {
        assert Live(q.clients[k]) && q.clients[k].connfd == fd;
      } else {
        BelongsUpdated(p, q, listenfd, k, fd);
      }
    }
    assert connfd !in p.writeFds;
  }

  // A change to one live client and to where its descriptor is watched keeps the others as they are.
  lemma ChangedOk(p: Pool, q: Pool, listenfd: int, i: nat)
    requires PoolOk(p, listenfd) && i < |p.clients| == |q.clients| && Live(p.clients[i])
    requires q.clients == p.clients[i := q.clients[i]] && q.maxi == p.maxi && q.maxfd == p.maxfd
    requires forall fd :: fd != p.clients[i].connfd ==>
      (fd in q.readFds <==> fd in p.readFds) && (fd in q.writeFds <==> fd in p.writeFds)
      && (fd in q.exceptionFds <==> fd in p.exceptionFds)
    requires SlotOk(q, listenfd, i)
    requires var fd := p.clients[i].connfd;
      q.clients[i].connfd == fd
      || (!Live(q.clients[i]) && fd !in q.readFds && fd !in q.writeFds && fd !in q.exceptionFds)
    ensures PoolOk(q, listenfd)
  {
    assert SlotOk(p, listenfd, i);
    forall j | 0 <= j < |q.clients| ensures SlotOk(q, listenfd, j) {
      assert SlotOk(p, listenfd, j);
    }
    forall fd | fd in q.readFds || fd in q.writeFds || fd in q.exceptionFds ensures Belongs(q, listenfd, fd) {
      if fd == q.clients[i].connfd {
        assert Live(q.clients[i]);
      } else {
        BelongsUpdated(p, q, listenfd, i, fd);
      }
    }
  }

  lemma WroteOk(p: Pool, listenfd: int, i: nat)
    requires PoolOk(p, listenfd) && i < |p.clients| && Live(p.clients[i])
    ensures PoolOk(Wrote(p, i), listenfd)
  {
    assert SlotOk(p, listenfd, i);
    ChangedOk(p, Wrote(p, i), listenfd, i);
  }

  lemma ExitedOk(p: Pool, listenfd: int, i: nat)
    requires PoolOk(p, listenfd) && i < |p.clients| && Live(p.clients[i])
    ensures PoolOk(Exited(p, i), listenfd)
  {
    assert SlotOk(p, listenfd, i);
    ChangedOk(p, Exited(p, i), listenfd, i);
  }

  lemma NamedOk(p: Pool, listenfd: int, i: nat)
    requires PoolOk(p, listenfd) && i < |p.clients| && Live(p.clients[i])
    ensures PoolOk(p.(clients := p.clients[i := p.clients[i].(welcome := false)]), listenfd)
  {
    assert SlotOk(p, listenfd, i);
    ChangedOk(p, p.(clients := p.clients[i := p.clients[i].(welcome := false)]), listenfd, i);
  }

  lemma ToldOneOk(p: Pool, listenfd: int, i: nat, j: nat)
    requires PoolOk(p, listenfd) && i < |p.clients| && j < |p.clients|
    ensures PoolOk(ToldOne(p, i, j), listenfd)
  {
    assert SlotOk(p, listenfd, j);
    if ToldOne(p, i, j) != p {
      ChangedOk(p, ToldOne(p, i, j), listenfd, j);
    }
  }

  lemma {:induction false} ToldOk(p: Pool, listenfd: int, i: nat, k: nat)
    requires PoolOk(p, listenfd) && i < |p.clients| && k <= |p.clients|
    ensures PoolOk(Told(p, i, k), listenfd)
  {
    hide PoolOk, ToldOne;
    if k > 0 {
      ToldOk(p, listenfd, i, k - 1);
      ToldOneOk(Told(p, i, k - 1), listenfd, i, k - 1);
    }
  }

  lemma ServedOk(p: Pool, listenfd: int, i: nat, r: Ready, n: nat)
    requires PoolOk(p, listenfd) && i < |p.clients| && Live(p.clients[i])
    ensures PoolOk(Served(p, i, r, n), listenfd)
  {
    if p.clients[i].connfd in r.writeFds {
      WroteOk(p, listenfd, i);
    } else if n == 0 {
      ExitedOk(p, listenfd, i);
    } else if p.clients[i].welcome {
      NamedOk(p, listenfd, i);
    } else {
      ToldOk(p, listenfd, i, if p.maxi >= 0 then p.maxi + 1 else 0);
    }
  }

  lemma {:induction false} PassOk(p: Pool, listenfd: int, i: nat, r: Ready, recv: seq<nat>)
    requires PoolOk(p, listenfd) && |p.clients| == |recv|
    ensures PoolOk(Pass(p, i, r, recv), listenfd)
    decreases |recv| - i
  {
    hide PoolOk, Served;
    PoolShape(p, listenfd);
    if i <= p.maxi && p.nready > 0 {
      if Serves(p, i, r) {
        var q := p.(nready := p.nready - 1);
        NreadyIsFree(p, listenfd, p.nready - 1);
        ServedOk(q, listenfd, i, r, recv[i]);
        PoolShape(Served(q, i, r, recv[i]), listenfd);
        PassOk(Served(q, i, r, recv[i]), listenfd, i + 1, r, recv);
      } else {
        PassOk(p, listenfd, i + 1, r, recv);
      }
    }
  }

  lemma PoolShape(p: Pool, listenfd: int)
    requires PoolOk(p, listenfd)
    ensures |p.clients| == CLIENT_FD_NUMBER && p.maxi < |p.clients|
  {}

  lemma NreadyIsFree(p: Pool, listenfd: int, n: int)
    requires PoolOk(p, listenfd)
    ensures PoolOk(p.(nready := n), listenfd)
  {
    var q := p.(nready := n);
    forall fd | fd in q.readFds || fd in q.writeFds || fd in q.exceptionFds ensures Belongs(q, listenfd, fd) {
      assert Belongs(p, listenfd, fd);
    }
    assert forall j :: 0 <= j < |p.clients| ==> SlotOk(p, listenfd, j) ==> SlotOk(q, listenfd, j);
  }

  /** A message reaches every other client that has given its name, and nobody else. */
  lemma {:induction false} BroadcastReaches(p: Pool, listenfd: int, i: nat, k: nat)
    requires PoolOk(p, listenfd) && i < |p.clients| && k <= |p.clients|
    ensures var q := Told(p, i, k);
      forall j :: 0 <= j < |p.clients| ==>
        q.clients[j] == if j < k && j != i && Live(p.clients[j]) && !p.clients[j].welcome
                        then p.clients[j].(writeBuf := i) else p.clients[j]
  {
    hide SlotOk, Distinct, WatchedOk;
    if k > 0 {
      BroadcastReaches(p, listenfd, i, k - 1);
      LiveOrNone(p, listenfd, k - 1);
    }
  }

  lemma LiveOrNone(p: Pool, listenfd: int, j: int)
    requires PoolOk(p, listenfd) && 0 <= j < |p.clients|
    ensures Live(p.clients[j]) <==> p.clients[j].connfd != NONE
  {
    assert SlotOk(p, listenfd, j);
  }

  // ---------- Nobody ready is left out ----------

  /** Serving every ready client of the whole table, whatever nready says. */
  function PassAll(p: Pool, i: nat, r: Ready, recv: seq<nat>): Pool
    requires |p.clients| == |recv| && p.maxi < |p.clients|
    decreases |p.clients| - i
  {
    if i >= |p.clients| then p
    else if Serves(p, i, r) then PassAll(Served(p.(nready := p.nready - 1), i, r, recv[i]), i + 1, r, recv)
    else PassAll(p, i + 1, r, recv)
  }

  /** The slots of the ready clients, as the table is before the pass. */
  function ReadySlots(p: Pool, i: nat, r: Ready): (slots: seq<nat>)
    ensures forall k :: k in slots <==> i <= k < |p.clients| && Serves(p, k, r)
    ensures forall k :: 0 <= k < |slots| ==> i <= slots[k]
    ensures forall k, l :: 0 <= k < l < |slots| ==> slots[k] < slots[l]
    decreases |p.clients| - i
  {
    if i >= |p.clients| then [] else (if Serves(p, i, r) then [i] else []) + ReadySlots(p, i + 1, r)
  }

  function ReadyFrom(p: Pool, i: nat, r: Ready): nat
    decreases |p.clients| - i
  {
    if i >= |p.clients| then 0 else (if Serves(p, i, r) then 1 else 0) + ReadyFrom(p, i + 1, r)
  }

  lemma {:induction false} ToldKeepsFds(p: Pool, i: nat, k: nat)
    requires k <= |p.clients|
    ensures forall j :: 0 <= j < |p.clients| ==> Told(p, i, k).clients[j].connfd == p.clients[j].connfd
  {
    if k > 0 {
      ToldKeepsFds(p, i, k - 1);
    }
  }

  lemma ServedKeepsOthers(p: Pool, i: nat, r: Ready, n: nat)
    requires i < |p.clients| && p.maxi < |p.clients|
    ensures var q := Served(p, i, r, n);
      && q.maxi == p.maxi && q.nready == p.nready && |q.clients| == |p.clients|
      && forall j :: 0 <= j < |p.clients| && j != i ==> q.clients[j].connfd == p.clients[j].connfd
  {
    hide Told;
    ToldKeepsFds(p, i, if p.maxi >= 0 then p.maxi + 1 else 0);
  }

  lemma {:induction false} SameReady(p: Pool, q: Pool, i: nat, r: Ready)
    requires |p.clients| == |q.clients|
    requires forall j :: i <= j < |p.clients| ==> q.clients[j].connfd == p.clients[j].connfd
    ensures ReadyFrom(q, i, r) == ReadyFrom(p, i, r) && ReadySlots(q, i, r) == ReadySlots(p, i, r)
    decreases |p.clients| - i
  {
    if i < |p.clients| {
      SameReady(p, q, i + 1, r);
    }
  }

  lemma {:induction false} NobodyReady(p: Pool, i: nat, r: Ready, recv: seq<nat>)
    requires |p.clients| == |recv| && p.maxi < |p.clients| && ReadyFrom(p, i, r) == 0
    ensures PassAll(p, i, r, recv) == p && ReadySlots(p, i, r) == []
    decreases |p.clients| - i
  {
    if i < |p.clients| {
      NobodyReady(p, i + 1, r, recv);
    }
  }

  lemma {:induction false} NobodyBeyond(p: Pool, listenfd: int, i: nat, r: Ready)
    requires PoolOk(p, listenfd) && i > p.maxi
    ensures ReadyFrom(p, i, r) == 0
    decreases |p.clients| - i
  {
    if i < |p.clients| {
      assert SlotOk(p, listenfd, i);
      NobodyBeyond(p, listenfd, i + 1, r);
    }
  }

  // Serving one client changes nothing about who else is ready.
  lemma ServingKeepsReady(p: Pool, listenfd: int, i: nat, r: Ready, n: nat)
    requires PoolOk(p, listenfd) && i < |p.clients| && p.maxi < |p.clients| && Serves(p, i, r)
    requires p.nready >= ReadyFrom(p, i, r)
    ensures var s := Served(p.(nready := p.nready - 1), i, r, n);
      && PoolOk(s, listenfd) && |s.clients| == |p.clients| && s.maxi == p.maxi && s.nready >= ReadyFrom(s, i + 1, r)
      && ReadySlots(s, i + 1, r) == ReadySlots(p, i + 1, r)
  {
    hide PoolOk, Served, ReadySlots;
    var q := p.(nready := p.nready - 1);
    NreadyIsFree(p, listenfd, p.nready - 1);
    ServedOk(q, listenfd, i, r, n);
    ServedKeepsOthers(q, i, r, n);
    SameReady(p, Served(q, i, r, n), i + 1, r);
  }

  // Stopping after nready clients, and at maxi, skips nobody.
  lemma {:induction false} StoppingEarlyIsSafe(p: Pool, listenfd: int, i: nat, r: Ready, recv: seq<nat>)
    requires PoolOk(p, listenfd) && |p.clients| == |recv| && p.nready >= ReadyFrom(p, i, r)
    ensures Pass(p, i, r, recv) == PassAll(p, i, r, recv) && PassServes(p, i, r, recv) == ReadySlots(p, i, r)
    decreases |recv| - i
  {
    hide PoolOk, Served, Serves;
    PoolShape(p, listenfd);
    if i > p.maxi {
      NobodyBeyond(p, listenfd, i, r);
      NobodyReady(p, i, r, recv);
    } else if p.nready <= 0 {
      NobodyReady(p, i, r, recv);
    } else if Serves(p, i, r) {
      var s := Served(p.(nready := p.nready - 1), i, r, recv[i]);
      ServingKeepsReady(p, listenfd, i, r, recv[i]);
      StoppingEarlyIsSafe(s, listenfd, i + 1, r, recv);
    } else {
      StoppingEarlyIsSafe(p, listenfd, i + 1, r, recv);
    }
  }

  // The descriptors of the ready clients from slot i on: as many as there are such clients.
  lemma {:induction false} ReadyFds(p: Pool, listenfd: int, i: nat, r: Ready) returns (fds: set<int>)
    requires PoolOk(p, listenfd)
    ensures |fds| == ReadyFrom(p, i, r)
    ensures forall fd :: fd in fds ==> fd != listenfd && (fd in r.readFds || fd in r.writeFds || fd in r.exceptionFds)
    ensures forall fd :: fd in fds ==>
      exists j :: i <= j < |p.clients| && Live(p.clients[j]) && p.clients[j].connfd == fd
    decreases |p.clients| - i
  {
    if i >= |p.clients| {
      return {};
    }
    fds := ReadyFds(p, listenfd, i + 1, r);
    if Serves(p, i, r) {
      assert SlotOk(p, listenfd, i);
      fds := fds + {p.clients[i].connfd};
    }
  }

  lemma Smaller(a: set<int>, b: set<int>)
    requires a <= b
    ensures |a| <= |b|
  {
    assert b == a + (b - a);
  }

  function Reported(r: Ready): nat {
    |r.readFds| + |r.writeFds| + |r.exceptionFds|
  }

  /** What select returns counts every ready client, even after the listening
      socket has been taken off. */
  lemma CountIsEnough(p: Pool, listenfd: int, r: Ready)
    requires PoolOk(p, listenfd)
    ensures ReadyFrom(p, 0, r) <= Reported(r) - if listenfd in r.readFds then 1 else 0
  {
    var fds := ReadyFds(p, listenfd, 0, r);
    var others := r.readFds - {listenfd};
    var w, e := r.writeFds, r.exceptionFds;
    forall fd | fd in fds ensures fd in others + w + e {
      assert fd in r.readFds || fd in w || fd in e;
    }
    Smaller(fds, others + w + e);
    assert |others + w + e| <= |others| + |w| + |e|;
  }

  // ---------- The select loop ----------

  /** One iteration: what select reports, the descriptor a connection gets if
      there is one, and what recv returns for each slot. */
  datatype Event = Event(r: Ready, connfd: int, recv: seq<nat>)

  predicate Possible(p: Pool, listenfd: int, e: Event) {
    && e.r.readFds <= p.readFds && e.r.writeFds <= p.writeFds && e.r.exceptionFds <= p.exceptionFds
    && e.connfd >= 0 && !Belongs(p, listenfd, e.connfd) && |e.recv| == |p.clients|
  }

  // None: the table is full and the server ends.
  function Arrived(p: Pool, listenfd: int, e: Event): Option<Pool> {
    var q := p.(nready := Reported(e.r));
    if listenfd !in e.r.readFds then Some(q)
    else if FreeSlot(q.clients, 0) < |q.clients| then Some(Added(q, e.connfd))
    else None
  }

  lemma ArrivedOk(p: Pool, listenfd: int, e: Event)
    requires PoolOk(p, listenfd) && Possible(p, listenfd, e) && Arrived(p, listenfd, e).Some?
    ensures var q := Arrived(p, listenfd, e).value;
      PoolOk(q, listenfd) && |q.clients| == |e.recv| && q.nready >= ReadyFrom(q, 0, e.r)
  {
    var q := p.(nready := Reported(e.r));
    NreadyIsFree(p, listenfd, Reported(e.r));
    CountIsEnough(p, listenfd, e.r);
    SameReady(p, q, 0, e.r);
    if listenfd in e.r.readFds {
      assert Belongs(q, listenfd, e.connfd) ==> Belongs(p, listenfd, e.connfd);
      AddedOk(q, listenfd, e.connfd);
      CountIsEnough(Added(q, e.connfd), listenfd, e.r);
    }
  }

  function Rounds(p: Pool, listenfd: int, events: seq<Event>): Option<Pool>
    decreases |events|
  {
    if events == [] then Some(p)
    else match Arrived(p, listenfd, events[0])
      case None => None
      case Some(q) =>
        if |q.clients| == |events[0].recv| && q.maxi < |q.clients|
        then Rounds(Pass(q, 0, events[0].r, events[0].recv), listenfd, events[1..]) else None
  }

  predicate AllPossible(p: Pool, listenfd: int, events: seq<Event>)
    decreases |events|
  {
    events == [] || (Possible(p, listenfd, events[0]) &&
      match Arrived(p, listenfd, events[0])
      case None => true
      case Some(q) =>
        |q.clients| == |events[0].recv| && q.maxi < |q.clients| ==>
          AllPossible(Pass(q, 0, events[0].r, events[0].recv), listenfd, events[1..]))
  }

  /** After any number of iterations each live client is either in the read and
      exception sets with nothing to write, or only in the write set with a
      slot's buffer to write; maxi and maxfd cover all of them. */
  lemma {:induction false} LoopKeepsOk(p: Pool, listenfd: int, events: seq<Event>)
    requires PoolOk(p, listenfd) && AllPossible(p, listenfd, events) && Rounds(p, listenfd, events).Some?
    ensures PoolOk(Rounds(p, listenfd, events).value, listenfd)
    decreases |events|
  {
    hide PoolOk, Possible, Arrived, Pass;
    if events != [] {
      ArrivedOk(p, listenfd, events[0]);
      var q := Arrived(p, listenfd, events[0]).value;
      PassOk(q, listenfd, 0, events[0].r, events[0].recv);
      LoopKeepsOk(Pass(q, 0, events[0].r, events[0].recv), listenfd, events[1..]);
    }
  }

  /** In every iteration of every run the pass serves each client that is ready
      in what select reported, once and in slot order, and no other: counting
      nready down and stopping at maxi leaves nobody out, and neither does what
      happens to the others meanwhile. */
  lemma EveryReadyClientIsServed(p: Pool, listenfd: int, events: seq<Event>, e: Event)
    requires PoolOk(p, listenfd) && AllPossible(p, listenfd, events) && Rounds(p, listenfd, events).Some?
    requires var q := Rounds(p, listenfd, events).value;
      Possible(q, listenfd, e) && Arrived(q, listenfd, e).Some?
    ensures var q := Arrived(Rounds(p, listenfd, events).value, listenfd, e).value;
      && |q.clients| == |e.recv| && q.maxi < |q.clients|
      && PassServes(q, 0, e.r, e.recv) == ReadySlots(q, 0, e.r)
      && (forall k :: k in PassServes(q, 0, e.r, e.recv) <==> 0 <= k < |q.clients| && Serves(q, k, e.r))
      && Pass(q, 0, e.r, e.recv) == PassAll(q, 0, e.r, e.recv)
  {
    hide PoolOk, Possible, Arrived, Pass, PassAll, PassServes, Serves;
    LoopKeepsOk(p, listenfd, events);
    var q := Rounds(p, listenfd, events).value;
    ArrivedOk(q, listenfd, e);
    var a := Arrived(q, listenfd, e).value;
    PoolShape(a, listenfd);
    StoppingEarlyIsSafe(a, listenfd, 0, e.r, e.recv);
  }

  // ---------- Nobody is written from a null pointer ----------

  /** Each client this pass writes to has, when its turn comes, a slot's buffer to write. */
  predicate FindsBuffers(p: Pool, i: nat, r: Ready, recv: seq<nat>)
    requires |p.clients| == |recv| && p.maxi < |p.clients|
    decreases |p.clients| - i
  {
    if i > p.maxi || p.nready <= 0 then true
    else if Serves(p, i, r) then
      && (p.clients[i].connfd in r.writeFds ==> 0 <= p.clients[i].writeBuf < |p.clients|)
      && FindsBuffers(Served(p.(nready := p.nready - 1), i, r, recv[i]), i + 1, r, recv)
    else FindsBuffers(p, i + 1, r, recv)
  }

  // The clients from slot i on that were reported ready for writing are still to be written to.
  ghost predicate WritersFrom(p: Pool, i: nat, r: Ready) {
    forall j :: i <= j < |p.clients| && Live(p.clients[j]) && p.clients[j].connfd in r.writeFds ==>
      p.clients[j].connfd in p.writeFds
  }

  lemma {:induction false} ToldKeepsWriters(p: Pool, i: nat, k: nat)
    requires k <= |p.clients|
    ensures p.writeFds <= Told(p, i, k).writeFds
  {
    if k > 0 {
      ToldKeepsWriters(p, i, k - 1);
    }
  }

  lemma ServedKeepsWriters(p: Pool, listenfd: int, i: nat, r: Ready, n: nat)
    requires PoolOk(p, listenfd) && i < |p.clients| && Live(p.clients[i]) && WritersFrom(p, i, r)
    ensures WritersFrom(Served(p, i, r, n), i + 1, r)
  {
    hide Told, SlotOk, WatchedOk;
    var k := if p.maxi >= 0 then p.maxi + 1 else 0;
    ToldKeepsFds(p, i, k);
    ToldKeepsWriters(p, i, k);
  }

  lemma {:induction false} PassFindsBuffers(p: Pool, listenfd: int, i: nat, r: Ready, recv: seq<nat>)
    requires PoolOk(p, listenfd) && |p.clients| == |recv| && WritersFrom(p, i, r)
    ensures FindsBuffers(p, i, r, recv)
    decreases |recv| - i
  {
    hide PoolOk, Served;
    PoolShape(p, listenfd);
    if i <= p.maxi && p.nready > 0 {
      if Serves(p, i, r) {
        var q := p.(nready := p.nready - 1);
        var s := Served(q, i, r, recv[i]);
        NreadyIsFree(p, listenfd, p.nready - 1);
        ServedOk(q, listenfd, i, r, recv[i]);
        ServedKeepsWriters(q, listenfd, i, r, recv[i]);
        PoolShape(s, listenfd);
        PassFindsBuffers(s, listenfd, i + 1, r, recv);
        if p.clients[i].connfd in r.writeFds {
          WatchedForWriting(p, listenfd, i);
        }
      } else {
        PassFindsBuffers(p, listenfd, i + 1, r, recv);
      }
    }
  }

  lemma WatchedForWriting(p: Pool, listenfd: int, i: nat)
    requires PoolOk(p, listenfd) && i < |p.clients| && Live(p.clients[i]) && p.clients[i].connfd in p.writeFds
    ensures 0 <= p.clients[i].writeBuf < |p.clients|
  {
    assert SlotOk(p, listenfd, i);
  }

  /** In every iteration of every run, whoever is written to has something to be
      written, whatever those served before it in the same pass have said or done. */
  lemma WritersHaveBuffers(p: Pool, listenfd: int, events: seq<Event>, e: Event)
    requires PoolOk(p, listenfd) && AllPossible(p, listenfd, events) && Rounds(p, listenfd, events).Some?
    requires var q := Rounds(p, listenfd, events).value;
      Possible(q, listenfd, e) && Arrived(q, listenfd, e).Some?
    ensures var q := Arrived(Rounds(p, listenfd, events).value, listenfd, e).value;
      |q.clients| == |e.recv| && q.maxi < |q.clients| && FindsBuffers(q, 0, e.r, e.recv)
  {
    hide PoolOk, Pass, FindsBuffers, FreeSlot, Belongs;
    LoopKeepsOk(p, listenfd, events);
    var q := Rounds(p, listenfd, events).value;
    ArrivedOk(q, listenfd, e);
    var a := Arrived(q, listenfd, e).value;
    PoolShape(a, listenfd);
    assert a.writeFds == q.writeFds;
    PassFindsBuffers(a, listenfd, 0, e.r, e.recv);
  }

  /** select looks at every descriptor that is watched: none is beyond maxfd. */
  lemma SelectSeesEverybody(p: Pool, listenfd: int, fd: int)
    requires PoolOk(p, listenfd) && (fd in p.readFds || fd in p.writeFds || fd in p.exceptionFds)
    ensures 0 <= fd <= p.maxfd
  {
    assert Belongs(p, listenfd, fd);
    if fd != listenfd {
      var j :| 0 <= j < |p.clients| && Live(p.clients[j]) && p.clients[j].connfd == fd;
      assert SlotOk(p, listenfd, j);
    }
  }

  /** From init_pool on: whatever has happened, the pool is sound, and in the
      next iteration exactly the ready clients are served, those written to from
      a buffer that is there. */
  lemma ServerRuns(listenfd: int, nready: int, events: seq<Event>, e: Event)
    requires listenfd >= 0 && AllPossible(Fresh(listenfd, nready), listenfd, events)
    requires Rounds(Fresh(listenfd, nready), listenfd, events).Some?
    ensures var p := Rounds(Fresh(listenfd, nready), listenfd, events).value;
      && PoolOk(p, listenfd)
      && (Possible(p, listenfd, e) && Arrived(p, listenfd, e).Some? ==>
            var q := Arrived(p, listenfd, e).value;
            && |q.clients| == |e.recv| && q.maxi < |q.clients|
            && PassServes(q, 0, e.r, e.recv) == ReadySlots(q, 0, e.r) && FindsBuffers(q, 0, e.r, e.recv))
  {
    hide Fresh, PoolOk, AllPossible, Rounds, Possible, Arrived, PassServes, Serves, FindsBuffers;
    FreshOk(listenfd, nready);
    LoopKeepsOk(Fresh(listenfd, nready), listenfd, events);
    var p := Rounds(Fresh(listenfd, nready), listenfd, events).value;
    if Possible(p, listenfd, e) && Arrived(p, listenfd, e).Some? {
      EveryReadyClientIsServed(Fresh(listenfd, nready), listenfd, events, e);
      WritersHaveBuffers(Fresh(listenfd, nready), listenfd, events, e);
    }
  }
}
