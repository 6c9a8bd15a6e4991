/** What becomes of each client in one pass over the table, told from the table
    before the pass, what select reported and what recv returned. */
module SelectTurns {
  import opened Wrappers
  import opened SelectPool
  import opened SelectLaws

  // A client a message goes to: it is there and has given its name.
  predicate Hears(c: Client) {
    c.connfd >= 0 && !c.welcome
  }

  // Reported ready for reading or an exception, and not for writing.
  predicate IsRead(c: Client, r: Ready) {
    c.connfd >= 0 && c.connfd !in r.writeFds && (c.connfd in r.readFds || c.connfd in r.exceptionFds)
  }

  predicate IsWritten(c: Client, r: Ready) {
    c.connfd >= 0 && c.connfd in r.writeFds
  }

  // Client j has given its name before and now sends a message.
  predicate Speaks(p: Pool, r: Ready, recv: seq<nat>, j: nat)
    requires j < |p.clients| == |recv|
  {
    IsRead(p.clients[j], r) && recv[j] > 0 && !p.clients[j].welcome
  }

  // The last client in [lo, hi) to send a message, or NONE.
  function LastSpeaker(p: Pool, r: Ready, recv: seq<nat>, lo: nat, hi: nat): (j: int)
    requires hi <= |p.clients| == |recv|
    ensures j == NONE || (lo <= j < hi && Speaks(p, r, recv, j))
    ensures forall k: nat :: lo <= k < hi && Speaks(p, r, recv, k) ==> k <= j
  {
    if hi <= lo then NONE else if Speaks(p, r, recv, hi - 1) then hi - 1 else LastSpeaker(p, r, recv, lo, hi - 1)
  }

  // What a message sent by one of [lo, hi) leaves a client with.
  function Told(p: Pool, r: Ready, recv: seq<nat>, c: Client, lo: nat, hi: nat): Client
    requires hi <= |p.clients| == |recv|
  {
    var j := LastSpeaker(p, r, recv, lo, hi);
    if Hears(c) && j != NONE then c.(writeBuf := j) else c
  }

  /** A client's own turn.  Written to, it is back to being read from; one that
      closed is gone and its slot free; the first thing it sends is its name. */
  function OwnTurn(c: Client, r: Ready, n: nat): Client {
    if IsWritten(c, r) then c.(writeBuf := NONE)
    else if !IsRead(c, r) then c
    else if n == 0 then Client(true, -1, -1)
    else c.(welcome := false)
  }

  /** Slot k after a pass from slot i on: it may be told something before its own
      turn, and again by the last to speak after it. */
  function AfterPass(p: Pool, i: nat, r: Ready, recv: seq<nat>, k: nat): Client
    requires k < |p.clients| == |recv|
  {
    if k < i then Told(p, r, recv, p.clients[k], i, |p.clients|)
    else
      var c := Told(p, r, recv, p.clients[k], i, k);
      Told(p, r, recv, OwnTurn(c, r, recv[k]), k + 1, |p.clients|)
  }

  // ---------- One turn ----------

  /** Serving slot i is its own turn, and if it speaks, exactly the others who are
      there and have a name are given its slot to write from. */
  lemma ServedIs(p: Pool, listenfd: int, i: nat, r: Ready, recv: seq<nat>)
    requires PoolOk(p, listenfd) && i < |p.clients| == |recv| && Serves(p, i, r)
    ensures var q := Served(p.(nready := p.nready - 1), i, r, recv[i]);
      && |q.clients| == |p.clients|
      && forall k :: 0 <= k < |p.clients| ==>
        q.clients[k] ==
          if k == i then OwnTurn(p.clients[i], r, recv[i])
          else if Speaks(p, r, recv, i) && Hears(p.clients[k]) then p.clients[k].(writeBuf := i)
          else p.clients[k]
  {
    hide SelectPool.Told;
    var q := p.(nready := p.nready - 1);
    PoolShape(p, listenfd);
    NreadyIsFree(p, listenfd, p.nready - 1);
    if Speaks(p, r, recv, i) {
      var n := if p.maxi >= 0 then p.maxi + 1 else 0;
      BroadcastReaches(q, listenfd, i, n);
      forall k | 0 <= k < |p.clients| && Hears(p.clients[k]) ensures k < n {
        assert SlotOk(p, listenfd, k);
      }
    }
  }

  // ---------- The rest of the pass ----------

  // As far as speaking and being served go, the slots from i on are the same.
  ghost predicate SameFrom(p: Pool, q: Pool, i: nat) {
    |q.clients| == |p.clients| && forall k :: i <= k < |p.clients| ==>
      q.clients[k].connfd == p.clients[k].connfd && q.clients[k].welcome == p.clients[k].welcome
  }

  lemma {:induction false} SameSpeakers(p: Pool, q: Pool, r: Ready, recv: seq<nat>, i: nat, lo: nat, hi: nat)
    requires |p.clients| == |recv| && SameFrom(p, q, i) && i <= lo && hi <= |p.clients|
    ensures LastSpeaker(q, r, recv, lo, hi) == LastSpeaker(p, r, recv, lo, hi)
  {
    if lo < hi {
      SameSpeakers(p, q, r, recv, i, lo, hi - 1);
    }
  }

  // The first of [i, hi) counts only if none after it speaks.
  lemma {:induction false} FirstSpeaker(p: Pool, r: Ready, recv: seq<nat>, i: nat, hi: nat)
    requires i < hi <= |p.clients| == |recv|
    ensures var j := LastSpeaker(p, r, recv, i + 1, hi);
      LastSpeaker(p, r, recv, i, hi) == if j != NONE then j else if Speaks(p, r, recv, i) then i else NONE
  {
    if i + 1 < hi {
      FirstSpeaker(p, r, recv, i, hi - 1);
    } else {
      assert LastSpeaker(p, r, recv, i, i) == NONE;
    }
  }

  lemma TurnTaken(p: Pool, s: Pool, i: nat, r: Ready, recv: seq<nat>, k: nat)
    requires k < |p.clients| == |recv| == |s.clients| && i < |p.clients| && SameFrom(p, s, i + 1)
    requires forall j :: 0 <= j < |p.clients| ==>
      s.clients[j] ==
        if j == i then OwnTurn(p.clients[i], r, recv[i])
        else if Speaks(p, r, recv, i) && Hears(p.clients[j]) then p.clients[j].(writeBuf := i)
        else p.clients[j]
    ensures AfterPass(s, i + 1, r, recv, k) == AfterPass(p, i, r, recv, k)
  {
    hide LastSpeaker, OwnTurn, Speaks;
    var n := |p.clients|;
    FirstSpeaker(p, r, recv, i, n);
    SameSpeakers(p, s, r, recv, i + 1, i + 1, n);
    if k > i {
      TurnOfAnother(p, s, i, r, recv, k);
    } else if k == i {
      NobodyBetween(p, r, recv, i);
    }
  }

  lemma TurnOfAnother(p: Pool, s: Pool, i: nat, r: Ready, recv: seq<nat>, k: nat)
    requires i < k < |p.clients| == |recv| == |s.clients| && SameFrom(p, s, i + 1)
    requires s.clients[k] ==
      if Speaks(p, r, recv, i) && Hears(p.clients[k]) then p.clients[k].(writeBuf := i) else p.clients[k]
    ensures AfterPass(s, i + 1, r, recv, k) == AfterPass(p, i, r, recv, k)
  {
    hide LastSpeaker, OwnTurn, Speaks;
    FirstSpeaker(p, r, recv, i, k);
    SameSpeakers(p, s, r, recv, i + 1, i + 1, k);
    SameSpeakers(p, s, r, recv, i + 1, k + 1, |p.clients|);
    assert Told(s, r, recv, s.clients[k], i + 1, k) == Told(p, r, recv, p.clients[k], i, k);
  }

  lemma NobodyBetween(p: Pool, r: Ready, recv: seq<nat>, i: nat)
    requires i <= |p.clients| == |recv|
    ensures LastSpeaker(p, r, recv, i, i) == NONE
  {}

  lemma {:induction false} PassAllIs(p: Pool, listenfd: int, i: nat, r: Ready, recv: seq<nat>, k: nat)
    requires PoolOk(p, listenfd) && k < |p.clients| == |recv| && i <= |p.clients|
    ensures |PassAll(p, i, r, recv).clients| == |p.clients|
    ensures PassAll(p, i, r, recv).clients[k] == AfterPass(p, i, r, recv, k)
    decreases |recv| - i
  {
    hide PoolOk, Served, Speaks, AfterPass, Serves, OwnTurn;
    PoolShape(p, listenfd);
    if i == |p.clients| {
      PassOver(p, r, recv, k);
    } else if Serves(p, i, r) {
      var q := p.(nready := p.nready - 1);
      var s := Served(q, i, r, recv[i]);
      ServedIs(p, listenfd, i, r, recv);
      StillServed(p, i, r);
      NreadyIsFree(p, listenfd, p.nready - 1);
      ServedOk(q, listenfd, i, r, recv[i]);
      PassAllIs(s, listenfd, i + 1, r, recv, k);
      TurnTaken(p, s, i, r, recv, k);
    } else {
      PassAllIs(p, listenfd, i + 1, r, recv, k);
      NotServed(p, i, r, recv);
      TurnTaken(p, p, i, r, recv, k);
    }
  }

  lemma StillServed(p: Pool, i: nat, r: Ready)
    requires i < |p.clients| && Serves(p, i, r)
    ensures Live(p.clients[i])
  {}

  lemma NotServed(p: Pool, i: nat, r: Ready, recv: seq<nat>)
    requires i < |p.clients| == |recv| && !Serves(p, i, r)
    ensures !Speaks(p, r, recv, i) && OwnTurn(p.clients[i], r, recv[i]) == p.clients[i]
  {}

  lemma PassOver(p: Pool, r: Ready, recv: seq<nat>, k: nat)
    requires k < |p.clients| == |recv|
    ensures AfterPass(p, |p.clients|, r, recv, k) == p.clients[k]
  {}

  // ---------- The whole pass ----------

  // Who is watched how, from the table.
  ghost predicate WatchedAsTheyAre(p: Pool) {
    forall k :: 0 <= k < |p.clients| && p.clients[k].connfd >= 0 ==>
      var c := p.clients[k];
      && (c.writeBuf == -1 <==> c.connfd in p.readFds) && (c.writeBuf == -1 <==> c.connfd in p.exceptionFds)
      && (c.writeBuf != -1 <==> c.connfd in p.writeFds)
  }

  lemma Watched(p: Pool, listenfd: int)
    requires PoolOk(p, listenfd)
    ensures WatchedAsTheyAre(p)
  {
    forall k | 0 <= k < |p.clients| && p.clients[k].connfd >= 0
      ensures Reads(p, p.clients[k]) || Writes(p, p.clients[k])
    {
      assert SlotOk(p, listenfd, k);
    }
  }

  /** One pass, slot by slot, in every iteration of every run: who is written to,
      leaves, gives a name or speaks, and what everybody is left with to write;
      clients with nothing to write are read from, the others written to. */
  lemma PassIs(p: Pool, listenfd: int, events: seq<Event>, e: Event)
    requires PoolOk(p, listenfd) && AllPossible(p, listenfd, events) && Rounds(p, listenfd, events).Some?
    requires var q := Rounds(p, listenfd, events).value;
      Possible(q, listenfd, e) && Arrived(q, listenfd, e).Some?
    ensures var q := Arrived(Rounds(p, listenfd, events).value, listenfd, e).value;
      && |q.clients| == |e.recv| == 32 && q.maxi < |q.clients| && |Pass(q, 0, e.r, e.recv).clients| == |q.clients|
      && (forall k :: 0 <= k < |q.clients| ==> Pass(q, 0, e.r, e.recv).clients[k] == AfterPass(q, 0, e.r, e.recv, k))
      && WatchedAsTheyAre(Pass(q, 0, e.r, e.recv))
  {
    hide PoolOk, Possible, Arrived, Pass, PassAll, PassServes, Serves, AfterPass, WatchedAsTheyAre;
    LoopKeepsOk(p, listenfd, events);
    EveryReadyClientIsServed(p, listenfd, events, e);
    var s := Rounds(p, listenfd, events).value;
    ArrivedOk(s, listenfd, e);
    var q := Arrived(s, listenfd, e).value;
    PassOk(q, listenfd, 0, e.r, e.recv);
    Watched(Pass(q, 0, e.r, e.recv), listenfd);
    PoolShape(q, listenfd);
    PassAllIs(q, listenfd, 0, e.r, e.recv, 0);
    forall k | 0 <= k < |q.clients| ensures Pass(q, 0, e.r, e.recv).clients[k] == AfterPass(q, 0, e.r, e.recv, k) {
      PassAllIs(q, listenfd, 0, e.r, e.recv, k);
    }
  }

  // ---------- What that means for one client ----------

  lemma ClosedIff(p: Pool, r: Ready, recv: seq<nat>, k: nat)
    requires k < |p.clients| == |recv| && p.clients[k].connfd >= 0
    ensures var c := AfterPass(p, 0, r, recv, k);
      if IsRead(p.clients[k], r) && recv[k] == 0 then c == Client(true, -1, -1)
      else c.connfd == p.clients[k].connfd && (c.welcome <==> p.clients[k].welcome && !IsRead(p.clients[k], r))
  {
    hide LastSpeaker;
  }

  /** A client leaves in a pass exactly if it is read from and has closed; any
      other stays, and has a name from the first time it is read from. */
  lemma LeavesIffClosed(p: Pool, listenfd: int, events: seq<Event>, e: Event, k: nat)
    requires PoolOk(p, listenfd) && AllPossible(p, listenfd, events) && Rounds(p, listenfd, events).Some?
    requires var q := Rounds(p, listenfd, events).value;
      Possible(q, listenfd, e) && Arrived(q, listenfd, e).Some?
    ensures var q := Arrived(Rounds(p, listenfd, events).value, listenfd, e).value;
      && |q.clients| == |e.recv| && q.maxi < |q.clients| && |Pass(q, 0, e.r, e.recv).clients| == |q.clients|
      && (k < |q.clients| && q.clients[k].connfd >= 0 ==>
           var c, read := Pass(q, 0, e.r, e.recv).clients[k], IsRead(q.clients[k], e.r);
           if read && e.recv[k] == 0 then c == Client(true, -1, -1)
           else c.connfd == q.clients[k].connfd && (c.welcome <==> q.clients[k].welcome && !read))
  {
    hide PoolOk, Possible, Arrived, Rounds, AllPossible, Pass, AfterPass, WatchedAsTheyAre, IsRead;
    PassIs(p, listenfd, events, e);
    var q := Arrived(Rounds(p, listenfd, events).value, listenfd, e).value;
    if k < |q.clients| && q.clients[k].connfd >= 0 {
      ClosedIff(q, e.r, e.recv, k);
    }
  }

  /** A new client takes the first free slot, unnamed and with nothing to write. */
  lemma NewcomerIs(p: Pool, listenfd: int, connfd: int)
    requires PoolOk(p, listenfd) && FreeSlot(p.clients, 0) < |p.clients| && connfd >= 0 && !Belongs(p, listenfd, connfd)
    ensures var q, k := Added(p, connfd), FreeSlot(p.clients, 0);
      && q.clients == p.clients[k := Client(true, connfd, -1)]
      && p.clients[k].connfd < 0 && (forall i :: 0 <= i < k ==> p.clients[i].connfd >= 0)
      && WatchedAsTheyAre(q)
  {
    assert SlotOk(p, listenfd, FreeSlot(p.clients, 0));
    AddedOk(p, listenfd, connfd);
    Watched(Added(p, connfd), listenfd);
  }
}
