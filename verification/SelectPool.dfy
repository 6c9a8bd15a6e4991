/** The chat server's client pool around select: a table of clients, the sets of
    descriptors watched, and one pass over the clients a select reports ready. */
module SelectPool {

  const CLIENT_FD_NUMBER := 32
  const NONE := -1

  // writeBuf is the slot whose buffer is waiting to be written to the client, NONE for a null pointer.
  datatype Client = Client(welcome: bool, connfd: int, writeBuf: int)

  const FREE := Client(true, NONE, NONE)

  datatype Pool = Pool(clients: seq<Client>, maxi: int, maxfd: int, nready: int,
                       readFds: set<int>, writeFds: set<int>, exceptionFds: set<int>)

  // What select reports: subsets of the watched sets.
  datatype Ready = Ready(readFds: set<int>, writeFds: set<int>, exceptionFds: set<int>)

  // ---------- What the operations do ----------

  predicate Live(c: Client) { c.connfd >= 0 }

  predicate IsReady(c: Client, r: Ready) {
    c.connfd in r.readFds || c.connfd in r.writeFds || c.connfd in r.exceptionFds
  }

  // The first free slot from i on.
  function FreeSlot(clients: seq<Client>, i: nat): (k: nat)
    requires i <= |clients|
    ensures i <= k <= |clients| && (k < |clients| ==> !Live(clients[k])) && forall j :: i <= j < k ==> Live(clients[j])
    decreases |clients| - i
  {
    if i == |clients| || !Live(clients[i]) then i else FreeSlot(clients, i + 1)
  }

  // add_client; the server gives up when the table is full.
  function Added(p: Pool, connfd: int): Pool
    requires FreeSlot(p.clients, 0) < |p.clients|
  {
    var k := FreeSlot(p.clients, 0);
    p.(clients := p.clients[k := p.clients[k].(connfd := connfd)], nready := p.nready - 1,
       readFds := p.readFds + {connfd}, exceptionFds := p.exceptionFds + {connfd},
       maxfd := if connfd > p.maxfd then connfd else p.maxfd, maxi := if k > p.maxi then k else p.maxi)
  }

  function Wrote(p: Pool, i: nat): Pool
    requires i < |p.clients|
  {
    var fd := p.clients[i].connfd;
    p.(clients := p.clients[i := p.clients[i].(writeBuf := NONE)],
       writeFds := p.writeFds - {fd}, readFds := p.readFds + {fd}, exceptionFds := p.exceptionFds + {fd})
  }

  function Exited(p: Pool, i: nat): Pool
    requires i < |p.clients|
  {
    var fd := p.clients[i].connfd;
    p.(clients := p.clients[i := FREE],
       readFds := p.readFds - {fd}, writeFds := p.writeFds - {fd}, exceptionFds := p.exceptionFds - {fd})
  }

  // Slot j gets what client i said.
  function ToldOne(p: Pool, i: nat, j: nat): Pool
    requires j < |p.clients|
  {
    var c := p.clients[j];
    if j == i || c.connfd == NONE || c.welcome then p
    else p.(clients := p.clients[j := c.(writeBuf := i)],
            writeFds := p.writeFds + {c.connfd},
            readFds := p.readFds - {c.connfd}, exceptionFds := p.exceptionFds - {c.connfd})
  }

  // The slots below k get it.
  function Told(p: Pool, i: nat, k: nat): (r: Pool)
    requires k <= |p.clients|
    ensures |r.clients| == |p.clients| && r.maxi == p.maxi && r.maxfd == p.maxfd && r.nready == p.nready
  {
    if k == 0 then p else ToldOne(Told(p, i, k - 1), i, k - 1)
  }

  // What becomes of a ready client: n is what recv returns for it.
  function Served(p: Pool, i: nat, r: Ready, n: nat): Pool
    requires i < |p.clients| && p.maxi < |p.clients|
  {
    var c := p.clients[i];
    if c.connfd in r.writeFds then Wrote(p, i)
    else if n == 0 then Exited(p, i)
    else if c.welcome then p.(clients := p.clients[i := c.(welcome := false)])
    else Told(p, i, if p.maxi >= 0 then p.maxi + 1 else 0)
  }

  predicate Serves(p: Pool, i: nat, r: Ready)
    requires i < |p.clients|
  {
    Live(p.clients[i]) && IsReady(p.clients[i], r)
  }

  /** check_clients from slot i on: it stops when nready clients have been served. */
  function Pass(p: Pool, i: nat, r: Ready, recv: seq<nat>): Pool
    requires |p.clients| == |recv| && p.maxi < |p.clients|
    decreases |p.clients| - i
  {
    if i > p.maxi || p.nready <= 0 then p
    else if Serves(p, i, r) then Pass(Served(p.(nready := p.nready - 1), i, r, recv[i]), i + 1, r, recv)
    else Pass(p, i + 1, r, recv)
  }

  // The slots that pass serves, in order.
  function PassServes(p: Pool, i: nat, r: Ready, recv: seq<nat>): seq<nat>
    requires |p.clients| == |recv| && p.maxi < |p.clients|
    decreases |p.clients| - i
  {
    if i > p.maxi || p.nready <= 0 then []
    else if Serves(p, i, r) then [i] + PassServes(Served(p.(nready := p.nready - 1), i, r, recv[i]), i + 1, r, recv)
    else PassServes(p, i + 1, r, recv)
  }

  // A pool just set up.
  function Fresh(listenfd: int, nready: int): Pool {
    Pool(seq(CLIENT_FD_NUMBER, _ => FREE), NONE, listenfd, nready, {listenfd}, {}, {listenfd})
  }

  // ---------- The code ----------

  class ClientPool {
    const clients: array<Client>
    var maxi: int
    var maxfd: int
    var nready: int
    var readFds: set<int>
    var writeFds: set<int>
    var exceptionFds: set<int>

    ghost function View(): (p: Pool)
      reads this, clients
    {
      Pool(clients[..], maxi, maxfd, nready, readFds, writeFds, exceptionFds)
    }

    // init_pool.
    constructor (listenfd: int)
      ensures clients.Length == CLIENT_FD_NUMBER && fresh(clients)
      ensures View() == Fresh(listenfd, nready)
    {
      clients := new Client[CLIENT_FD_NUMBER](_ => FREE);
      maxi, maxfd, nready := NONE, listenfd, 0;
      readFds, writeFds, exceptionFds := {listenfd}, {}, {listenfd};
      new;
      assert clients[..] == seq(CLIENT_FD_NUMBER, _ => FREE);
    }

    method AddClient(connfd: int) returns (ok: bool)
      modifies this, clients
      ensures ok <==> FreeSlot(old(clients[..]), 0) < clients.Length
      ensures ok ==> View() == Added(old(View()), connfd)
    {
      nready := nready - 1;
      var i := 0;
      while i < clients.Length
        invariant View() == old(View()).(nready := old(nready) - 1)
        invariant 0 <= i <= clients.Length && FreeSlot(clients[..], 0) == FreeSlot(clients[..], i)
      {
        if clients[i].connfd < 0 {
          clients[i] := clients[i].(connfd := connfd);
          readFds, exceptionFds := readFds + {connfd}, exceptionFds + {connfd};
          if connfd > maxfd {
            maxfd := connfd;
          }
          if i > maxi {
            maxi := i;
          }
          return true;
        }
        i := i + 1;
      }
      ok := false;
    }

    // The loop that hands what client i said to the others.
    method Tell(i: nat)
      requires i < clients.Length && maxi < clients.Length
      modifies this`readFds, this`writeFds, this`exceptionFds, clients
      ensures View() == Told(old(View()), i, if maxi >= 0 then maxi + 1 else 0)
    {
      ghost var p := View();
      var j := 0;
      while j <= maxi
        invariant 0 <= j && (j <= maxi + 1 || j == 0)
        invariant View() == Told(p, i, j)
      {
        if j != i && clients[j].connfd != NONE && !clients[j].welcome {
          clients[j] := clients[j].(writeBuf := i);
          writeFds := writeFds + {clients[j].connfd};
          readFds := readFds - {clients[j].connfd};
          exceptionFds := exceptionFds - {clients[j].connfd};
        }
        j := j + 1;
      }
    }

    method Serve(i: nat, r: Ready, n: nat)
      requires i < clients.Length && maxi < clients.Length
      modifies this`readFds, this`writeFds, this`exceptionFds, clients
      ensures View() == Served(old(View()), i, r, n)
    {
      hide Told;
      var fd := clients[i].connfd;
      if fd in r.writeFds {
        clients[i] := clients[i].(writeBuf := NONE);
        writeFds, readFds, exceptionFds := writeFds - {fd}, readFds + {fd}, exceptionFds + {fd};
      } else if n == 0 {
        readFds, writeFds, exceptionFds := readFds - {fd}, writeFds - {fd}, exceptionFds - {fd};
        clients[i] := FREE;
      } else if clients[i].welcome {
        clients[i] := clients[i].(welcome := false);
      } else {
        Tell(i);
      }
    }

    method CheckClients(r: Ready, recv: seq<nat>) returns (ghost served: seq<nat>)
      requires |recv| == clients.Length && maxi < clients.Length
      modifies this`readFds, this`writeFds, this`exceptionFds, this`nready, clients
      ensures View() == Pass(old(View()), 0, r, recv) && served == PassServes(old(View()), 0, r, recv)
    {
      hide Served;
      ghost var p := View();
      served := [];
      var i := 0;
      while i <= maxi && nready > 0
        invariant 0 <= i && Pass(p, 0, r, recv) == Pass(View(), i, r, recv)
        invariant PassServes(p, 0, r, recv) == served + PassServes(View(), i, r, recv)
        decreases maxi - i
      {
        if clients[i].connfd >= 0 && IsReady(clients[i], r) {
          nready := nready - 1;
          Serve(i, r, recv[i]);
          served := served + [i];
        }
        i := i + 1;
      }
    }
  }
}
