/** Traces of timer operations on plain values: what any timer container does,
    and what the sorted list is meant to do. */
module TimerTraces {
  import opened TimerNodes
  import opened TimerOrder

  datatype Op<T> = Add(timer: T, expire: int) | Delete(timer: T) | Adjust(timer: T, expire: int) | Tick(now: int)

  // s holds exactly the timers of m, each once.
  ghost predicate Lists<T>(s: seq<Entry<T>>, m: map<T, int>) {
    && (forall i :: 0 <= i < |s| ==> s[i].timer in m && m[s[i].timer] == s[i].expire)
    && (forall t :: t in m ==> Entry(t, m[t]) in s)
    && (forall i, j :: 0 <= i < j < |s| ==> s[i].timer != s[j].timer)
  }

  ghost function Due<T>(m: map<T, int>, now: int): map<T, int> {
    map t | t in m && m[t] <= now :: m[t]
  }

  ghost function Undue<T>(m: map<T, int>, now: int): map<T, int> {
    map t | t in m && m[t] > now :: m[t]
  }

  /** What any timer container does with an operation: a tick fires the due
      timers in expiry order, those that expire together in any order. */
  ghost predicate Step<T>(m: map<T, int>, op: Op<T>, m': map<T, int>, fired: seq<Entry<T>>) {
    match op
    case Add(t, expire) => t !in m && m' == m[t := expire] && fired == []
    case Delete(t) => t in m && m' == m - {t} && fired == []
    case Adjust(t, expire) => t in m && m' == m[t := expire] && fired == []
    case Tick(now) => m' == Undue(m, now) && Lists(fired, Due(m, now)) && Ascending(fired)
  }

  lemma OneKeyLess<T>(s: seq<Entry<T>>, m: map<T, int>, j: int)
    requires Lists(s, m) && 0 <= j < |s|
    ensures |m - {s[j].timer}| == |m| - 1
  {
    var t := s[j].timer;
    assert (m - {t}).Keys == m.Keys - {t} && t in m.Keys;
  }

  lemma SomeListed<T>(s: seq<Entry<T>>, m: map<T, int>)
    requires Lists(s, m)
    ensures m != map[] ==> s != []
  {
    if m != map[] {
      var t :| t in m;
      assert Entry(t, m[t]) in s;
    }
  }

  lemma {:induction false} AsMany<T>(s: seq<Entry<T>>, m: map<T, int>)
    requires Lists(s, m)
    ensures |s| == |m|
    decreases |s|
  {
    hide Lists, Without;
    if s == [] {
      SomeListed(s, m);
    } else {
      var n := |s| - 1;
      OneLessListed(s, m, n);
      WithoutIs(s, n);
      AsMany(Without(s, n), m - {s[n].timer});
      OneKeyLess(s, m, n);
    }
  }

  // A stretch of a listing lists the timers it holds.
  lemma StretchListed<T>(s: seq<Entry<T>>, m: map<T, int>, lo: nat, hi: nat, part: map<T, int>)
    requires Lists(s, m) && lo <= hi <= |s|
    requires forall t :: t in part ==> t in m && part[t] == m[t]
    requires forall i :: 0 <= i < |s| ==> (lo <= i < hi <==> s[i].timer in part)
    ensures Lists(s[lo..hi], part)
  {
    forall t | t in part ensures Entry(t, part[t]) in s[lo..hi] {
      var i :| 0 <= i < |s| && s[i] == Entry(t, m[t]);
      assert s[lo..hi][i - lo] == s[i];
    }
  }

  lemma DuePartListed<T>(s: seq<Entry<T>>, m: map<T, int>, now: int)
    requires Lists(s, m) && Ascending(s)
    ensures Lists(s[..DueCount(s, now)], Due(m, now)) && Lists(s[DueCount(s, now)..], Undue(m, now))
  {
    hide DueCount, Ascending;
    DueIsAPrefix(s, now);
    var n := DueCount(s, now);
    StretchListed(s, m, 0, n, Due(m, now));
    StretchListed(s, m, n, |s|, Undue(m, now));
    assert s[0..n] == s[..n] && s[n..|s|] == s[n..];
  }

  lemma AscendingStretches<T>(s: seq<Entry<T>>, n: nat)
    requires Ascending(s) && n <= |s|
    ensures Ascending(s[..n]) && Ascending(s[n..]) && (n < |s| ==> Ascending(Without(s, n)))
  {}

  lemma OneLessListed<T>(s: seq<Entry<T>>, m: map<T, int>, j: int)
    requires Lists(s, m) && 0 <= j < |s|
    ensures Lists(Without(s, j), m - {s[j].timer})
  {
    hide Without;
    var p, m' := Without(s, j), m - {s[j].timer};
    WithoutIs(s, j);
    forall t | t in m' ensures Entry(t, m'[t]) in p {
      var i :| 0 <= i < |s| && s[i] == Entry(t, m[t]);
      assert p[if i < j then i else i - 1] == s[i];
    }
  }

  lemma WithoutIs<X>(s: seq<X>, j: int)
    requires 0 <= j < |s|
    ensures |Without(s, j)| == |s| - 1
    ensures forall i :: 0 <= i < |s| - 1 ==> Without(s, j)[i] == s[if i < j then i else i + 1]
  {}

  lemma OneMoreListed<T>(s: seq<Entry<T>>, m: map<T, int>, k: nat, t: T, expire: int)
    requires Lists(s, m) && k <= |s| && t !in m
    ensures Lists(InsertAt(s, k, Entry(t, expire)), m[t := expire])
  {
    var p, m' := InsertAt(s, k, Entry(t, expire)), m[t := expire];
    forall u | u in m' ensures Entry(u, m'[u]) in p {
      if u == t {
        assert p[k] == Entry(t, expire);
      } else {
        var i :| 0 <= i < |s| && s[i] == Entry(u, m[u]);
        assert p[if i < k then i else i + 1] == s[i];
      }
    }
  }

  lemma OneChangedListed<T>(s: seq<Entry<T>>, m: map<T, int>, j: int, expire: int)
    requires Lists(s, m) && 0 <= j < |s|
    ensures Lists(s[j := Entry(s[j].timer, expire)], m[s[j].timer := expire])
  {
    var p, m' := s[j := Entry(s[j].timer, expire)], m[s[j].timer := expire];
    forall u | u in m' ensures Entry(u, m'[u]) in p {
      if u == s[j].timer {
        assert p[j] == Entry(u, expire);
      } else {
        var i :| 0 <= i < |s| && s[i] == Entry(u, m[u]);
        assert p[i] == s[i];
      }
    }
  }

  /** Two listings of the same timers in expiry order agree but for the order of
      timers that expire together. */
  lemma SameUpToTies<T>(a: seq<Entry<T>>, b: seq<Entry<T>>, m: map<T, int>)
    requires Lists(a, m) && Lists(b, m) && Ascending(a) && Ascending(b)
    ensures |a| == |b| && (forall i :: 0 <= i < |a| ==> a[i].expire == b[i].expire)
    ensures forall e :: e in a <==> e in b
  {
    AsMany(a, m);
    AsMany(b, m);
    forall i | 0 <= i < |a| ensures a[i].expire == b[i].expire {
      NotBefore(a, b, m, i);
      NotBefore(b, a, m, i);
    }
  }

  // As many timers are due at a[i].expire in both.
  lemma NotBefore<T>(a: seq<Entry<T>>, b: seq<Entry<T>>, m: map<T, int>, i: int)
    requires Lists(a, m) && Lists(b, m) && Ascending(a) && Ascending(b) && 0 <= i < |a| == |b|
    ensures a[i].expire >= b[i].expire
  {
    hide Lists, DueCount;
    var now := a[i].expire;
    DuePartListed(a, m, now);
    DuePartListed(b, m, now);
    AsMany(a[..DueCount(a, now)], Due(m, now));
    AsMany(b[..DueCount(b, now)], Due(m, now));
    DueIsAPrefix(a, now);
    DueIsAPrefix(b, now);
  }

  // ---------- The list as meant ----------

  // The position of a timer in a list, the list's length if it is not there.
  ghost function IndexOf<T>(s: seq<Entry<T>>, t: T): (j: nat)
    ensures j <= |s| && (j < |s| ==> s[j].timer == t) && forall i :: 0 <= i < j ==> s[i].timer != t
  {
    if s == [] || s[0].timer == t then 0 else 1 + IndexOf(s[1..], t)
  }

  // A new expiry for entry j still fits between its neighbours.
  ghost predicate FitsAt<T>(s: seq<Entry<T>>, j: nat, expire: int)
    requires j < |s|
  {
    (j > 0 ==> s[j - 1].expire <= expire) && (j + 1 < |s| ==> expire <= s[j + 1].expire)
  }

  // Entry j taken out and added again with another expiry.
  ghost function Moved<T>(s: seq<Entry<T>>, j: nat, expire: int): seq<Entry<T>>
    requires j < |s|
  {
    var rest := Without(s, j);
    InsertAt(rest, Place(rest, expire), Entry(s[j].timer, expire))
  }

  // The operation names timers that are there, and adds one that is not.
  ghost predicate Legal<T>(s: seq<Entry<T>>, op: Op<T>) {
    match op
    case Add(t, _) => IndexOf(s, t) == |s|
    case Delete(t) => IndexOf(s, t) < |s|
    case Adjust(t, _) => IndexOf(s, t) < |s|
    case Tick(_) => true
  }

  /** The list after an operation: an adjusted timer is moved unless it still
      fits, any timer can be deleted. */
  ghost function Meant<T>(s: seq<Entry<T>>, op: Op<T>): seq<Entry<T>>
    requires Legal(s, op)
  {
    match op
    case Add(t, expire) => InsertAt(s, Place(s, expire), Entry(t, expire))
    case Delete(t) => Without(s, IndexOf(s, t))
    case Adjust(t, expire) =>
      var j := IndexOf(s, t);
      if FitsAt(s, j, expire) then s[j := Entry(t, expire)] else Moved(s, j, expire)
    case Tick(now) => s[DueCount(s, now)..]
  }

  ghost function Fired<T>(s: seq<Entry<T>>, op: Op<T>): seq<Entry<T>> {
    if op.Tick? then s[..DueCount(s, op.now)] else []
  }

  // Taking a timer out and adding it again keeps the list in order whatever its new expiry.
  lemma MovingKeepsOrder<T>(s: seq<Entry<T>>, m: map<T, int>, j: nat, expire: int)
    requires Ascending(s) && Lists(s, m) && j < |s|
    ensures Ascending(Moved(s, j, expire)) && Lists(Moved(s, j, expire), m[s[j].timer := expire])
  {
    hide Lists, Ascending, Place, Without, InsertAt;
    var t, rest := s[j].timer, Without(s, j);
    AscendingStretches(s, j);
    OneLessListed(s, m, j);
    InsertKeepsAscending(rest, Entry(t, expire));
    OneMoreListed(rest, m - {t}, Place(rest, expire), t, expire);
    assert (m - {t})[t := expire] == m[t := expire];
  }

  lemma LegalSame<T>(s: seq<Entry<T>>, m: map<T, int>, op: Op<T>)
    requires Lists(s, m)
    ensures Legal(s, op) <==> match op
      case Add(t, _) => t !in m
      case Delete(t) => t in m
      case Adjust(t, _) => t in m
      case Tick(_) => true
  {
    if !op.Tick? {
      var t := op.timer;
      if t in m {
        assert Entry(t, m[t]) in s;
      }
    }
  }

  /** Every operation of the list as meant is an operation of a timer container,
      and keeps the list in order. */
  lemma MeantRefines<T>(s: seq<Entry<T>>, m: map<T, int>, op: Op<T>, m': map<T, int>, fired: seq<Entry<T>>)
    requires Ascending(s) && Lists(s, m) && Step(m, op, m', fired)
    ensures Legal(s, op)
    ensures Step(m, op, m', Fired(s, op)) && Lists(Meant(s, op), m') && Ascending(Meant(s, op))
  {
    hide Place, DueCount, Due, Undue, Lists, Ascending, Without, InsertAt, Moved, IndexOf;
    LegalSame(s, m, op);
    match op {
      case Add(t, expire) =>
        InsertKeepsAscending(s, Entry(t, expire));
        OneMoreListed(s, m, Place(s, expire), t, expire);
      case Delete(t) =>
        OneLessListed(s, m, IndexOf(s, t));
        AscendingStretches(s, IndexOf(s, t));
      case Adjust(t, expire) =>
        var j := IndexOf(s, t);
        OneChangedListed(s, m, j, expire);
        AdjustNeverMoves(s, j, expire);
        MovingKeepsOrder(s, m, j, expire);
      case Tick(now) =>
        DuePartListed(s, m, now);
        AscendingStretches(s, DueCount(s, now));
    }
  }

  ghost predicate Run<T>(ms: seq<map<T, int>>, ops: seq<Op<T>>, fired: seq<seq<Entry<T>>>) {
    && |ms| == |ops| + 1 && |fired| == |ops| && ms[0] == map[]
    && forall i :: 0 <= i < |ops| ==> Step(ms[i], ops[i], ms[i + 1], fired[i])
  }

  // ss are the states of the list as meant, from the empty list on.
  ghost predicate MeantRun<T>(ss: seq<seq<Entry<T>>>, ops: seq<Op<T>>) {
    && |ss| == |ops| + 1 && ss[0] == []
    && forall i :: 0 <= i < |ops| ==> Legal(ss[i], ops[i]) && ss[i + 1] == Meant(ss[i], ops[i])
  }

  lemma NothingListed<T>()
    ensures Lists<T>([], map[]) && Ascending<T>([])
  {}

  lemma {:induction false} MeantFollows<T>(ss: seq<seq<Entry<T>>>, ms: seq<map<T, int>>, ops: seq<Op<T>>,
                                           fh: seq<seq<Entry<T>>>, n: nat)
    requires MeantRun(ss, ops) && Run(ms, ops, fh) && n <= |ops|
    ensures Lists(ss[n], ms[n]) && Ascending(ss[n])
  {
    hide Lists, Step, Meant, Fired, Ascending, Legal;
    if n > 0 {
      MeantFollows(ss, ms, ops, fh, n - 1);
      MeantRefines(ss[n - 1], ms[n - 1], ops[n - 1], ms[n], fh[n - 1]);
    } else {
      NothingListed<T>();
    }
  }

  /** Over any trace of adds, deletes, adjustments and ticks the heap and the
      sorted list as meant hold the same timers, and at every tick fire the same
      ones, expiry by expiry in the same order. */
  lemma HeapAndListAgree<T>(ss: seq<seq<Entry<T>>>, ms: seq<map<T, int>>, ops: seq<Op<T>>, fh: seq<seq<Entry<T>>>,
                            n: nat)
    requires MeantRun(ss, ops) && Run(ms, ops, fh) && n < |ops|
    ensures Lists(ss[n + 1], ms[n + 1])
    ensures var fl := Fired(ss[n], ops[n]);
      && |fl| == |fh[n]| && (forall i :: 0 <= i < |fl| ==> fl[i].expire == fh[n][i].expire)
      && forall e :: e in fl <==> e in fh[n]
  {
    hide Lists, Due, Undue, Meant, Fired, Ascending, Legal;
    MeantFollows(ss, ms, ops, fh, n);
    MeantFollows(ss, ms, ops, fh, n + 1);
    MeantRefines(ss[n], ms[n], ops[n], ms[n + 1], fh[n]);
    if ops[n].Tick? {
      SameUpToTies(Fired(ss[n], ops[n]), fh[n], Due(ms[n], ops[n].now));
    }
  }

  // ---------- Firing ----------

  /** A list fires every due timer whatever the time exactly when it is in order. */
  lemma FiresEveryDueTimerIff<T>(s: seq<Entry<T>>)
    ensures Ascending(s) <==>
      forall now, i :: 0 <= i < |s| ==> (i < DueCount(s, now) <==> s[i].expire <= now)
  {
    if Ascending(s) {
      forall now, i | 0 <= i < |s| ensures i < DueCount(s, now) <==> s[i].expire <= now {
        DueIsAPrefix(s, now);
      }
    } else {
      var i, j :| 0 <= i < j < |s| && s[i].expire > s[j].expire;
      assert DueCount(s, s[j].expire) <= i;
    }
  }

  // Whatever the time, a tick now would fire exactly the timers of m that are due.
  ghost predicate TicksRight<T>(s: seq<Entry<T>>, m: map<T, int>) {
    forall now :: Lists(s[..DueCount(s, now)], Due(m, now))
  }

  lemma TicksRightIffAscending<T>(s: seq<Entry<T>>, m: map<T, int>)
    requires Lists(s, m)
    ensures TicksRight(s, m) <==> Ascending(s)
  {
    hide DueCount, Due;
    if Ascending(s) {
      forall now ensures Lists(s[..DueCount(s, now)], Due(m, now)) {
        DuePartListed(s, m, now);
      }
    } else {
      var i, j :| 0 <= i < j < |s| && s[i].expire > s[j].expire;
      LeftOut(s, m, i, j);
    }
  }

  // A timer behind one that expires later is due, but not fired, at its own time.
  lemma LeftOut<T>(s: seq<Entry<T>>, m: map<T, int>, i: nat, j: nat)
    requires Lists(s, m) && i < j < |s| && s[i].expire > s[j].expire
    ensures !Lists(s[..DueCount(s, s[j].expire)], Due(m, s[j].expire))
  {
    var now := s[j].expire;
    var part := s[..DueCount(s, now)];
    assert s[j].timer in Due(m, now);
    assert Entry(s[j].timer, now) !in part;
  }
}
