/** What the timer containers compute, on plain values: entries in expiry order,
    the timers due at a time, and when two containers must fire alike. */
module TimerOrder {
  import opened TimerNodes

  datatype Entry<T> = Entry(timer: T, expire: int)

  // The entries of timers, with the expiries they have now.
  ghost function Entries(q: seq<Timer>): (v: seq<Entry<Timer>>)
    reads q`expire
    ensures |v| == |q|
    ensures forall i :: 0 <= i < |v| ==> v[i] == Entry(q[i], q[i].expire)
  {
    if q == [] then [] else Entries(q[..|q| - 1]) + [Entry(q[|q| - 1], q[|q| - 1].expire)]
  }

  // Where a sorted list puts an entry: before the first that expires no earlier.
  function Place<T>(s: seq<Entry<T>>, expire: int): (p: nat)
    ensures p <= |s| && (p < |s| ==> s[p].expire >= expire)
    ensures forall i :: 0 <= i < p ==> s[i].expire < expire
  {
    if s == [] || s[0].expire >= expire then 0 else 1 + Place(s[1..], expire)
  }

  lemma PlaceIs<T>(s: seq<Entry<T>>, expire: int, p: nat)
    requires p <= |s| && (p < |s| ==> s[p].expire >= expire)
    requires forall i :: 0 <= i < p ==> s[i].expire < expire
    ensures Place(s, expire) == p
  {}

  lemma PlaceAtFront<T>(s: seq<Entry<T>>, expire: int)
    ensures Place(s, expire) == 0 <==> s == [] || s[0].expire >= expire
  {}

  // How many entries a list fires: it stops at the first that is not due.
  function DueCount<T>(s: seq<Entry<T>>, now: int): (n: nat)
    ensures n <= |s| && (n < |s| ==> s[n].expire > now)
    ensures forall i :: 0 <= i < n ==> s[i].expire <= now
  {
    if s == [] || s[0].expire > now then 0 else 1 + DueCount(s[1..], now)
  }

  lemma DueCountIs<T>(s: seq<Entry<T>>, now: int, n: nat)
    requires n <= |s| && (n < |s| ==> s[n].expire > now)
    requires forall i :: 0 <= i < n ==> s[i].expire <= now
    ensures DueCount(s, now) == n
  {}

  ghost predicate Ascending<T>(s: seq<Entry<T>>) {
    forall i, j :: 0 <= i < j < |s| ==> s[i].expire <= s[j].expire
  }

  lemma InsertKeepsAscending<T>(s: seq<Entry<T>>, x: Entry<T>)
    requires Ascending(s)
    ensures Ascending(InsertAt(s, Place(s, x.expire), x))
  {}

  lemma DueIsAPrefix<T>(s: seq<Entry<T>>, now: int)
    requires Ascending(s)
    ensures forall i :: 0 <= i < |s| ==> (s[i].expire <= now <==> i < DueCount(s, now))
  {}

  // adjust_timer of the list leaves the timer alone unless it is out of order on both sides.
  predicate Moves<T>(s: seq<Entry<T>>, i: nat)
    requires i < |s|
  {
    0 < i && i + 1 < |s| && s[i].expire < s[i - 1].expire && s[i].expire > s[i + 1].expire
  }

  /** In a list that was in order before one timer's expiry changed, adjust_timer
      moves nothing, and the list is in order afterwards exactly when the new
      expiry still fits between the neighbours. */
  lemma AdjustNeverMoves<T>(s: seq<Entry<T>>, i: nat, expire: int)
    requires Ascending(s) && i < |s|
    ensures var s' := s[i := s[i].(expire := expire)];
      && !Moves(s', i)
      && (Ascending(s') <==> (i > 0 ==> s[i - 1].expire <= expire) && (i + 1 < |s| ==> expire <= s[i + 1].expire))
  {
    var s' := s[i := s[i].(expire := expire)];
    if (i > 0 ==> s[i - 1].expire <= expire) && (i + 1 < |s| ==> expire <= s[i + 1].expire) {
      forall j, k | 0 <= j < k < |s'| ensures s'[j].expire <= s'[k].expire {
        if k == i && j < i - 1 {
          assert s[j].expire <= s[i - 1].expire;
        }
        if j == i && k > i + 1 {
          assert s[i + 1].expire <= s[k].expire;
        }
      }
    } else if i > 0 && s[i - 1].expire > expire {
      assert s'[i - 1].expire > s'[i].expire;
    } else {
      assert s'[i].expire > s'[i + 1].expire;
    }
  }

  /** A timer three places down whose expiry is moved to the front stays where it is. */
  lemma AdjustLeavesTheListUnsorted(s: seq<Entry<nat>>)
    requires s == [Entry(0, 10), Entry(1, 20), Entry(2, 5)]
    ensures !Moves(s, 2) && !Ascending(s)
  {
    assert s[1].expire > s[2].expire;
  }
}
