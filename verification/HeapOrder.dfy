/** The order of the timer heap on plain keys.  The parent of slot i is i / 2,
    so the root has the one proper child 1 and slot i > 0 has 2i and 2i + 1. */
module HeapOrder {

  predicate Ordered(k: seq<int>, j: int)
    requires 0 <= j < |k|
  {
    k[j / 2] <= k[j]
  }

  ghost predicate IsHeap(k: seq<int>) {
    forall j {:trigger Ordered(k, j)} :: 0 < j < |k| ==> Ordered(k, j)
  }

  // In order except that i may be smaller than its parent.
  ghost predicate RisesAt(k: seq<int>, i: int) {
    && (forall j {:trigger Ordered(k, j)} :: 0 < j < |k| && j != i ==> Ordered(k, j))
    && (forall j {:trigger Ordered(k, j)} :: 0 < i < |k| && 0 < j < |k| && j / 2 == i ==> k[i / 2] <= k[j])
  }

  // In order except that i may be larger than its children.
  ghost predicate SinksAt(k: seq<int>, i: int) {
    && (forall j {:trigger Ordered(k, j)} :: 0 < j < |k| && j / 2 != i ==> Ordered(k, j))
    && (forall j {:trigger Ordered(k, j)} :: 0 < i < |k| && 0 < j < |k| && j / 2 == i ==> k[i / 2] <= k[j])
  }

  function Swap<X>(s: seq<X>, i: int, j: int): seq<X>
    requires 0 <= i < |s| && 0 <= j < |s|
  {
    s[i := s[j]][j := s[i]]
  }

  lemma SwapKeepsElements<X>(s: seq<X>, i: int, j: int)
    requires 0 <= i < |s| && 0 <= j < |s|
    ensures multiset(Swap(s, i, j)) == multiset(s)
  {}

  lemma Risen(k: seq<int>, i: int)
    requires 0 < i < |k| && RisesAt(k, i) && k[i] < k[i / 2]
    ensures RisesAt(Swap(k, i, i / 2), i / 2)
  {
    var p, s := i / 2, Swap(k, i, i / 2);
    forall j | 0 < j < |s| && j != p ensures Ordered(s, j) {
      assert Ordered(k, j) || j == i;
      assert Ordered(k, p) || p == 0;
    }
    forall j | 0 < p && 0 < j < |s| && j / 2 == p ensures s[p / 2] <= s[j] {
      assert Ordered(k, j) || j == i;
      assert Ordered(k, p);
    }
  }

  lemma RisenToRest(k: seq<int>, i: int)
    requires 0 <= i < |k| && RisesAt(k, i) && (i == 0 || k[i] >= k[i / 2])
    ensures IsHeap(k)
  {
    assert i > 0 ==> Ordered(k, i);
  }

  // The smaller child of i; for the root with no smaller child, the root itself.
  function Child(k: seq<int>, i: int): int
    requires 0 <= i && 2 * i < |k|
  {
    if 2 * i + 1 < |k| && k[2 * i + 1] < k[2 * i] then 2 * i + 1 else 2 * i
  }

  lemma Sunk(k: seq<int>, i: int)
    requires 0 <= i && 2 * i < |k| && SinksAt(k, i) && k[Child(k, i)] < k[i]
    ensures i < Child(k, i) && SinksAt(Swap(k, i, Child(k, i)), Child(k, i))
  {
    var c, s := Child(k, i), Swap(k, i, Child(k, i));
    forall j | 0 < j < |s| && j / 2 != c ensures Ordered(s, j) {
      assert j / 2 == i || Ordered(k, j);
      assert i > 0 ==> k[i / 2] <= k[c] by {
        assert Ordered(k, c) || !Ordered(k, c);
      }
    }
    forall j | 0 < j < |s| && j / 2 == c ensures s[c / 2] <= s[j] {
      assert Ordered(k, j);
    }
  }

  lemma SunkToRest(k: seq<int>, i: int)
    requires 0 <= i < |k| && SinksAt(k, i) && (2 * i < |k| ==> k[Child(k, i)] >= k[i])
    ensures IsHeap(k)
  {
    forall j | 0 < j < |k| ensures Ordered(k, j) {
      if j / 2 == i {
        assert j == 2 * i || j == 2 * i + 1;
      }
    }
  }

  lemma {:induction false} RootIsLeast(k: seq<int>, i: int)
    requires IsHeap(k) && 0 <= i < |k|
    ensures k[0] <= k[i]
    decreases i
  {
    if i > 0 {
      assert Ordered(k, i);
      RootIsLeast(k, i / 2);
    }
  }

  // Changing one key of a heap leaves it out of order there only, upwards or downwards.
  lemma Lowered(k: seq<int>, i: int, e: int)
    requires IsHeap(k) && 0 <= i < |k| && e <= k[i]
    ensures RisesAt(k[i := e], i)
  {
    var s := k[i := e];
    forall j | 0 < j < |s| && j != i ensures Ordered(s, j) {
      assert Ordered(k, j);
    }
    forall j | 0 < i && 0 < j < |s| && j / 2 == i ensures s[i / 2] <= s[j] {
      assert Ordered(k, j) && Ordered(k, i);
    }
  }

  lemma Raised(k: seq<int>, i: int, e: int)
    requires IsHeap(k) && 0 <= i < |k| && e >= k[i]
    ensures SinksAt(k[i := e], i)
  {
    var s := k[i := e];
    forall j | 0 < j < |s| && j / 2 != i ensures Ordered(s, j) {
      assert Ordered(k, j);
    }
    forall j | 0 < i && 0 < j < |s| && j / 2 == i ensures s[i / 2] <= s[j] {
      assert Ordered(k, j) && Ordered(k, i);
    }
  }

  // In a heap but for one key, that key either rises or sinks; adjust_timer tells which.
  lemma Adjusted(k: seq<int>, i: int, e: int)
    requires IsHeap(k) && 0 <= i < |k|
    ensures e < k[i / 2] && i > 0 ==> RisesAt(k[i := e], i)
    ensures e >= k[i := e][i / 2] ==> SinksAt(k[i := e], i)
  {
    assert i > 0 ==> Ordered(k, i);
    if e >= k[i] {
      Raised(k, i, e);
    }
    if e <= k[i] {
      Lowered(k, i, e);
      if e >= k[i := e][i / 2] {
        RisenToRest(k[i := e], i);
        Raised(k[i := e], i, e);
        assert k[i := e][i := e] == k[i := e];
      }
    }
  }

  lemma ShorterHeap(k: seq<int>, n: int)
    requires IsHeap(k) && 0 <= n <= |k|
    ensures IsHeap(k[..n])
  {
    forall j | 0 < j < n ensures Ordered(k[..n], j) {
      assert Ordered(k, j);
    }
  }

  lemma LongerHeap(k: seq<int>, e: int)
    requires IsHeap(k)
    ensures RisesAt(k + [e], |k|)
  {
    var s := k + [e];
    forall j | 0 < j < |s| && j != |k| ensures Ordered(s, j) {
      assert Ordered(k, j);
    }
  }

  // Slot i overwritten with the last one, which is dropped.
  function Taken<X>(s: seq<X>, i: int): (r: seq<X>)
    requires 0 <= i < |s|
    ensures |r| == |s| - 1
  {
    if i < |s| - 1 then s[..|s| - 1][i := s[|s| - 1]] else s[..|s| - 1]
  }

  lemma TakenElements<X>(s: seq<X>, i: int)
    requires 0 <= i < |s|
    ensures multiset(Taken(s, i)) == multiset(s) - multiset{s[i]}
  {
    assert s == s[..|s| - 1] + [s[|s| - 1]];
  }

  // Taking key i out leaves a heap, or one out of order at i only.
  lemma TakenHeap(k: seq<int>, i: int)
    requires IsHeap(k) && 0 <= i < |k|
    ensures i == |k| - 1 ==> IsHeap(Taken(k, i))
    ensures i < |k| - 1 && k[|k| - 1] <= k[i] ==> RisesAt(Taken(k, i), i)
    ensures i < |k| - 1 && k[|k| - 1] >= k[i] ==> SinksAt(Taken(k, i), i)
    ensures i < |k| - 1 ==> Taken(k, i)[i] == k[|k| - 1]
  {
    hide IsHeap, RisesAt, SinksAt;
    var n := |k| - 1;
    ShorterHeap(k, n);
    if i < n && k[n] <= k[i] {
      Lowered(k[..n], i, k[n]);
    }
    if i < n && k[n] >= k[i] {
      Raised(k[..n], i, k[n]);
    }
  }
}
