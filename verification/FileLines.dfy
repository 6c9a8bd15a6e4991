/** The lines of a file, by counting newlines: what head and tail are to print. */
module FileLines {

  function Newlines(s: seq<char>): (n: nat)
    ensures n <= |s|
  {
    if s == [] then 0 else Newlines(s[..|s| - 1]) + if s[|s| - 1] == '\n' then 1 else 0
  }

  predicate Unterminated(s: seq<char>) {
    s != [] && s[|s| - 1] != '\n'
  }

  function LineCount(s: seq<char>): nat {
    Newlines(s) + if Unterminated(s) then 1 else 0
  }

  // Where line k (from 0) begins; the end of the file if there is no such line.
  function LineStart(s: seq<char>, k: int): (e: nat)
    ensures e <= |s|
  {
    if s == [] then 0
    else if Newlines(s[..|s| - 1]) < k then |s|
    else LineStart(s[..|s| - 1], k)
  }

  /** A character is in the first k lines exactly when fewer than k newlines come before it. */
  lemma {:induction false} LineStartSplits(s: seq<char>, k: int, i: nat)
    requires i < |s|
    ensures i < LineStart(s, k) <==> Newlines(s[..i]) < k
  {
    var p := s[..|s| - 1];
    if Newlines(p) < k {
      Monotone(p, i);
      assert p[..i] == s[..i];
    } else if i < |p| {
      LineStartSplits(p, k, i);
      assert p[..i] == s[..i];
    }
  }

  lemma {:induction false} Monotone(s: seq<char>, i: nat)
    requires i <= |s|
    ensures Newlines(s[..i]) <= Newlines(s)
  {
    if i < |s| {
      Monotone(s[..|s| - 1], i);
      assert s[..|s| - 1][..i] == s[..i];
    } else {
      assert s[..i] == s;
    }
  }

  lemma {:induction false} CountJoined(a: seq<char>, b: seq<char>)
    ensures Newlines(a + b) == Newlines(a) + Newlines(b)
  {
    if b == [] {
      assert a + b == a;
    } else {
      assert (a + b)[..|a + b| - 1] == a + b[..|b| - 1];
      CountJoined(a, b[..|b| - 1]);
    }
  }

  lemma CountParts(s: seq<char>, i: nat, j: nat)
    requires i <= j <= |s|
    ensures Newlines(s[..j]) == Newlines(s[..i]) + Newlines(s[i..j])
  {
    assert s[..j] == s[..i] + s[i..j];
    CountJoined(s[..i], s[i..j]);
  }

  // A line begins right behind the newline that ends the one before.
  lemma StartBehind(s: seq<char>, k: int, e: nat)
    requires 0 < e <= |s| && s[e - 1] == '\n' && Newlines(s[..e]) == k
    ensures LineStart(s, k) == e
  {
    assert s[..e][..e - 1] == s[..e - 1];
    LineStartSplits(s, k, e - 1);
    if e < |s| {
      LineStartSplits(s, k, e);
    }
  }

  lemma StartOfFile(s: seq<char>, k: int)
    requires k <= 0
    ensures LineStart(s, k) == 0
  {
    if s != [] {
      LineStartSplits(s, k, 0);
    }
  }

  lemma StartBeyond(s: seq<char>, k: int)
    requires Newlines(s) < k
    ensures LineStart(s, k) == |s|
  {
    if s != [] {
      Monotone(s, |s| - 1);
    }
  }

  // Lines of a text behind another.
  lemma StartJoined(a: seq<char>, b: seq<char>, k: int)
    requires Newlines(a) < k
    ensures LineStart(a + b, k) == |a| + LineStart(b, k - Newlines(a))
  {
    hide Newlines, LineStart;
    var s, e := a + b, LineStart(b, k - Newlines(a));
    if e > 0 {
      LineStartSplits(b, k - Newlines(a), e - 1);
      assert s[..|a| + e - 1] == a + b[..e - 1];
      CountJoined(a, b[..e - 1]);
      LineStartSplits(s, k, |a| + e - 1);
    } else if a != [] {
      Monotone(a, |a| - 1);
      assert s[..|a| - 1] == a[..|a| - 1];
      LineStartSplits(s, k, |a| - 1);
    }
    if e < |b| {
      LineStartSplits(b, k - Newlines(a), e);
      assert s[..|a| + e] == a + b[..e];
      CountJoined(a, b[..e]);
      LineStartSplits(s, k, |a| + e);
    }
  }

  function FirstLines(s: seq<char>, k: nat): seq<char> {
    s[..LineStart(s, k)]
  }

  function FromLine(s: seq<char>, k: nat): seq<char> {
    s[LineStart(s, k - 1)..]
  }

  function LastLines(s: seq<char>, k: nat): seq<char> {
    s[LineStart(s, LineCount(s) - k)..]
  }

  function AllButLast(s: seq<char>, k: nat): seq<char> {
    s[..LineStart(s, LineCount(s) - k)]
  }

  lemma {:induction false} StartHasCount(s: seq<char>, k: nat)
    requires k <= Newlines(s)
    ensures Newlines(s[..LineStart(s, k)]) == k && (k > 0 ==> s[LineStart(s, k) - 1] == '\n')
  {
    var e := LineStart(s, k);
    if s != [] {
      var p := s[..|s| - 1];
      if Newlines(p) < k {
        assert s[..|s|] == s;
      } else {
        StartHasCount(p, k);
        assert p[..e] == s[..e];
      }
    }
  }

  /** The first k lines, and the last k lines, are k lines, if the file has as many. */
  lemma FirstAreKLines(s: seq<char>, k: nat)
    ensures LineCount(FirstLines(s, k)) == if k < LineCount(s) then k else LineCount(s)
  {
    if k <= Newlines(s) {
      StartHasCount(s, k);
      var e := LineStart(s, k);
      if k == 0 {
        StartOfFile(s, k);
      }
      assert !Unterminated(s[..e]);
    } else {
      StartBeyond(s, k);
      assert s[..|s|] == s;
    }
  }

  lemma LastAreKLines(s: seq<char>, k: nat)
    ensures LineCount(LastLines(s, k)) == if k < LineCount(s) then k else LineCount(s)
  {
    hide Newlines, LineStart;
    var m := LineCount(s) - k;
    var e := LineStart(s, m);
    if m <= 0 {
      StartOfFile(s, m);
      assert s[0..] == s;
    } else if m <= Newlines(s) {
      StartHasCount(s, m);
      CountParts(s, e, |s|);
      assert s[..|s|] == s && s[e..|s|] == s[e..];
      assert e < |s| ==> Unterminated(s[e..]) == Unterminated(s);
    } else {
      StartBeyond(s, m);
      CountParts(s, |s|, |s|);
    }
  }
}
