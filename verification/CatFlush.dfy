/** cat's flushes on plain values: what strncpy does to the part a flush moves,
    and which parts of the output those are. */
module CatFlush {
  import opened LineNumber
  import opened CatText

  const NUL := '\0'

  // Equal but for bytes that have become NUL.
  ghost predicate Blurred(a: seq<char>, s: seq<char>) {
    |a| == |s| && forall i :: 0 <= i < |a| ==> a[i] == s[i] || a[i] == NUL
  }

  // strncpy copies a block unchanged: nothing but NULs follows a NUL.
  ghost predicate Copies(s: seq<char>) {
    forall i, j :: 0 <= i < j < |s| && s[i] == NUL ==> s[j] == NUL
  }

  function Strncpied(s: seq<char>): (r: seq<char>)
    ensures |r| == |s|
  {
    if s == [] then []
    else if s[0] == NUL then seq(|s|, _ => NUL)
    else [s[0]] + Strncpied(s[1..])
  }

  lemma {:induction false} StrncpyIs(s: seq<char>, n: nat, r: seq<char>)
    requires n <= |s| == |r| && NUL !in s[..n] && (n < |s| ==> s[n] == NUL) && r[..n] == s[..n]
    requires forall j :: n <= j < |r| ==> r[j] == NUL
    ensures r == Strncpied(s)
  {
    if n > 0 {
      assert s[0] == s[..n][0] && r[0] == r[..n][0];
      assert s[1..][..n - 1] == s[..n][1..] && r[1..][..n - 1] == r[..n][1..];
      StrncpyIs(s[1..], n - 1, r[1..]);
    }
  }

  lemma {:induction false} StrncpyCopiesIff(s: seq<char>)
    ensures Blurred(Strncpied(s), s)
    ensures Strncpied(s) == s <==> Copies(s)
  {
    if s != [] && s[0] != NUL {
      StrncpyCopiesIff(s[1..]);
      assert Copies(s) <==> Copies(s[1..]) by {
        assert forall i :: 0 <= i < |s| - 1 ==> s[i + 1] == s[1..][i];
        if Copies(s) {
          forall i, j | 0 <= i < j < |s| - 1 && s[1..][i] == NUL ensures s[1..][j] == NUL {
            assert s[i + 1] == NUL;
          }
        }
        if Copies(s[1..]) {
          forall i, j | 0 <= i < j < |s| && s[i] == NUL ensures s[j] == NUL {
            assert s[1..][i - 1] == NUL && s[1..][j - 1] == s[j];
          }
        }
      }
    } else if s != [] {
      assert Copies(s) ==> forall j :: 0 < j < |s| ==> s[j] == NUL;
    }
  }

  lemma TextCopies(s: seq<char>)
    requires NUL !in s
    ensures Copies(s)
  {}

  function Flushed(moves: bool, w: seq<char>, pending: seq<char>, outsize: int, at: int): seq<char>
    requires 0 <= at <= |pending|
  {
    if |pending| < outsize || moves then w + pending
    else w + pending[..|pending| - at] + Strncpied(pending[|pending| - at..])
  }

  /** A flush with strncpy loses nothing exactly when strncpy copies the part it moves. */
  lemma FlushKeepsIff(moves: bool, w: seq<char>, pending: seq<char>, outsize: int, at: int)
    requires 0 <= at <= |pending|
    ensures Blurred(Flushed(moves, w, pending, outsize, at), w + pending)
    ensures Flushed(moves, w, pending, outsize, at) == w + pending <==>
      |pending| < outsize || moves || Copies(pending[|pending| - at..])
  {
    hide Strncpied;
    var front, rest := pending[..|pending| - at], pending[|pending| - at..];
    StrncpyCopiesIff(rest);
    assert w + pending == w + front + rest;
    assert w + front + Strncpied(rest) == w + front + rest <==> Strncpied(rest) == rest by {
      assert (w + front + Strncpied(rest))[|w + front|..] == Strncpied(rest);
      assert (w + front + rest)[|w + front|..] == rest;
    }
  }

  // The stretch of the output, by position, that a flush moves to the front.
  datatype Cut = Cut(lo: nat, hi: nat)

  ghost predicate CutCopies(goal: seq<char>, c: Cut) {
    c.lo <= c.hi <= |goal| && Copies(goal[c.lo..c.hi])
  }

  ghost predicate AllCopy(goal: seq<char>, cuts: seq<Cut>) {
    forall k :: 0 <= k < |cuts| ==> CutCopies(goal, cuts[k])
  }

  ghost predicate InRange(cuts: seq<Cut>, n: nat) {
    forall k :: 0 <= k < |cuts| ==> cuts[k].lo <= cuts[k].hi <= n
  }

  // The text up to the next newline.
  function TextEnd(s: seq<char>): (n: nat)
    ensures n <= |s| && '\n' !in s[..n] && (n < |s| ==> s[n] == '\n')
  {
    if s == [] || s[0] == '\n' then 0
    else
      var n := TextEnd(s[1..]);
      assert s[..n + 1] == [s[0]] + s[1..][..n];
      n + 1
  }

  // The bytes of p that whole blocks leave over.
  function LeftOver(p: nat, outsize: nat): (k: nat)
    requires outsize > 0
    ensures k <= p && k < outsize && (p < outsize ==> k == p)
  {
    if p < outsize then p else LeftOver(p - outsize, outsize)
  }

  /** The cuts of a run from the head of the do loop on: buf is the rest of the
      input buffer, empty or at a newline, p bytes are pending and n are out or pending. */
  function Cuts(o: Options, outsize: nat, st: State, buf: seq<char>, chunks: seq<seq<char>>, p: nat, n: nat): seq<Cut>
    requires outsize > 0 && st.Valid() && p <= n
    decreases |chunks|, |buf|, 0
  {
    var q := LeftOver(p, outsize);
    (if p < outsize then [] else [Cut(n - q, n)])
    + if buf != [] then
        var e := |Emit(o, st, '\n')|;
        CutsOn(o, outsize, Step(o, st, '\n'), buf[1..], chunks, q + e, n + e)
      else if chunks != [] then CutsOn(o, outsize, st, chunks[0], chunks[1..], 0, n)
      else []
  }

  // The same from the next character on, which may begin a line of text.
  function CutsOn(o: Options, outsize: nat, st: State, buf: seq<char>, chunks: seq<seq<char>>, p: nat, n: nat): seq<Cut>
    requires outsize > 0 && st.Valid() && p <= n
    decreases |chunks|, |buf|, 1
  {
    var k := TextEnd(buf);
    if k == 0 then Cuts(o, outsize, st, buf, chunks, p, n)
    else
      var on := st.newlines >= 0 && o.number;
      var e := |Number(on, st.line)| + |ShownAll(o, buf[..k])|;
      Cuts(o, outsize, State(-1, if on then st.line + 1 else st.line), buf[k..], chunks, p + e, n + e)
  }

  // The cuts from the character at bpin - 1 of the buffer on.
  function CutsLeft(o: Options, outsize: nat, st: State, buf: seq<char>, bpin: nat, chunks: seq<seq<char>>, next: nat,
                    p: nat, n: nat): seq<Cut>
    requires outsize > 0 && st.Valid() && p <= n && 1 <= bpin <= |buf| + 1 && next <= |chunks|
  {
    CutsOn(o, outsize, st, buf[bpin - 1..], chunks[next..], p, n)
  }

  function CutNow(p: nat, n: nat, outsize: nat): seq<Cut>
    requires outsize > 0 && p <= n
  {
    if p < outsize then [] else [Cut(n - LeftOver(p, outsize), n)]
  }

  lemma CutsAtNewline(o: Options, outsize: nat, st: State, buf: seq<char>, bpin: nat, chunks: seq<seq<char>>, next: nat,
                      p: nat, n: nat)
    requires outsize > 0 && st.Valid() && p <= n && 1 <= bpin <= |buf| && next <= |chunks| && buf[bpin - 1] == '\n'
    ensures var e := |Emit(o, st, '\n')|;
      CutsLeft(o, outsize, st, buf, bpin, chunks, next, p, n)
      == CutNow(p, n, outsize)
         + CutsLeft(o, outsize, Step(o, st, '\n'), buf, bpin + 1, chunks, next, LeftOver(p, outsize) + e, n + e)
  {
    hide Emit, LeftOver;
    var rest := buf[bpin - 1..];
    assert rest[1..] == buf[bpin..];
    assert TextEnd(rest) == 0;
    assert CutsOn(o, outsize, st, rest, chunks[next..], p, n) == Cuts(o, outsize, st, rest, chunks[next..], p, n);
  }

  lemma CutsAtRefill(o: Options, outsize: nat, st: State, buf: seq<char>, bpin: nat, chunks: seq<seq<char>>, next: nat,
                     p: nat, n: nat)
    requires outsize > 0 && st.Valid() && p <= n && bpin == |buf| + 1 && next <= |chunks|
    ensures CutsLeft(o, outsize, st, buf, bpin, chunks, next, p, n)
      == CutNow(p, n, outsize)
         + if next < |chunks| then CutsLeft(o, outsize, st, chunks[next], 1, chunks, next + 1, 0, n) else []
  {
    hide LeftOver;
    assert buf[bpin - 1..] == [];
    assert CutsOn(o, outsize, st, [], chunks[next..], p, n) == Cuts(o, outsize, st, [], chunks[next..], p, n);
    if next < |chunks| {
      assert chunks[next..][1..] == chunks[next + 1..] && chunks[next][0..] == chunks[next];
    }
  }

  lemma CutsAtText(o: Options, outsize: nat, st: State, buf: seq<char>, start: nat, bpin: nat, chunks: seq<seq<char>>,
                   next: nat, p: nat, n: nat)
    requires outsize > 0 && st.Valid() && p <= n && 1 <= start < bpin <= |buf| + 1 && next <= |chunks|
    requires '\n' !in buf[start - 1..bpin - 1] && (bpin <= |buf| ==> buf[bpin - 1] == '\n')
    ensures var on := st.newlines >= 0 && o.number;
      var e := |Number(on, st.line)| + |ShownAll(o, buf[start - 1..bpin - 1])|;
      CutsLeft(o, outsize, st, buf, start, chunks, next, p, n)
      == CutsLeft(o, outsize, State(-1, if on then st.line + 1 else st.line), buf, bpin, chunks, next, p + e, n + e)
  {
    hide Number, ShownAll, LeftOver;
    var rest, k := buf[start - 1..], bpin - start;
    assert rest[..k] == buf[start - 1..bpin - 1] && rest[k..] == buf[bpin - 1..];
    TextEndIs(rest, k);
  }

  lemma {:induction false} TextEndIs(s: seq<char>, n: nat)
    requires n <= |s| && '\n' !in s[..n] && (n < |s| ==> s[n] == '\n')
    ensures TextEnd(s) == n
  {
    if n > 0 {
      assert s[0] == s[..n][0] && s[1..][..n - 1] == s[..n][1..];
      TextEndIs(s[1..], n - 1);
    }
  }

  // What came out against what should have: alike exactly if every cut so far copies.
  ghost predicate Written(moves: bool, got: seq<char>, goal: seq<char>, cuts: seq<Cut>) {
    Blurred(got, goal) && InRange(cuts, |goal|) && (got == goal <==> moves || AllCopy(goal, cuts))
  }

  lemma NoCuts(moves: bool)
    ensures Written(moves, [], [], [])
  {}

  lemma TextIsCopied(goal: seq<char>, cuts: seq<Cut>)
    requires NUL !in goal && InRange(cuts, |goal|)
    ensures AllCopy(goal, cuts)
  {
    forall k | 0 <= k < |cuts| ensures CutCopies(goal, cuts[k]) {
      TextCopies(goal[cuts[k].lo..cuts[k].hi]);
    }
  }

  // The cuts after a flush of pending, of which the last at bytes are moved.
  function CutMade(cuts: seq<Cut>, n: nat, pending: nat, outsize: nat, at: nat): seq<Cut>
    requires at <= n
  {
    if pending < outsize then cuts else cuts + [Cut(n - at, n)]
  }

  lemma WrittenFlush(moves: bool, w: seq<char>, pending: seq<char>, outsize: nat,
                     at: nat, goal: seq<char>, cuts: seq<Cut>)
    requires at <= |pending| && Written(moves, w + pending, goal, cuts)
    ensures |goal| == |w| + |pending|
    ensures Written(moves, Flushed(moves, w, pending, outsize, at), goal, CutMade(cuts, |goal|, |pending|, outsize, at))
  {
    hide Flushed, Copies, InRange;
    FlushKeepsIff(moves, w, pending, outsize, at);
    var got, got', n := w + pending, Flushed(moves, w, pending, outsize, at), |goal|;
    CutInRange(cuts, n, |pending|, outsize, at);
    if |pending| >= outsize {
      MoreCopy(goal, cuts, Cut(n - at, n));
      if got == goal {
        assert goal[n - at..n] == pending[|pending| - at..];
      } else {
        StaysDamaged(got, got', goal);
      }
    }
  }

  lemma CutInRange(cuts: seq<Cut>, n: nat, pending: nat, outsize: nat, at: nat)
    requires at <= n && InRange(cuts, n)
    ensures InRange(CutMade(cuts, n, pending, outsize, at), n)
  {}

  lemma MoreCopy(goal: seq<char>, cuts: seq<Cut>, c: Cut)
    ensures AllCopy(goal, cuts + [c]) <==> AllCopy(goal, cuts) && CutCopies(goal, c)
  {
    hide CutCopies;
    assert (cuts + [c])[|cuts|] == c;
    assert forall k :: 0 <= k < |cuts| ==> (cuts + [c])[k] == cuts[k];
  }

  // A byte that has become NUL stays NUL.
  lemma StaysDamaged(got: seq<char>, got': seq<char>, goal: seq<char>)
    requires Blurred(got, goal) && Blurred(got', got) && got != goal
    ensures Blurred(got', goal) && got' != goal
  {
    var p :| 0 <= p < |got| && got[p] != goal[p];
    assert got'[p] == NUL;
  }

  lemma WrittenMore(moves: bool, got: seq<char>, goal: seq<char>, cuts: seq<Cut>, x: seq<char>)
    requires Written(moves, got, goal, cuts)
    ensures Written(moves, got + x, goal + x, cuts)
  {
    hide Copies;
    assert got + x == goal + x <==> got == goal by {
      assert (got + x)[..|got|] == got && (goal + x)[..|goal|] == goal;
    }
    forall k | 0 <= k < |cuts| ensures CutCopies(goal + x, cuts[k]) <==> CutCopies(goal, cuts[k]) {
      assert (goal + x)[cuts[k].lo..cuts[k].hi] == goal[cuts[k].lo..cuts[k].hi];
    }
  }
}
