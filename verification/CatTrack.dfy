/** How far a run of cat has got: what is out, what is still to come, and where flushes have cut the output. */
module CatTrack {
  import opened LineNumber
  import opened CatText
  import opened CatFlush

  function Concat(chunks: seq<seq<char>>): seq<char> {
    if chunks == [] then [] else chunks[0] + Concat(chunks[1..])
  }

  // The input still to come: what is in the buffer from the character last looked at on, and the chunks not yet read.
  function Todo(buf: seq<char>, bpin: int, chunks: seq<seq<char>>, next: int): seq<char>
    requires 1 <= bpin <= |buf| + 1 && 0 <= next <= |chunks|
  {
    buf[bpin - 1..] + Concat(chunks[next..])
  }

  lemma TodoAll(chunks: seq<seq<char>>)
    ensures Todo([], 1, chunks, 0) == Concat(chunks)
  {
    assert chunks[0..] == chunks;
  }

  lemma TodoNone(buf: seq<char>, bpin: int, chunks: seq<seq<char>>, next: int)
    requires bpin == |buf| + 1 && next == |chunks|
    ensures Todo(buf, bpin, chunks, next) == []
  {}

  lemma TodoChunk(buf: seq<char>, bpin: int, chunks: seq<seq<char>>, next: int)
    requires bpin == |buf| + 1 && 0 <= next < |chunks|
    ensures Todo(buf, bpin, chunks, next) == Todo(chunks[next], 1, chunks, next + 1)
  {
    assert chunks[next..][1..] == chunks[next + 1..];
  }

  lemma TodoNewline(buf: seq<char>, bpin: int, chunks: seq<seq<char>>, next: int)
    requires 1 <= bpin <= |buf| && 0 <= next <= |chunks|
    ensures var left := Todo(buf, bpin, chunks, next);
      left != [] && left[0] == buf[bpin - 1] && left[1..] == Todo(buf, bpin + 1, chunks, next)
  {}

  lemma TodoLine(buf: seq<char>, start: int, bpin: int, chunks: seq<seq<char>>, next: int)
    requires 1 <= start <= bpin <= |buf| + 1 && 0 <= next <= |chunks|
    ensures Todo(buf, start, chunks, next) == buf[start - 1..bpin - 1] + Todo(buf, bpin, chunks, next)
  {}

  // What one run of cat is to come to: the whole output, the state at the end and all the cuts.
  datatype Goal = Goal(o: Options, moves: bool, outsize: nat, out: seq<char>, end: State, cuts: seq<Cut>)

  // got is out so far, after these cuts, and left is still to come.
  ghost predicate OnTrack(g: Goal, got: seq<char>, cuts: seq<Cut>, st: State, left: seq<char>) {
    && st.Valid() && |got| <= |g.out| && Written(g.moves, got, g.out[..|got|], cuts)
    && g.out[|got|..] == Output(g.o, st, left) && g.end == After(g.o, st, left)
  }

  lemma TrackValid(g: Goal, got: seq<char>, cuts: seq<Cut>, st: State, left: seq<char>)
    requires OnTrack(g, got, cuts, st, left)
    ensures st.Valid()
  {}

  lemma TrackEnds(g: Goal, got: seq<char>, cuts: seq<Cut>, st: State)
    requires OnTrack(g, got, cuts, st, [])
    ensures Written(g.moves, got, g.out, cuts) && g.end == st
  {
    assert g.out[..|got|] == g.out;
  }

  lemma TrackFlush(g: Goal, w: seq<char>, pending: seq<char>, at: nat, cuts: seq<Cut>, st: State, left: seq<char>)
    requires at <= |pending| && OnTrack(g, w + pending, cuts, st, left)
    ensures OnTrack(g, Flushed(g.moves, w, pending, g.outsize, at),
                    CutMade(cuts, |w| + |pending|, |pending|, g.outsize, at),
                    st, left)
  {
    hide Output, After, Flushed, AllCopy, InRange;
    WrittenFlush(g.moves, w, pending, g.outsize, at, g.out[..|w| + |pending|], cuts);
    FlushKeepsIff(g.moves, w, pending, g.outsize, at);
  }

  // More output of what is still to come.
  lemma MoreOut(moves: bool, got: seq<char>, out: seq<char>, cuts: seq<Cut>, x: seq<char>, rest: seq<char>)
    requires |got| <= |out| && Written(moves, got, out[..|got|], cuts) && out[|got|..] == x + rest
    ensures |got + x| <= |out| && Written(moves, got + x, out[..|got + x|], cuts) && out[|got + x|..] == rest
  {
    hide Written;
    assert out == out[..|got|] + out[|got|..];
    assert out[..|got + x|] == out[..|got|] + x;
    WrittenMore(moves, got, out[..|got|], cuts, x);
  }

  lemma TrackNewline(g: Goal, got: seq<char>, cuts: seq<Cut>, st: State, left: seq<char>)
    requires OnTrack(g, got, cuts, st, left) && left != [] && left[0] == '\n'
    ensures st.Valid() && OnTrack(g, got + Emit(g.o, st, '\n'), cuts, Step(g.o, st, '\n'), left[1..])
  {
    hide Emit, Step, Written;
    MoreOut(g.moves, got, g.out, cuts, Emit(g.o, st, '\n'), Output(g.o, Step(g.o, st, '\n'), left[1..]));
  }

  lemma TrackLine(g: Goal, got: seq<char>, cuts: seq<Cut>, st: State, body: seq<char>, r: seq<char>, got': seq<char>)
    requires OnTrack(g, got, cuts, st, body + r) && body != [] && '\n' !in body
    requires got' == got + Number(st.newlines >= 0 && g.o.number, st.line) + ShownAll(g.o, body)
    ensures OnTrack(g, got', cuts, State(-1, if st.newlines >= 0 && g.o.number then st.line + 1 else st.line), r)
  {
    hide Number, ShownAll, Output, After, Written;
    NumberFirst(g.o, st, body + r);
    var on := st.newlines >= 0 && g.o.number;
    var line := if on then st.line + 1 else st.line;
    InsideALine(g.o, line, body, r);
    StaysInside(g.o, line, body, r);
    var x := Number(on, st.line) + ShownAll(g.o, body);
    assert got' == got + x;
    MoreOut(g.moves, got, g.out, cuts, x, Output(g.o, State(-1, line), r));
  }

  lemma CutsAll(o: Options, outsize: nat, st: State, chunks: seq<seq<char>>, n: nat)
    requires outsize > 0 && st.Valid()
    ensures Cuts(o, outsize, st, [], chunks, 0, n) == CutsLeft(o, outsize, st, [], 1, chunks, 0, 0, n)
  {
    assert chunks[0..] == chunks;
  }

  lemma MakeCut(cuts: seq<Cut>, p: nat, n: nat, outsize: nat, rest: seq<Cut>)
    requires outsize > 0 && p <= n
    ensures cuts + (CutNow(p, n, outsize) + rest) == CutMade(cuts, n, p, outsize, LeftOver(p, outsize)) + rest
  {
    hide LeftOver;
    assert cuts + (CutNow(p, n, outsize) + rest) == cuts + CutNow(p, n, outsize) + rest;
    assert p < outsize ==> cuts + CutNow(p, n, outsize) == cuts;
  }

  /** A run on its way: got is out or pending, of it p bytes pending, and the
      cuts so far and those still to come are all. */
  ghost predicate OnCourse(g: Goal, got: seq<char>, p: nat, cuts: seq<Cut>, st: State, buf: seq<char>, bpin: int,
                           chunks: seq<seq<char>>, next: int)
    requires 1 <= bpin <= |buf| + 1 && 0 <= next <= |chunks|
  {
    && g.outsize > 0 && p <= |got| && OnTrack(g, got, cuts, st, Todo(buf, bpin, chunks, next))
    && g.cuts == cuts + CutsLeft(g.o, g.outsize, st, buf, bpin, chunks, next, p, |got|)
  }

  lemma CourseStarts(g: Goal, got: seq<char>, goal: seq<char>, cuts: seq<Cut>, st: State, chunks: seq<seq<char>>)
    requires g.outsize > 0 && st.Valid() && Written(g.moves, got, goal, cuts)
    requires g.out == goal + Output(g.o, st, Concat(chunks)) && g.end == After(g.o, st, Concat(chunks))
    requires g.cuts == cuts + Cuts(g.o, g.outsize, st, [], chunks, 0, |goal|)
    ensures OnCourse(g, got, 0, cuts, st, [], 1, chunks, 0)
  {
    hide Output, After, AllCopy, InRange, Cuts, CutsOn, CutsLeft, Todo;
    TodoAll(chunks);
    CutsAll(g.o, g.outsize, st, chunks, |goal|);
    assert g.out[..|got|] == goal;
  }

  lemma {:induction false} CourseNewline(g: Goal, w: seq<char>, pending: seq<char>, cuts: seq<Cut>, st: State,
                                         buf: seq<char>, bpin: int, chunks: seq<seq<char>>, next: int)
    requires 1 <= bpin <= |buf| && 0 <= next <= |chunks| && buf[bpin - 1] == '\n'
    requires OnCourse(g, w + pending, |pending|, cuts, st, buf, bpin, chunks, next)
    ensures st.Valid() && g.outsize > 0
    ensures var at, x := LeftOver(|pending|, g.outsize), Emit(g.o, st, '\n');
      OnCourse(g, Flushed(g.moves, w, pending, g.outsize, at) + x, at + |x|,
               CutMade(cuts, |w| + |pending|, |pending|, g.outsize, at),
               Step(g.o, st, '\n'), buf, bpin + 1, chunks, next)
  {
    hide Output, After, Written, Cuts, CutsOn, CutsLeft, CutNow, CutMade, OnTrack, Todo, Emit, Step, LeftOver, Flushed;
    var at, n, left := LeftOver(|pending|, g.outsize), |w| + |pending|, Todo(buf, bpin, chunks, next);
    TrackValid(g, w + pending, cuts, st, left);
    FlushedLength(g.moves, w, pending, g.outsize, at);
    TrackFlush(g, w, pending, at, cuts, st, left);
    TodoNewline(buf, bpin, chunks, next);
    TrackNewline(g, Flushed(g.moves, w, pending, g.outsize, at), CutMade(cuts, n, |pending|, g.outsize, at), st, left);
    CutsAtNewline(g.o, g.outsize, st, buf, bpin, chunks, next, |pending|, n);
    var e := |Emit(g.o, st, '\n')|;
    MakeCut(cuts, |pending|, n, g.outsize,
            CutsLeft(g.o, g.outsize, Step(g.o, st, '\n'), buf, bpin + 1, chunks, next, at + e, n + e));
  }

  lemma {:induction false} CourseRefill(g: Goal, w: seq<char>, pending: seq<char>, cuts: seq<Cut>, st: State,
                                        buf: seq<char>, bpin: int, chunks: seq<seq<char>>, next: int)
    requires bpin == |buf| + 1 && 0 <= next <= |chunks|
    requires OnCourse(g, w + pending, |pending|, cuts, st, buf, bpin, chunks, next)
    ensures g.outsize > 0
    ensures var at := LeftOver(|pending|, g.outsize);
      var got, cuts' := Flushed(g.moves, w, pending, g.outsize, at),
        CutMade(cuts, |w| + |pending|, |pending|, g.outsize, at);
      if next < |chunks| then OnCourse(g, got, 0, cuts', st, chunks[next], 1, chunks, next + 1)
      else Written(g.moves, got, g.out, g.cuts) && g.end == st
  {
    hide Output, After, Written, Cuts, CutsOn, CutsLeft, CutNow, CutMade, OnTrack, Todo, LeftOver, Flushed;
    var at, n, left := LeftOver(|pending|, g.outsize), |w| + |pending|, Todo(buf, bpin, chunks, next);
    var got, cuts' := Flushed(g.moves, w, pending, g.outsize, at), CutMade(cuts, n, |pending|, g.outsize, at);
    TrackValid(g, w + pending, cuts, st, left);
    FlushedLength(g.moves, w, pending, g.outsize, at);
    TrackFlush(g, w, pending, at, cuts, st, left);
    CutsAtRefill(g.o, g.outsize, st, buf, bpin, chunks, next, |pending|, n);
    MakeCut(cuts, |pending|, n, g.outsize,
            if next < |chunks| then CutsLeft(g.o, g.outsize, st, chunks[next], 1, chunks, next + 1, 0, n) else []);
    if next < |chunks| {
      TodoChunk(buf, bpin, chunks, next);
    } else {
      TodoNone(buf, bpin, chunks, next);
      TrackEnds(g, got, cuts', st);
      assert cuts' + [] == cuts';
    }
  }

  lemma CourseLine(g: Goal, got: seq<char>, p: nat, cuts: seq<Cut>, st: State, buf: seq<char>, start: int, bpin: int,
                   chunks: seq<seq<char>>, next: int, got': seq<char>)
    requires 1 <= start < bpin <= |buf| + 1 && 0 <= next <= |chunks|
    requires '\n' !in buf[start - 1..bpin - 1] && (bpin <= |buf| ==> buf[bpin - 1] == '\n')
    requires OnCourse(g, got, p, cuts, st, buf, start, chunks, next)
    requires got' == got + Number(st.newlines >= 0 && g.o.number, st.line) + ShownAll(g.o, buf[start - 1..bpin - 1])
    ensures OnCourse(g, got', p + |got'| - |got|, cuts,
                     State(-1, if st.newlines >= 0 && g.o.number then st.line + 1 else st.line),
                     buf, bpin, chunks, next)
  {
    hide Output, After, Written, Cuts, CutsOn, CutsLeft, OnTrack, Todo, Number, ShownAll;
    TrackValid(g, got, cuts, st, Todo(buf, start, chunks, next));
    TodoLine(buf, start, bpin, chunks, next);
    TrackLine(g, got, cuts, st, buf[start - 1..bpin - 1], Todo(buf, bpin, chunks, next), got');
    CutsAtText(g.o, g.outsize, st, buf, start, bpin, chunks, next, p, |got|);
  }

  lemma FlushedLength(moves: bool, w: seq<char>, pending: seq<char>, outsize: nat, at: nat)
    requires at <= |pending|
    ensures |Flushed(moves, w, pending, outsize, at)| == |w| + |pending|
  {}
}
