/** cat: one pass over block buffers with a newline sentinel behind the input. */
module Cat {
  import opened LineNumber
  import opened CatText
  import opened CatFlush
  import opened CatTrack

  const LINE_COUNTER_BUF_LEN := 20

  // One cat process: what survives from one file to the next, and what it has written.
  class Process {
    const o: Options
    const moves: bool  // a flush moves the bytes left over, as meant; if not, it uses strncpy, as written
    const counter: LineCounter
    var newlines2: int
    var written: seq<char>

    ghost predicate Valid()
      reads this, counter, counter.lineBuf
    {
      counter.Valid() && -1 <= newlines2 <= 2
    }

    ghost function Now(): (st: State)
      reads this, counter
      requires -1 <= newlines2 <= 2
      ensures st.Valid()
    {
      State(newlines2, counter.count)
    }

    constructor (o: Options, moves: bool)
      ensures Valid() && newlines2 == 0 && written == [] && counter.count == 0 && this.o == o && this.moves == moves
      ensures fresh(counter) && fresh(counter.lineBuf)
    {
      this.o, this.moves := o, moves;
      counter := new LineCounter();
      newlines2, written := 0, [];
    }

    // What has gone out and what is pending.
    ghost function Gone(outbuf: array<char>, n: int): (s: seq<char>)
      requires 0 <= n <= outbuf.Length
      reads this, outbuf
      ensures |s| == |written| + n
    {
      written + outbuf[..n]
    }

    // strncpy (outbuf, outbuf + wout, rem).
    method Strncpy(outbuf: array<char>, wout: int, rem: int)
      requires 0 <= rem <= wout && wout + rem <= outbuf.Length
      modifies outbuf
      ensures outbuf[..rem] == Strncpied(old(outbuf[wout..wout + rem]))
    {
      hide Strncpied;
      var i := 0;
      ghost var s := outbuf[wout..wout + rem];
      while i < rem && outbuf[wout + i] != NUL
        invariant 0 <= i <= rem && outbuf[..i] == s[..i] && outbuf[wout..wout + rem] == s && NUL !in s[..i]
      {
        assert s[i] == outbuf[wout + i];
        outbuf[i] := outbuf[wout + i];
        i := i + 1;
      }
      ghost var n := i;
      assert n < rem ==> s[n] == outbuf[wout + n];
      while i < rem
        invariant n <= i <= rem && outbuf[..n] == s[..n] && forall j :: n <= j < i ==> outbuf[j] == NUL
      {
        outbuf[i] := NUL;
        i := i + 1;
      }
      StrncpyIs(s, n, outbuf[..rem]);
    }

    // memmove (outbuf, outbuf + wout, rem).
    method Move(outbuf: array<char>, wout: int, rem: int)
      requires 0 <= rem <= wout && wout + rem <= outbuf.Length
      modifies outbuf
      ensures outbuf[..rem] == old(outbuf[wout..wout + rem])
    {
      for i := 0 to rem
        invariant outbuf[..i] == old(outbuf[wout..wout + i])
          && outbuf[wout..wout + rem] == old(outbuf[wout..wout + rem])
      {
        assert outbuf[wout + i] == outbuf[wout..wout + rem][i];
        outbuf[i] := outbuf[wout + i];
      }
    }

    // do { write (wout, outsize) } while (rem >= outsize).
    method WriteBlocks(outbuf: array<char>, outsize: int, bpout: int) returns (wout: int, rem: int)
      requires 0 < outsize <= bpout <= outbuf.Length
      modifies this`written
      ensures rem == LeftOver(bpout, outsize) && outsize <= wout && wout + rem == bpout
      ensures written == old(written) + outbuf[..wout]
    {
      wout, rem := 0, bpout;
      while rem >= outsize
        invariant 0 <= wout && 0 <= rem && wout + rem == bpout && (wout == 0 || wout >= outsize)
        invariant LeftOver(rem, outsize) == LeftOver(bpout, outsize)
        invariant written == old(written) + outbuf[..wout]
      {
        Block(old(written), outbuf, wout, outsize);
        written := written + outbuf[wout..wout + outsize];
        wout := wout + outsize;
        rem := rem - outsize;
      }
    }

    /** The flush at the head of the loop: whole blocks go out and the rest moves to the front. */
    method Flush(outbuf: array<char>, outsize: int, bpout: int) returns (at: int)
      requires 0 < outsize && 0 <= bpout <= outbuf.Length
      modifies this`written, outbuf
      ensures at == LeftOver(bpout, outsize)
      ensures Gone(outbuf, at) == Flushed(moves, old(written), old(outbuf[..bpout]), outsize, at)
    {
      hide Strncpied;
      if bpout < outsize {
        return bpout;
      }
      var wout, rem := WriteBlocks(outbuf, outsize, bpout);
      Slices(outbuf, wout, bpout);
      if moves {
        Move(outbuf, wout, rem);
      } else {
        Strncpy(outbuf, wout, rem);
      }
      return rem;
    }

    method WritePending(outbuf: array<char>, bpout: int)
      requires 0 <= bpout <= outbuf.Length
      modifies this`written
      ensures written == old(Gone(outbuf, bpout)) && Gone(outbuf, 0) == written
    {
      written := written + outbuf[..bpout];
    }

    // next_line_num (), bpout = stpcpy (bpout, line_num_print).
    method PutNumber(outbuf: array<char>, bpout: int) returns (at: int)
      requires counter.Valid() && outbuf != counter.lineBuf
        && 0 <= bpout && bpout + LINE_COUNTER_BUF_LEN <= outbuf.Length
      modifies outbuf, counter, counter.lineBuf
      ensures counter.Valid() && counter.count == old(counter.count) + 1 && bpout <= at < bpout + LINE_COUNTER_BUF_LEN
      ensures outbuf[..at] == old(outbuf[..bpout]) + NumberText(counter.count)
    {
      hide NumberText, Shows;
      counter.NextLineNum();
      counter.Printed();
      ghost var text := NumberText(counter.count);
      var i, p := 0, counter.lineNumPrint;
      while counter.lineBuf[p + i] != NUL
        modifies outbuf
        invariant 0 <= i <= |text| && outbuf[..bpout + i] == old(outbuf[..bpout]) + text[..i]
        decreases |text| - i
      {
        assert text[i] == counter.lineBuf[p + i];
        outbuf[bpout + i] := counter.lineBuf[p + i];
        i := i + 1;
      }
      outbuf[bpout + i] := NUL;
      return bpout + i;
    }

    // What becomes of a newline of the input.
    method PutNewline(outbuf: array<char>, bpout: int, newlines: int) returns (at: int, newlines': int)
      requires counter.Valid() && outbuf != counter.lineBuf && -1 <= newlines <= 2
      requires 0 <= bpout && bpout + LINE_COUNTER_BUF_LEN + 1 <= outbuf.Length
      modifies outbuf, counter, counter.lineBuf
      ensures counter.Valid() && 0 <= at <= bpout + LINE_COUNTER_BUF_LEN + 1
      ensures State(newlines', counter.count) == Step(o, State(newlines, old(counter.count)), '\n')
      ensures Gone(outbuf, at) == old(Gone(outbuf, bpout)) + Emit(o, State(newlines, old(counter.count)), '\n')
    {
      hide NumberText, Gone, End, Number, Shows;
      NoNumber(counter.count, Gone(outbuf, bpout));
      at, newlines' := bpout, newlines + 1;
      if newlines' > 0 {
        if newlines' >= 2 {
          newlines' := 2;
          if o.squeeze {
            return;
          }
        }
        if o.number && !o.nonblank {
          at := PutLineNumber(outbuf, at, 0);
        }
      }
      at := PutEnd(outbuf, at);
    }

    // *bpout++ = c.
    method Put(outbuf: array<char>, bpout: int, c: char) returns (at: int)
      requires 0 <= bpout < outbuf.Length
      modifies outbuf
      ensures at == bpout + 1 && Gone(outbuf, at) == old(Gone(outbuf, bpout)) + [c]
    {
      outbuf[bpout] := c;
      return bpout + 1;
    }

    method PutEnd(outbuf: array<char>, bpout: int) returns (at: int)
      requires 0 <= bpout && bpout + 2 <= outbuf.Length
      modifies outbuf
      ensures bpout <= at <= bpout + 2 && Gone(outbuf, at) == old(Gone(outbuf, bpout)) + End(o)
    {
      hide Gone;
      at := bpout;
      if o.ends {
        at := Put(outbuf, at, '$');
      }
      at := Put(outbuf, at, '\n');
    }

    // One character of a line: a tab can come out as ^I.
    method PutShown(outbuf: array<char>, bpout: int, ch: char) returns (at: int)
      requires 0 <= bpout && bpout + 2 <= outbuf.Length
      modifies outbuf
      ensures bpout <= at <= bpout + 2 && Gone(outbuf, at) == old(Gone(outbuf, bpout)) + Shown(o, ch)
    {
      hide Gone;
      if ch == '\t' && o.tabs {
        at := Put(outbuf, bpout, '^');
        at := Put(outbuf, at, (ch as int + 64) as char);
      } else {
        at := Put(outbuf, bpout, ch);
      }
    }

    // The inner loop: the characters of a line, up to a newline of the input or the sentinel.
    method PutText(inbuf: array<char>, ghost buf: seq<char>, eob: int, outbuf: array<char>, start: int, bpout: int)
      returns (bpin: int, at: int)
      requires outbuf != inbuf && 0 <= eob < inbuf.Length && inbuf[..eob] == buf && inbuf[eob] == '\n'
      requires 1 <= start <= eob && buf[start - 1] != '\n'
      requires 0 <= bpout && bpout + 2 * (eob - start + 1) <= outbuf.Length
      modifies outbuf
      ensures start < bpin <= eob + 1 && (bpin <= eob ==> buf[bpin - 1] == '\n')
      ensures '\n' !in buf[start - 1..bpin - 1] && 0 <= at <= outbuf.Length
      ensures Gone(outbuf, at) == old(Gone(outbuf, bpout)) + ShownAll(o, buf[start - 1..bpin - 1])
    {
      hide ShownAll, Shown, Gone;
      bpin, at := start, bpout;
      ghost var sent, body: seq<char> := Gone(outbuf, at), [];
      NothingShown(o, sent);
      var ch := inbuf[bpin - 1];
      while ch != '\n'
        invariant start <= bpin <= eob + 1 && ch == inbuf[bpin - 1]
        invariant body == buf[start - 1..bpin - 1] && '\n' !in body
        invariant 0 <= at && at + 2 * (eob - bpin + 1) <= outbuf.Length
        invariant Gone(outbuf, at) == sent + ShownAll(o, body)
        decreases eob - bpin
      {
        MoreShown(o, sent, body, ch);
        MoreBody(buf, start, bpin, body);
        body := body + [ch];
        at := PutShown(outbuf, at, ch);
        ch := inbuf[bpin];
        bpin := bpin + 1;
      }
    }

    // The number of a line, if it gets one.
    method PutLineNumber(outbuf: array<char>, bpout: int, newlines: int) returns (at: int)
      requires counter.Valid() && outbuf != counter.lineBuf
        && 0 <= bpout && bpout + LINE_COUNTER_BUF_LEN <= outbuf.Length
      modifies outbuf, counter, counter.lineBuf
      ensures var on := newlines >= 0 && o.number;
        && counter.Valid() && counter.count == old(counter.count) + (if on then 1 else 0)
        && bpout <= at < bpout + LINE_COUNTER_BUF_LEN
        && Gone(outbuf, at) == old(Gone(outbuf, bpout)) + Number(on, old(counter.count))
    {
      hide NumberText, Shows;
      at := bpout;
      if newlines >= 0 && o.number {
        at := PutNumber(outbuf, at);
      }
    }

    // The characters of a line behind its number.
    method PutLine(inbuf: array<char>, ghost buf: seq<char>, eob: int, outbuf: array<char>, start: int, bpout: int,
                   newlines: int)
      returns (bpin: int, at: int)
      requires counter.Valid() && outbuf != counter.lineBuf && inbuf != counter.lineBuf && outbuf != inbuf
      requires 0 <= eob < inbuf.Length && inbuf[..eob] == buf && inbuf[eob] == '\n'
      requires 1 <= start <= eob && buf[start - 1] != '\n'
      requires 0 <= bpout && bpout + LINE_COUNTER_BUF_LEN - 1 + 2 * (eob - start + 1) <= outbuf.Length
      modifies outbuf, counter, counter.lineBuf
      ensures start < bpin <= eob + 1 && (bpin <= eob ==> buf[bpin - 1] == '\n')
      ensures '\n' !in buf[start - 1..bpin - 1] && 0 <= at <= outbuf.Length
      ensures var on := newlines >= 0 && o.number;
        && counter.Valid() && counter.count == old(counter.count) + (if on then 1 else 0)
        && Gone(outbuf, at) ==
          old(Gone(outbuf, bpout)) + Number(on, old(counter.count)) + ShownAll(o, buf[start - 1..bpin - 1])
    {
      hide Gone, Number, ShownAll, LineCounter.Valid;
      at := PutLineNumber(outbuf, bpout, newlines);
      bpin, at := PutText(inbuf, buf, eob, outbuf, start, at);
    }

    // safe_read (input_desc, inbuf, insize), *eob = '\n'.
    method Refill(inbuf: array<char>, chunk: seq<char>)
      requires |chunk| < inbuf.Length
      modifies inbuf
      ensures inbuf[..|chunk|] == chunk && inbuf[|chunk|] == '\n'
    {
      forall i | 0 <= i < |chunk| {
        inbuf[i] := chunk[i];
      }
      inbuf[|chunk|] := '\n';
    }

    // The buffers main hands over: apart, and the output with room behind a full block for what a read can turn into.
    ghost predicate Buffers(inbuf: array<char>, outbuf: array<char>, outsize: int) {
      && inbuf != outbuf && counter.lineBuf != inbuf && counter.lineBuf != outbuf && 0 < outsize && 9 < inbuf.Length
      && outbuf.Length == outsize - 1 + (inbuf.Length - 1) * 4 + LINE_COUNTER_BUF_LEN
    }

    // Where the input buffer ends, and that the character at bpin - 1 is in it or is the sentinel.
    ghost predicate Reading(inbuf: array<char>, buf: seq<char>, eob: int, bpin: int)
      reads inbuf
    {
      0 <= eob < inbuf.Length && 1 <= bpin <= eob + 1 && inbuf[..eob] == buf && (bpin <= eob ==> inbuf[eob] == '\n')
    }

    // One pass of the do loop: a flush, and then a read at the end of the buffer or a newline of the input.
    method Pass(inbuf: array<char>, outbuf: array<char>, outsize: int, chunks: seq<seq<char>>, eob: int, bpin: int,
                bpout: int, newlines: int, next: int, ghost g: Goal, ghost cuts: seq<Cut>, ghost buf: seq<char>)
      returns (eof: bool, eob': int, bpin': int, bpout': int, newlines': int, next': int, ghost cuts': seq<Cut>,
               ghost buf': seq<char>)
      requires counter.Valid() && Buffers(inbuf, outbuf, outsize)
      requires -1 <= newlines <= 2 && 0 <= bpout <= outbuf.Length && 0 <= next <= |chunks|
      requires next < |chunks| ==> 0 < |chunks[next]| < inbuf.Length
      requires Reading(inbuf, buf, eob, bpin) && (bpin <= eob ==> buf[bpin - 1] == '\n')
      requires g.o == o && g.moves == moves && g.outsize == outsize
      requires OnCourse(g, Gone(outbuf, bpout), bpout, cuts, State(newlines, counter.count), buf, bpin, chunks, next)
      modifies this`written, inbuf, outbuf, counter, counter.lineBuf
      ensures counter.Valid()
      ensures eof ==> newlines' == newlines && State(newlines, counter.count) == g.end
      ensures eof ==> Written(moves, written, g.out, g.cuts)
      ensures !eof ==> -1 <= newlines' <= 2 && 0 <= next' <= |chunks|
      ensures !eof ==> Reading(inbuf, buf', eob', bpin') && inbuf[eob'] == '\n'
      ensures !eof ==> 0 <= bpout' && bpout' + 19 + 2 * (eob' - bpin' + 1) <= outbuf.Length
      ensures !eof ==> OnCourse(g, Gone(outbuf, bpout'), bpout', cuts', State(newlines', counter.count), buf', bpin',
                                chunks, next')
      ensures !eof ==> if bpin > eob then next' == next + 1 else next' == next && eob' == eob && bpin' == bpin + 1
    {
      hide Output, After, Emit, Shows, Written, NumberText, Number, Flushed, OnCourse, Step, Gone, CutMade, LeftOver;
      eob', bpin', newlines', next', buf' := eob, bpin, newlines, next, buf;
      ghost var st, was, pending := State(newlines, counter.count), written, outbuf[..bpout];
      Pending(outbuf, bpout);
      bpout' := Flush(outbuf, outsize, bpout);
      cuts' := CutMade(cuts, |was| + |pending|, |pending|, outsize, bpout');
      if bpin > eob {
        CourseRefill(g, was, pending, cuts, st, buf, bpin, chunks, next);
        WritePending(outbuf, bpout');
        bpout', eof := 0, next == |chunks|;
        if !eof {
          Refill(inbuf, chunks[next]);
          bpin', eob', buf' := 0, |chunks[next]|, chunks[next];
          next' := next + 1;
        }
      } else {
        CourseNewline(g, was, pending, cuts, st, buf, bpin, chunks, next);
        bpout', newlines' := PutNewline(outbuf, bpout', newlines);
        eof := false;
      }
      bpin' := bpin' + 1;
    }

    /** Copies one file, which the reads deliver in the given chunks; goal and
        cuts tell what the output so far should have been and where flushes cut
        it.  The output cursor stays inside its buffer, a byte comes out wrong only
        by becoming NUL, and nothing does exactly if every cut stretch of what
        should come out copies. */
    method Cat(inbuf: array<char>, outbuf: array<char>, outsize: int, chunks: seq<seq<char>>,
               ghost goal: seq<char>, ghost cuts0: seq<Cut>)
      requires Valid() && Buffers(inbuf, outbuf, outsize)
      requires forall i :: 0 <= i < |chunks| ==> 0 < |chunks[i]| < inbuf.Length
      requires Written(moves, written, goal, cuts0)
      modifies this`newlines2, this`written, inbuf, outbuf, counter, counter.lineBuf
      ensures Valid() && Now() == After(o, old(Now()), Concat(chunks))
      ensures Written(moves, written, goal + Output(o, old(Now()), Concat(chunks)),
                      cuts0 + Cuts(o, outsize, old(Now()), [], chunks, 0, |goal|))
    {
      hide Output, After, Concat, Shows, Written, Number, ShownAll, OnCourse, Gone, Cuts, LineCounter.Valid;
      ghost var g := Goal(o, moves, outsize, goal + Output(o, Now(), Concat(chunks)), After(o, Now(), Concat(chunks)),
                          cuts0 + Cuts(o, outsize, Now(), [], chunks, 0, |goal|));
      ghost var cuts := cuts0;
      var newlines := newlines2;
      var eob, bpin, bpout, next := 0, 1, 0, 0;
      ghost var buf: seq<char> := [];
      NothingPending(outbuf);
      CourseStarts(g, written, goal, cuts0, Now(), chunks);
      while true
        invariant counter.Valid() && -1 <= newlines <= 2 && 0 <= bpout <= outbuf.Length && 0 <= next <= |chunks|
        invariant Reading(inbuf, buf, eob, bpin) && (bpin <= eob ==> buf[bpin - 1] == '\n')
        invariant OnCourse(g, Gone(outbuf, bpout), bpout, cuts, State(newlines, counter.count), buf, bpin, chunks, next)
        decreases |chunks| - next, eob - bpin
      {
        var again := true;
        ghost var eob0, bpin0, next0 := eob, bpin, next;
        while again
          invariant counter.Valid() && -1 <= newlines <= 2 && 0 <= bpout <= outbuf.Length && 0 <= next <= |chunks|
          invariant Reading(inbuf, buf, eob, bpin) && (bpin <= eob ==> (again <==> buf[bpin - 1] == '\n'))
          invariant !again ==> bpin <= eob && bpout + 19 + 2 * (eob - bpin + 1) <= outbuf.Length
          invariant OnCourse(g, Gone(outbuf, bpout), bpout, cuts, State(newlines, counter.count),
                     buf, bpin, chunks, next)
          invariant next > next0 || (next == next0 && eob == eob0 && bpin >= bpin0)
          decreases |chunks| - next, eob - bpin, again
        {
          var eof;
          eof, eob, bpin, bpout, newlines, next, cuts, buf :=
            Pass(inbuf, outbuf, outsize, chunks, eob, bpin, bpout, newlines, next, g, cuts, buf);
          if eof {
            newlines2 := newlines;
            return;
          }
          again := inbuf[bpin - 1] == '\n';
        }
        ghost var st, start, sent, p := State(newlines, counter.count), bpin, Gone(outbuf, bpout), bpout;
        bpin, bpout := PutLine(inbuf, buf, eob, outbuf, bpin, bpout, newlines);
        CourseLine(g, sent, p, cuts, st, buf, start, bpin, chunks, next, Gone(outbuf, bpout));
        newlines := -1;
      }
    }

    lemma NothingPending(outbuf: array<char>)
      ensures Gone(outbuf, 0) == written
    {}

    lemma Pending(outbuf: array<char>, n: int)
      requires 0 <= n <= outbuf.Length
      ensures Gone(outbuf, n) == written + outbuf[..n]
    {}
  }

  lemma Block(w: seq<char>, outbuf: array<char>, wout: int, outsize: int)
    requires 0 <= wout && 0 <= outsize && wout + outsize <= outbuf.Length
    ensures w + outbuf[..wout] + outbuf[wout..wout + outsize] == w + outbuf[..wout + outsize]
  {}

  lemma Slices(outbuf: array<char>, wout: int, bpout: int)
    requires 0 <= wout <= bpout <= outbuf.Length
    ensures outbuf[..bpout][..wout] == outbuf[..wout] && outbuf[..bpout][wout..] == outbuf[wout..bpout]
    ensures outbuf[..bpout] == outbuf[..wout] + outbuf[wout..bpout]
  {}

  lemma NoNumber(line: nat, got: seq<char>)
    ensures got + Number(false, line) == got && got + [] == got
  {}

  lemma NothingShown(o: Options, sent: seq<char>)
    ensures sent + ShownAll(o, []) == sent
  {}

  lemma MoreShown(o: Options, sent: seq<char>, body: seq<char>, ch: char)
    ensures sent + ShownAll(o, body) + Shown(o, ch) == sent + ShownAll(o, body + [ch])
  {
    hide ShownAll, Shown;
    ShownAllMore(o, body, ch);
    assert sent + ShownAll(o, body) + Shown(o, ch) == sent + (ShownAll(o, body) + Shown(o, ch));
  }

  lemma MoreBody(buf: seq<char>, start: int, bpin: int, body: seq<char>)
    requires 1 <= start <= bpin <= |buf| && body == buf[start - 1..bpin - 1]
    ensures body + [buf[bpin - 1]] == buf[start - 1..bpin]
  {}

  // A file as main sees it: its block size, and what the reads of it deliver.
  datatype File = File(blksize: int, chunks: seq<seq<char>>)

  function Insize(f: File, outsize: int): int {
    if f.blksize < outsize then outsize else f.blksize
  }

  function AllOf(files: seq<File>): seq<char> {
    if files == [] then [] else AllOf(files[..|files| - 1]) + Concat(files[|files| - 1].chunks)
  }

  // The cuts of a run over all the files.
  function AllCuts(o: Options, outsize: nat, files: seq<File>): seq<Cut>
    requires outsize > 0
  {
    if files == [] then [] else
    var before, f := files[..|files| - 1], files[|files| - 1];
    AllCuts(o, outsize, before) + Cuts(o, outsize, After(o, State(0, 0), AllOf(before)), [], f.chunks, 0,
                                       |Output(o, State(0, 0), AllOf(before))|)
  }

  /** cat f g ... prints what the documentation says of the files taken as one
      text: options, line numbers and squeezing run on over the file boundaries,
      and neither block sizes nor the sizes of the reads matter.  With a move this
      holds of all files; with strncpy exactly of those where nothing but NULs
      follows a NUL in each stretch that a flush cuts off, so of all text without NULs. */
  method Concatenate(o: Options, moves: bool, outsize: int, files: seq<File>) returns (out: seq<char>)
    requires outsize >= 9
    requires forall i, j :: 0 <= i < |files| && 0 <= j < |files[i].chunks| ==>
      0 < |files[i].chunks[j]| <= Insize(files[i], outsize)
    ensures Blurred(out, ByLine(o, false, 0, AllOf(files)))
    ensures out == ByLine(o, false, 0, AllOf(files)) <==>
      moves || AllCopy(ByLine(o, false, 0, AllOf(files)), AllCuts(o, outsize, files))
    ensures moves || NUL !in AllOf(files) ==> out == ByLine(o, false, 0, AllOf(files))
  {
    hide Written, Blurred, Output, After, ByLine, Concat, Shows, Cuts, AllCopy;
    var p := new Process(o, moves);
    Fresh(o, moves, outsize);
    for i := 0 to |files|
      invariant p.Valid() && fresh(p) && fresh(p.counter) && fresh(p.counter.lineBuf) && p.o == o && p.moves == moves
      invariant Copied(o, moves, outsize, files[..i], p.written, p.Now())
    {
      var insize := Insize(files[i], outsize);
      var inbuf := new char[insize + 1];
      var outbuf := new char[outsize - 1 + insize * 4 + LINE_COUNTER_BUF_LEN];
      p.Cat(inbuf, outbuf, outsize, files[i].chunks,
            Output(o, State(0, 0), AllOf(files[..i])), AllCuts(o, outsize, files[..i]));
      CopiedMore(o, moves, outsize, files[..i], files[i], p.written, p.Now());
      assert files[..i + 1] == files[..i] + [files[i]];
    }
    assert files[..|files|] == files;
    CopiedMeans(o, moves, outsize, files, p.written, p.Now());
    return p.written;
  }

  // The files so far are out, and the process stands where their text leaves it.
  ghost predicate Copied(o: Options, moves: bool, outsize: nat, files: seq<File>, out: seq<char>, st: State) {
    && outsize > 0 && st == After(o, State(0, 0), AllOf(files))
    && Written(moves, out, Output(o, State(0, 0), AllOf(files)), AllCuts(o, outsize, files))
  }

  lemma Fresh(o: Options, moves: bool, outsize: nat)
    requires outsize > 0
    ensures Copied(o, moves, outsize, [], [], State(0, 0))
  {
    NoCuts(moves);
  }

  lemma CopiedMore(o: Options, moves: bool, outsize: nat, files: seq<File>, f: File, out: seq<char>, st: State)
    requires outsize > 0
    requires var was, goal := After(o, State(0, 0), AllOf(files)), Output(o, State(0, 0), AllOf(files));
      && st == After(o, was, Concat(f.chunks))
      && Written(moves, out, goal + Output(o, was, Concat(f.chunks)),
                 AllCuts(o, outsize, files) + Cuts(o, outsize, was, [], f.chunks, 0, |goal|))
    ensures Copied(o, moves, outsize, files + [f], out, st)
  {
    hide Output, After, Cuts, Written, Concat;
    CutAnywhere(o, State(0, 0), AllOf(files), Concat(f.chunks));
    assert (files + [f])[..|files|] == files;
  }

  lemma CopiedMeans(o: Options, moves: bool, outsize: nat, files: seq<File>, out: seq<char>, st: State)
    requires Copied(o, moves, outsize, files, out, st)
    ensures var goal := ByLine(o, false, 0, AllOf(files));
      && Blurred(out, goal) && (out == goal <==> moves || AllCopy(goal, AllCuts(o, outsize, files)))
      && (moves || NUL !in AllOf(files) ==> out == goal)
  {
    hide Output, ByLine, Cuts, AllCuts, AllCopy, Blurred, InRange;
    OutputIsByLine(o, State(0, 0), AllOf(files));
    if NUL !in AllOf(files) {
      OutputIsText(o, State(0, 0), AllOf(files));
      TextIsCopied(ByLine(o, false, 0, AllOf(files)), AllCuts(o, outsize, files));
    }
  }

  const PLAIN := Options(false, false, false, false, false)

  lemma {:induction false} PlainShows(s: seq<char>)
    ensures ShownAll(PLAIN, s) == s
  {
    if s != [] {
      PlainShows(s[1..]);
    }
  }

  lemma {:induction false} PlainCopies(st: State, s: seq<char>)
    requires st.Valid()
    ensures Output(PLAIN, st, s) == s
    decreases |s|
  {
    if s != [] {
      PlainCopies(Step(PLAIN, st, s[0]), s[1..]);
      assert Emit(PLAIN, st, s[0]) == [s[0]];
    }
  }

  // A block of text, then a NUL and one more character, all in one read.
  function BlockAndNul(outsize: nat): (f: File) {
    File(2 * outsize, [seq(outsize, _ => 'a') + [NUL, 'x']])
  }

  /** Whatever the block size, cat without options loses a byte of this file. */
  lemma NulIsDestructive(outsize: nat)
    requires outsize >= 9
    ensures ByLine(PLAIN, false, 0, AllOf([BlockAndNul(outsize)])) == BlockAndNul(outsize).chunks[0]
    ensures AllCuts(PLAIN, outsize, [BlockAndNul(outsize)]) == [Cut(outsize, outsize + 2)]
    ensures !AllCopy(BlockAndNul(outsize).chunks[0], [Cut(outsize, outsize + 2)])
  {
    hide ByLine, Output, Number, TextEnd;
    var f := BlockAndNul(outsize);
    var s, st := f.chunks[0], State(0, 0);
    assert |[f][..0]| == 0 && |f.chunks[1..]| == 0 && Concat(f.chunks) == s;
    assert AllOf([f]) == s;
    OutputIsByLine(PLAIN, st, s);
    PlainCopies(st, s);
    OneCut(outsize, s);
    assert AllCuts(PLAIN, outsize, [f]) == Cuts(PLAIN, outsize, st, [], [s], 0, 0) by {
      PlainCopies(st, []);
      assert AllCuts(PLAIN, outsize, []) == [];
    }
    assert !CutCopies(s, Cut(outsize, outsize + 2)) by {
      var x := s[outsize..outsize + 2];
      assert x[0] == NUL && x[1] == 'x';
    }
    assert [Cut(outsize, outsize + 2)][0] == Cut(outsize, outsize + 2);
  }

  lemma OneCut(outsize: nat, s: seq<char>)
    requires outsize > 2 && |s| == outsize + 2 && '\n' !in s
    ensures Cuts(PLAIN, outsize, State(0, 0), [], [s], 0, 0) == [Cut(outsize, outsize + 2)]
  {
    hide ShownAll, TextEnd;
    assert s[..|s|] == s && s[|s|..] == [] && [s][1..] == [];
    TextEndIs(s, |s|);
    PlainShows(s);
    assert LeftOver(outsize + 2, outsize) == 2;
    assert Cuts(PLAIN, outsize, State(-1, 0), [], [], |s|, |s|) == [Cut(outsize, outsize + 2)];
    assert CutsOn(PLAIN, outsize, State(0, 0), s, [], 0, 0) == [Cut(outsize, outsize + 2)];
  }

  // So cat as written never prints this file right.
  method DamagedFile(outsize: int) returns (out: seq<char>)
    requires outsize >= 9
    ensures out != ByLine(PLAIN, false, 0, AllOf([BlockAndNul(outsize)]))
  {
    hide ByLine, AllCuts, AllCopy, AllOf;
    NulIsDestructive(outsize);
    out := Concatenate(PLAIN, false, outsize, [BlockAndNul(outsize)]);
  }
}
