/** tail -n +num as written: the bytes left to search in a block are counted
    down by the distance from the start of the block, not by the line's length. */
module TailFrom {
  import opened FileLines
  import HeadTail

  const SIZE_T := 0x1_0000_0000_0000_0000

  // Overrun: memchr is sent past the bytes that were read and finds no newline among them.
  datatype Printed = Prints(text: seq<char>) | Overrun
  datatype Scan = Here(at: nat) | More(left: nat) | Astray

  // The first newline of s in [lo, hi), or hi.
  function NewlineFrom(s: seq<char>, lo: nat, hi: nat): (q: nat)
    requires lo <= hi <= |s|
    ensures lo <= q <= hi && '\n' !in s[lo..q] && (q < hi ==> s[q] == '\n')
    decreases hi - lo
  {
    if lo == hi || s[lo] == '\n' then lo
    else
      var q := NewlineFrom(s, lo + 1, hi);
      assert s[lo..q] == [s[lo]] + s[lo + 1..q];
      q
  }

  // The search for left newlines in one block, from at on with n bytes to go.
  function ScanForward(block: seq<char>, at: nat, n: nat, left: nat): (r: Scan)
    requires at <= |block| && left > 0
    ensures r.Here? ==> 0 < r.at <= |block|
    ensures r.More? ==> 0 < r.left <= left
    decreases |block| - at
  {
    if n == 0 then More(left)
    else
      var hi := if at + n <= |block| then at + n else |block|;
      var q := NewlineFrom(block, at, hi);
      if q == hi then (if at + n > |block| then Astray else More(left))
      else if left == 1 then Here(q + 1)
      else ScanForward(block, q + 1, (n - (q + 1)) % SIZE_T, left - 1)
  }

  function Block(rest: seq<char>, b: int): (block: seq<char>)
    requires b > 0
    ensures |block| <= |rest| && |block| <= b && block == rest[..|block|] && (rest != [] ==> block != [])
  {
    if b < |rest| then rest[..b] else rest
  }

  // What is printed of rest, block by block, when left newlines are to be skipped.
  function Rest(rest: seq<char>, b: int, left: nat): Printed
    requires b > 0 && left > 0 && rest != []
    decreases |rest|
  {
    var block := Block(rest, b);
    match ScanForward(block, 0, |block|, left)
    case Here(at) => Prints(rest[at..])
    case Astray => Overrun
    case More(l) => if |block| == |rest| then Prints([]) else Rest(rest[|block|..], b, l)
  }

  function AsCoded(data: seq<char>, num: nat, b: int): Printed
    requires b > 0
  {
    if data == [] || num == 0 then Prints([])
    else if num == 1 then Prints(data)
    else Rest(data, b, num - 1)
  }

  // memchr, within [lo, hi) of the buffer.
  method Memchr(buf: array<char>, lo: int, hi: int) returns (q: int)
    requires 0 <= lo <= hi <= buf.Length
    ensures lo <= q <= hi && (forall i :: lo <= i < q ==> buf[i] != '\n') && (q < hi ==> buf[q] == '\n')
  {
    q := lo;
    while q < hi && buf[q] != '\n'
      invariant lo <= q <= hi && forall i :: lo <= i < q ==> buf[i] != '\n'
    {
      q := q + 1;
    }
  }

  lemma {:induction false} NewlineIs(s: seq<char>, lo: nat, hi: nat, q: nat)
    requires lo <= q <= hi <= |s| && (forall i :: lo <= i < q ==> s[i] != '\n') && (q < hi ==> s[q] == '\n')
    ensures NewlineFrom(s, lo, hi) == q
    decreases q - lo
  {
    if lo < q {
      NewlineIs(s, lo + 1, hi, q);
    }
  }

  // The loop over the newlines of one block.
  method ScanBlock(buf: array<char>, bytesRead: int, nLines0: int) returns (r: Scan)
    requires 0 <= bytesRead <= buf.Length && nLines0 > 0
    ensures r == ScanForward(buf[..bytesRead], 0, bytesRead, nLines0)
  {
    hide ScanForward, NewlineFrom;
    ghost var block := buf[..bytesRead];
    var n, ptr, nLines := bytesRead, 0, nLines0;
    while n > 0
      invariant 0 <= ptr <= bytesRead && 0 <= n && nLines > 0
      invariant ScanForward(block, 0, bytesRead, nLines0) == ScanForward(block, ptr, n, nLines)
      decreases bytesRead - ptr
    {
      var hi := if ptr + n <= bytesRead then ptr + n else bytesRead;
      var q := Memchr(buf, ptr, hi);
      NewlineIs(block, ptr, hi, q);
      ScanStep(block, ptr, n, nLines);
      if q == hi {
        return if ptr + n > bytesRead then Astray else More(nLines);
      }
      ptr := q + 1;
      var step := ptr;
      n := (n - step) % SIZE_T;
      nLines := nLines - 1;
      if nLines == 0 {
        return Here(step);
      }
    }
    ScanDone(block, ptr, nLines);
    r := More(nLines);
  }

  lemma ScanStep(block: seq<char>, at: nat, n: nat, left: nat)
    requires at <= |block| && left > 0 && n > 0
    ensures ScanForward(block, at, n, left) ==
      var hi := if at + n <= |block| then at + n else |block|;
      var q := NewlineFrom(block, at, hi);
      if q == hi then (if at + n > |block| then Astray else More(left))
      else if left == 1 then Here(q + 1)
      else ScanForward(block, q + 1, (n - (q + 1)) % SIZE_T, left - 1)
  {}

  lemma ScanDone(block: seq<char>, at: nat, left: nat)
    requires at <= |block| && left > 0
    ensures ScanForward(block, at, 0, left) == More(left)
  {}

  // One block of the search, at a position in the file.
  lemma RestStep(data: seq<char>, pos: int, b: int, left: int, bytesRead: int)
    requires b > 0 && left > 0 && 0 <= pos < |data| && bytesRead == (if b < |data| - pos then b else |data| - pos)
    ensures data[pos..] != [] && Block(data[pos..], b) == data[pos..pos + bytesRead]
    ensures Rest(data[pos..], b, left) ==
      match ScanForward(data[pos..pos + bytesRead], 0, bytesRead, left)
      case Here(at) => Prints(data[pos + at..])
      case Astray => Overrun
      case More(l) => if pos + bytesRead == |data| then Prints([]) else Rest(data[pos + bytesRead..], b, l)
  {
    hide ScanForward;
    var rest, block := data[pos..], data[pos..pos + bytesRead];
    assert Block(rest, b) == block;
    match ScanForward(block, 0, bytesRead, left)
    case Here(at) => assert rest[at..] == data[pos + at..];
    case Astray =>
    case More(l) => assert rest[bytesRead..] == data[pos + bytesRead..];
  }

  method ElideHeadLines(data: seq<char>, num: nat, b: int) returns (out: Printed)
    requires b > 0
    ensures out == AsCoded(data, num, b)
  {
    hide ScanForward, Rest;
    var nLines := num;
    if |data| == 0 || nLines == 0 {
      return Prints([]);
    }
    nLines := nLines - 1;
    var pos := 0;
    if nLines == 0 {
      var all := HeadTail.CopyFd(data, 0, |data|, b);
      return Prints(all);
    }
    var buf := new char[b];
    var bytesRead := HeadTail.Read(data, pos, buf, b);
    assert data[0..] == data;
    while true
      modifies buf
      invariant nLines > 0 && 0 <= pos < |data| && bytesRead == (if b < |data| - pos then b else |data| - pos)
      invariant buf[..bytesRead] == data[pos..pos + bytesRead]
      invariant AsCoded(data, num, b) == Rest(data[pos..], b, nLines)
      decreases |data| - pos
    {
      RestStep(data, pos, b, nLines, bytesRead);
      var scan := ScanBlock(buf, bytesRead, nLines);
      match scan {
        case Here(step) =>
          var rest := HeadTail.CopyFd(data, pos + step, |data| - (pos + step), b);
          return Prints(rest);
        case Astray =>
          return Overrun;
        case More(left) =>
          nLines := left;
      }
      pos := pos + bytesRead;
      if pos == |data| {
        return Prints([]);
      }
      bytesRead := HeadTail.Read(data, pos, buf, b);
    }
  }

  // The newlines up to the next one.
  lemma CountToNewline(s: seq<char>, lo: nat, q: nat)
    requires lo <= q <= |s| && '\n' !in s[lo..q]
    ensures Newlines(s[..q]) == Newlines(s[..lo])
    ensures q < |s| && s[q] == '\n' ==> Newlines(s[..q + 1]) == Newlines(s[..lo]) + 1
  {
    CountParts(s, lo, q);
    HeadTail.NoNewlines(s[lo..q]);
    if q < |s| {
      HeadTail.OneMore(s, q);
    }
  }

  // ---------- What was meant ----------

  // The search with the bytes behind the line just found as the bytes to go.
  function ScanRest(block: seq<char>, at: nat, left: nat): (r: Scan)
    requires at <= |block| && left > 0
    ensures r.Here? ==> 0 < r.at <= |block|
    ensures r.More? ==> 0 < r.left <= left
    decreases |block| - at
  {
    var q := NewlineFrom(block, at, |block|);
    if q == |block| then More(left) else if left == 1 then Here(q + 1) else ScanRest(block, q + 1, left - 1)
  }

  function Meant(rest: seq<char>, b: int, left: nat): Printed
    requires b > 0 && left > 0 && rest != []
    decreases |rest|
  {
    var block := Block(rest, b);
    match ScanRest(block, 0, left)
    case Here(at) => Prints(rest[at..])
    case Astray => Overrun
    case More(l) => if |block| == |rest| then Prints([]) else Meant(rest[|block|..], b, l)
  }

  lemma {:induction false} ScanRestIsRight(block: seq<char>, at: nat, left: nat)
    requires at <= |block| && left > 0
    ensures var r, before := ScanRest(block, at, left), Newlines(block[..at]);
      if Newlines(block) >= before + left
        then r.Here? && Newlines(block[..r.at]) == before + left && block[r.at - 1] == '\n'
      else r == More(before + left - Newlines(block))
    decreases |block| - at
  {
    hide Newlines;
    var q := NewlineFrom(block, at, |block|);
    assert block[..|block|] == block;
    CountToNewline(block, at, q);
    if q < |block| {
      CountParts(block, q + 1, |block|);
      if left > 1 {
        ScanRestIsRight(block, q + 1, left - 1);
      }
    }
  }

  lemma {:induction false} MeantSkips(rest: seq<char>, b: int, left: nat)
    requires b > 0 && left > 0 && rest != []
    ensures Meant(rest, b, left) == Prints(rest[LineStart(rest, left)..])
    decreases |rest|
  {
    hide ScanRest, LineStart, Newlines;
    var block := Block(rest, b);
    HeadTail.NothingBehind(block);
    ScanRestIsRight(block, 0, left);
    if Newlines(block) >= left {
      var at := ScanRest(block, 0, left).at;
      assert rest[..at] == block[..at];
      StartBehind(rest, left, at);
    } else if |block| == |rest| {
      StartBeyond(rest, left);
    } else {
      var more := rest[|block|..];
      assert rest == block + more;
      MeantSkips(more, b, left - Newlines(block));
      StartJoined(block, more, left);
    }
  }

  function AsMeant(data: seq<char>, num: nat, b: int): Printed
    requires b > 0
  {
    if data == [] || num == 0 then Prints([])
    else if num == 1 then Prints(data)
    else Meant(data, b, num - 1)
  }

  /** Counted that way, tail -n +num is right for every file, line number and
      block size, and with head -n always cuts the file in two. */
  lemma MeantIsRight(data: seq<char>, num: nat, b: int)
    requires b > 0
    ensures num > 0 ==> AsMeant(data, num, b) == Prints(FromLine(data, num))
    ensures AsMeant(data, num + 1, b).Prints? && FirstLines(data, num) + AsMeant(data, num + 1, b).text == data
  {
    hide Meant, LineStart;
    NothingToSkip(data);
    if data != [] && num > 1 {
      MeantSkips(data, b, num - 1);
    }
    if data != [] && num > 0 {
      MeantSkips(data, b, num);
    }
  }

  lemma NothingToSkip(data: seq<char>)
    ensures LineStart(data, 0) == 0
  {
    StartOfFile(data, 0);
  }
}
