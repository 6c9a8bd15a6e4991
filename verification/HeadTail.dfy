/** head -n and tail -n on a regular file, read in blocks of b bytes. */
module HeadTail {
  import opened FileLines

  // read (fd, buf, n) at an offset of a regular file: all there is, up to n bytes.
  method Read(data: seq<char>, offset: int, buf: array<char>, n: int) returns (bytesRead: int)
    requires 0 <= offset <= |data| && 0 <= n <= buf.Length
    modifies buf
    ensures bytesRead == (if n < |data| - offset then n else |data| - offset)
    ensures buf[..bytesRead] == data[offset..offset + bytesRead]
  {
    bytesRead := if n < |data| - offset then n else |data| - offset;
    forall i | 0 <= i < bytesRead {
      buf[i] := data[offset + i];
    }
  }

  method CopyFd(data: seq<char>, start: int, count: int, b: int) returns (out: seq<char>)
    requires b > 0 && 0 <= start <= |data| && 0 <= count
    ensures out == data[start..if start + count < |data| then start + count else |data|]
  {
    var buf := new char[b];
    var offset, nBytes := start, count;
    out := [];
    while nBytes > 0
      modifies buf
      invariant start <= offset <= |data| && offset + nBytes == start + count && 0 <= nBytes
        && out == data[start..offset]
      decreases nBytes
    {
      var bytesToRead := if b > nBytes then nBytes else b;
      var bytesRead := Read(data, offset, buf, bytesToRead);
      if bytesRead == 0 {
        break;
      }
      assert data[start..offset + bytesRead] == data[start..offset] + data[offset..offset + bytesRead];
      out := out + buf[..bytesRead];
      offset := offset + bytesRead;
      nBytes := nBytes - bytesRead;
    }
  }

  lemma Appended(data: seq<char>, offset: nat, block: seq<char>, n: nat)
    requires offset + |block| <= |data| && block == data[offset..offset + |block|] && n <= |block|
    ensures data[..offset + n] == data[..offset] + block[..n]
  {}

  lemma FrontPart(data: seq<char>, pos: int, buf: array<char>, bytesRead: int, n: int)
    requires 0 <= pos && 0 <= bytesRead <= buf.Length && pos + bytesRead <= |data| && 0 <= n <= bytesRead
    requires buf[..bytesRead] == data[pos..pos + bytesRead]
    ensures data[0..pos] + buf[..n] == data[..pos + n] == data[0..pos + n]
  {
    assert buf[..bytesRead][..n] == buf[..n];
    Appended(data, pos, buf[..bytesRead], n);
  }

  // The bytes of a block up to the end of the last line to write.
  method CountLines(data: seq<char>, offset: int, buf: array<char>, bytesRead: int, lines: int, ghost num: int)
    returns (bytesToWrite: int, linesToWrite: int)
    requires 0 <= offset && 0 < bytesRead <= buf.Length && offset + bytesRead <= |data|
    requires buf[..bytesRead] == data[offset..offset + bytesRead]
    requires 0 < lines && Newlines(data[..offset]) == num - lines
    ensures 0 < bytesToWrite <= bytesRead && 0 <= linesToWrite <= lines
    ensures Newlines(data[..offset + bytesToWrite]) == num - linesToWrite
    ensures if linesToWrite == 0 then data[offset + bytesToWrite - 1] == '\n' else bytesToWrite == bytesRead
  {
    hide Newlines;
    bytesToWrite, linesToWrite := 0, lines;
    while bytesToWrite < bytesRead
      invariant 0 <= bytesToWrite <= bytesRead && 0 < linesToWrite <= lines
      invariant Newlines(data[..offset + bytesToWrite]) == num - linesToWrite
    {
      OneMore(data, offset + bytesToWrite);
      assert buf[bytesToWrite] == buf[..bytesRead][bytesToWrite] == data[offset + bytesToWrite];
      bytesToWrite := bytesToWrite + 1;
      if buf[bytesToWrite - 1] == '\n' {
        linesToWrite := linesToWrite - 1;
        if linesToWrite == 0 {
          break;
        }
      }
    }
  }

  /** head -n num: prints the first num lines and leaves the file offset behind them. */
  method HeadLines(data: seq<char>, num: nat, b: int) returns (out: seq<char>, offset: nat)
    requires b > 0
    ensures out == FirstLines(data, num) && offset == |out|
  {
    hide Newlines, LineStart;
    NothingBehind(data);
    var buf := new char[b];
    var linesToWrite := num;
    out, offset := [], 0;
    while linesToWrite > 0
      modifies buf
      invariant offset <= |data| && out == data[0..offset] && 0 <= linesToWrite <= num
      invariant Newlines(data[..offset]) == num - linesToWrite
      invariant linesToWrite == 0 ==> if num > 0 then offset > 0 && data[offset - 1] == '\n' else offset == 0
      decreases |data| - offset
    {
      var bytesRead := Read(data, offset, buf, b);
      if bytesRead == 0 {
        assert data[0..offset] == data == data[..offset];
        StartBeyond(data, num);
        return;
      }
      var bytesToWrite;
      bytesToWrite, linesToWrite := CountLines(data, offset, buf, bytesRead, linesToWrite, num);
      FrontPart(data, offset, buf, bytesRead, bytesToWrite);
      out := out + buf[..bytesToWrite];
      offset := offset + bytesToWrite;
    }
    assert data[0..offset] == data[..offset];
    if num > 0 {
      StartBehind(data, num, offset);
    } else {
      StartOfFile(data, 0);
    }
  }

  // memrchr: the last newline among the first n bytes of buf, -1 if there is none.
  method LastNewline(buf: array<char>, n: int) returns (q: int)
    requires 0 <= n <= buf.Length
    ensures -1 <= q < n
    ensures (q >= 0 ==> buf[q] == '\n') && forall i :: q < i < n ==> buf[i] != '\n'
  {
    q := n - 1;
    while q >= 0 && buf[q] != '\n'
      invariant -1 <= q < n && forall i :: q < i < n ==> buf[i] != '\n'
    {
      q := q - 1;
    }
  }

  lemma {:induction false} NoNewlines(s: seq<char>)
    requires '\n' !in s
    ensures Newlines(s) == 0
  {
    if s != [] {
      NoNewlines(s[..|s| - 1]);
    }
  }

  // Where a backward scan for m + 1 newlines stops: behind the last of them.
  ghost predicate ScanStops(data: seq<char>, m: int, e: int) {
    0 < e <= |data| && data[e - 1] == '\n' && Newlines(data[e..]) == m
  }

  lemma StopIsLineStart(data: seq<char>, m: int, e: int)
    requires ScanStops(data, m, e)
    ensures LineStart(data, Newlines(data) - m) == e && Newlines(data) > m
  {
    CountParts(data, e, |data|);
    assert data[..|data|] == data && data[e..|data|] == data[e..];
    StartBehind(data, Newlines(data) - m, e);
    assert data[..e] == data[..e - 1] + ['\n'];
    CountJoined(data[..e - 1], ['\n']);
    assert Newlines(['\n']) == Newlines([]) + 1;
  }

  lemma SkipText(data: seq<char>, lo: nat, hi: nat)
    requires lo <= hi <= |data| && '\n' !in data[lo..hi]
    ensures Newlines(data[lo..]) == Newlines(data[hi..])
  {
    assert data[lo..] == data[lo..hi] + data[hi..];
    NoNewlines(data[lo..hi]);
    CountJoined(data[lo..hi], data[hi..]);
  }

  lemma SkipNewline(data: seq<char>, q: nat)
    requires q < |data| && data[q] == '\n'
    ensures Newlines(data[q..]) == Newlines(data[q + 1..]) + 1
  {
    assert data[q..] == ['\n'] + data[q + 1..];
    CountJoined(['\n'], data[q + 1..]);
    assert Newlines(['\n']) == Newlines([]) + 1;
  }

  // n bytes are whole blocks.
  predicate Whole(n: nat, b: int)
    requires b > 0
  {
    n == 0 || (n >= b && Whole(n - b, b))
  }

  lemma StepBack(n: nat, b: int)
    requires b > 0 && Whole(n, b) && n != 0
    ensures n >= b && Whole(n - b, b)
  {}

  lemma {:induction false} BlocksAreWhole(j: nat, b: int)
    requires b > 0
    ensures j * b >= 0 && Whole(j * b, b)
  {
    if j > 0 {
      BlocksAreWhole(j - 1, b);
      assert j * b == (j - 1) * b + b;
    }
  }

  // What is left of a file without its last part of a block is whole blocks.
  lemma AllButLastBlock(size: nat, b: int)
    requires b > 0
    ensures size % b <= size && Whole(size - size % b, b)
    ensures size > 0 && size % b == 0 ==> size >= b && Whole(size - b, b)
  {
    BlocksAreWhole(size / b, b);
    assert size == (size / b) * b + size % b;
  }

  /** The loop over the newlines of one block, backwards: it stops behind the
      newline before the last nLines ones, or counts those of the block. */
  method ScanBlock(data: seq<char>, pos: int, buf: array<char>, bytesRead: int, nLines0: int, ghost m: int)
    returns (hit: bool, n: int, nLines: int)
    requires 0 <= bytesRead <= buf.Length && 0 <= pos && pos + bytesRead <= |data|
    requires buf[..bytesRead] == data[pos..pos + bytesRead]
    requires 0 <= nLines0 && Newlines(data[pos + bytesRead..]) == m - nLines0
    ensures hit ==> 0 <= n < bytesRead && ScanStops(data, m, pos + n + 1)
    ensures !hit ==> 0 <= nLines && Newlines(data[pos..]) == m - nLines
  {
    hide Newlines;
    nLines, n := nLines0, bytesRead;
    while n > 0
      invariant 0 <= n <= bytesRead && 0 <= nLines && Newlines(data[pos + n..]) == m - nLines
    {
      var q := LastNewline(buf, n);
      forall i | pos + q < i < pos + n ensures data[i] != '\n' {
        assert buf[i - pos] == buf[..bytesRead][i - pos] == data[i];
      }
      assert q >= 0 ==> buf[q] == buf[..bytesRead][q];
      SkipText(data, pos + q + 1, pos + n);
      if q < 0 {
        break;
      }
      SkipNewline(data, pos + q);
      n := q;
      if nLines == 0 {
        return true, n, -1;
      }
      nLines := nLines - 1;
    }
    hit := false;
  }

  /** tail -n num prints exactly the last num lines. */
  method TailLines(data: seq<char>, num: nat, b: int) returns (out: seq<char>)
    requires b > 0
    ensures out == LastLines(data, num)
  {
    hide Newlines, LineStart, Whole;
    if |data| == 0 || num == 0 {
      NoLastLines(data, num);
      return [];
    }
    var buf := new char[b];
    var pos, nLines := |data|, num;
    var bytesRead := pos % b;
    if bytesRead == 0 {
      bytesRead := b;
    }
    AllButLastBlock(pos, b);
    pos := pos - bytesRead;
    bytesRead := Read(data, pos, buf, bytesRead);
    assert buf[bytesRead - 1] == buf[..bytesRead][bytesRead - 1];
    if buf[bytesRead - 1] != '\n' {
      nLines := nLines - 1;
    }
    NothingBehind(data);
    assert LineCount(data) - num == Newlines(data) - nLines;
    out := PrintBack(data, b, pos, buf, bytesRead, nLines, num);
  }

  // The scan of tail -n num from the last block on.
  method PrintBack(data: seq<char>, b: int, pos0: int, buf: array<char>, bytesRead0: int, nLines0: int, ghost num: nat)
    returns (out: seq<char>)
    requires b == buf.Length > 0 && 0 <= pos0 && Whole(pos0, b) && 0 < bytesRead0 <= b && pos0 + bytesRead0 <= |data|
    requires buf[..bytesRead0] == data[pos0..pos0 + bytesRead0]
    requires 0 <= nLines0 && Newlines(data[pos0 + bytesRead0..]) == 0
    requires LineCount(data) - num == Newlines(data) - nLines0
    modifies buf
    ensures out == LastLines(data, num)
  {
    hide Newlines, LineStart, LineCount, Whole;
    var pos, bytesRead, nLines := pos0, bytesRead0, nLines0;
    while true
      invariant 0 <= pos && Whole(pos, b) && 0 < bytesRead <= b && pos + bytesRead <= |data|
      invariant buf[..bytesRead] == data[pos..pos + bytesRead]
      invariant 0 <= nLines && Newlines(data[pos + bytesRead..]) == nLines0 - nLines
      decreases pos
    {
      var hit, n;
      hit, n, nLines := ScanBlock(data, pos, buf, bytesRead, nLines, nLines0);
      if hit {
        pos := pos + n + 1;
        StopIsLineStart(data, nLines0, pos);
        out := CopyFd(data, pos, |data| - pos, b);
        return;
      }
      if pos == 0 {
        assert data[0..] == data;
        StartOfFile(data, LineCount(data) - num);
        out := CopyFd(data, pos, |data| - pos, b);
        return;
      }
      StepBack(pos, b);
      pos := pos - b;
      bytesRead := Read(data, pos, buf, b);
    }
  }

  lemma NoLastLines(data: seq<char>, num: nat)
    requires data == [] || num == 0
    ensures LastLines(data, num) == []
  {
    if num == 0 {
      if Unterminated(data) {
        StartBeyond(data, LineCount(data));
      } else if data != [] {
        assert data[..|data|] == data;
        StartBehind(data, LineCount(data), |data|);
      }
    }
  }

  lemma AllLines(data: seq<char>)
    ensures LineStart(data, LineCount(data)) == |data|
  {
    NoLastLines(data, 0);
  }

  lemma NothingBehind(data: seq<char>)
    ensures Newlines(data[|data|..]) == Newlines(data[..0]) == 0
  {}

  lemma OneMore(data: seq<char>, i: nat)
    requires i < |data|
    ensures Newlines(data[..i + 1]) == Newlines(data[..i]) + if data[i] == '\n' then 1 else 0
  {
    assert data[..i + 1][..i] == data[..i];
  }

  // The one case head -n -num gets wrong: it skips the look at the last byte when the size is a multiple of b.
  predicate OverlooksLastLine(data: seq<char>, num: nat, b: int)
    requires b > 0
  {
    num > 0 && |data| % b == 0 && Unterminated(data)
  }

  /** head -n -num prints all but the last num lines, except that of a file that
      ends inside a line at the end of a block it leaves out one line more. */
  method ElideTailLines(data: seq<char>, num: nat, b: int) returns (out: seq<char>)
    requires b > 0
    ensures out == if OverlooksLastLine(data, num, b) then AllButLast(data, num + 1) else AllButLast(data, num)
  {
    hide Newlines, LineStart, Whole;
    var nLines, size := num, |data|;
    var pos := size;
    if nLines == 0 || size == 0 {
      AllLines(data);
      out := CopyFd(data, 0, size, b);
      return;
    }
    var buf := new char[b];
    var bytesRead := size % b;
    AllButLastBlock(pos, b);
    pos := pos - bytesRead;
    bytesRead := Read(data, pos, buf, bytesRead);
    if bytesRead > 0 {
      assert buf[bytesRead - 1] == buf[..bytesRead][bytesRead - 1];
      if buf[bytesRead - 1] != '\n' {
        nLines := nLines - 1;
      }
    }
    NothingBehind(data);
    ghost var k := if OverlooksLastLine(data, num, b) then num + 1 else num;
    assert LineCount(data) - k == Newlines(data) - nLines;
    out := PrintFront(data, b, pos, buf, bytesRead, nLines, k);
  }

  // The blocks before this one, and its first n bytes.
  method CopyFront(data: seq<char>, b: int, pos: int, buf: array<char>, bytesRead: int, n: int) returns (out: seq<char>)
    requires b > 0 && 0 <= pos && 0 <= n <= bytesRead <= buf.Length && pos + bytesRead <= |data|
    requires buf[..bytesRead] == data[pos..pos + bytesRead]
    ensures out == data[..pos + n]
  {
    out := CopyFd(data, 0, pos, b);
    FrontPart(data, pos, buf, bytesRead, n);
    out := out + buf[..n];
  }

  // The scan of head -n -num from the last block on, for all but the last k lines.
  method PrintFront(data: seq<char>, b: int, pos0: int, buf: array<char>, bytesRead0: int, nLines0: int,
                    ghost k: nat) returns (out: seq<char>)
    requires b == buf.Length > 0 && 0 <= pos0 && Whole(pos0, b) && 0 <= bytesRead0 <= b && pos0 + bytesRead0 <= |data|
    requires buf[..bytesRead0] == data[pos0..pos0 + bytesRead0]
    requires 0 <= nLines0 && Newlines(data[pos0 + bytesRead0..]) == 0
    requires LineCount(data) - k == Newlines(data) - nLines0
    modifies buf
    ensures out == AllButLast(data, k)
  {
    hide Newlines, LineStart, LineCount, Whole;
    var pos, bytesRead, nLines := pos0, bytesRead0, nLines0;
    while true
      invariant 0 <= pos && Whole(pos, b) && 0 <= bytesRead <= b && pos + bytesRead <= |data|
      invariant buf[..bytesRead] == data[pos..pos + bytesRead]
      invariant 0 <= nLines && Newlines(data[pos + bytesRead..]) == nLines0 - nLines
      decreases pos
    {
      var hit, n;
      hit, n, nLines := ScanBlock(data, pos, buf, bytesRead, nLines, nLines0);
      if hit {
        StopIsLineStart(data, nLines0, pos + n + 1);
        out := CopyFront(data, b, pos, buf, bytesRead, n + 1);
        return;
      }
      if pos == 0 {
        assert data[0..] == data;
        StartOfFile(data, LineCount(data) - k);
        return [];
      }
      StepBack(pos, b);
      pos := pos - b;
      bytesRead := Read(data, pos, buf, b);
    }
  }

  /** Exactly when head -n -num is right, that is when it and tail -n num cut the file in two. */
  lemma ElideTailIsRightIff(data: seq<char>, num: nat, b: int)
    requires b > 0
    ensures var out := if OverlooksLastLine(data, num, b) then AllButLast(data, num + 1) else AllButLast(data, num);
      && (out == AllButLast(data, num) <==> !(OverlooksLastLine(data, num, b) && LineCount(data) > num))
      && (out + LastLines(data, num) == data <==> out == AllButLast(data, num))
  {
    var l := LineCount(data);
    var out := if OverlooksLastLine(data, num, b) then AllButLast(data, num + 1) else AllButLast(data, num);
    assert AllButLast(data, num) + LastLines(data, num) == data;
    if OverlooksLastLine(data, num, b) {
      if l > num {
        StartsApart(data, l - num - 1);
      } else {
        StartOfFile(data, l - num);
        StartOfFile(data, l - num - 1);
      }
    }
    if out + LastLines(data, num) == data {
      assert |out| == |AllButLast(data, num)|;
    }
  }

  // Different lines begin at different places.
  lemma StartsApart(data: seq<char>, k: nat)
    requires k < LineCount(data)
    ensures LineStart(data, k) < LineStart(data, k + 1)
  {
    var e := LineStart(data, k);
    if k <= Newlines(data) {
      StartHasCount(data, k);
    }
    assert data[..|data|] == data;
    if k == 0 {
      StartOfFile(data, k);
    }
    assert e < |data|;
    LineStartSplits(data, k + 1, e);
  }
}
