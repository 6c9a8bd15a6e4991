/** For which files tail -n +num, as written, prints the right lines. */
module TailCount {
  import opened FileLines
  import opened TailFrom
  import HeadTail

  // ---------- The search of one block ----------

  // The ends of the first k lines of a block, added up.
  function EndsAdded(block: seq<char>, k: nat): nat {
    if k == 0 then 0 else EndsAdded(block, k - 1) + LineStart(block, k)
  }

  /** What the count takes for the bytes left behind the first k lines of a block:
      the ends of all of them have been taken off. */
  function Togo(block: seq<char>, k: nat): (n: nat)
    ensures n < SIZE_T
  {
    (|block| - EndsAdded(block, k)) % 0x1_0000_0000_0000_0000
  }

  // Line k is no longer than what the count has left.
  predicate InReach(block: seq<char>, k: nat) {
    LineStart(block, k + 1) - LineStart(block, k) <= Togo(block, k)
  }

  // The newlines the search finds, k of them found already.
  function Found(block: seq<char>, left: nat, k: nat): (f: nat)
    ensures k <= f && (k <= left ==> f <= left) && (k <= Newlines(block) ==> f <= Newlines(block))
    decreases left - k
  {
    if k >= left || k >= Newlines(block) || !InReach(block, k) then k
    else Found(block, left, k + 1)
  }

  /** The search finds every newline it should exactly when each line before is in reach. */
  lemma {:induction false} FoundAllIff(block: seq<char>, left: nat, k: nat)
    requires k <= left && k <= Newlines(block)
    ensures var all := if left < Newlines(block) then left else Newlines(block);
      Found(block, left, k) == all <==> forall j: nat :: k <= j < all ==> InReach(block, j)
    decreases left - k
  {
    hide Newlines, InReach;
    if k < left && k < Newlines(block) && InReach(block, k) {
      FoundAllIff(block, left, k + 1);
    }
  }

  // Line k (from 0) ends with the next newline behind its start.
  lemma LineEnds(s: seq<char>, k: nat)
    requires k <= Newlines(s)
    ensures var e, e' := LineStart(s, k), LineStart(s, k + 1);
      if k == Newlines(s) then forall i :: e <= i < |s| ==> s[i] != '\n'
      else e < e' && s[e' - 1] == '\n' && forall i :: e <= i < e' - 1 ==> s[i] != '\n'
  {
    hide Newlines, LineStart;
    var e, e' := LineStart(s, k), LineStart(s, k + 1);
    StartHasCount(s, k);
    if k < Newlines(s) {
      StartHasCount(s, k + 1);
      assert s[..|s|] == s;
      LineStartSplits(s, k + 1, e);
    }
    forall i | e <= i < |s| && s[i] == '\n' ensures k < Newlines(s) && i >= e' - 1 {
      CountParts(s, e, i);
      HeadTail.OneMore(s, i);
      Monotone(s, i + 1);
      if i + 1 < |s| {
        LineStartSplits(s, k + 1, i + 1);
      }
    }
  }

  lemma TogoSteps(block: seq<char>, k: nat)
    requires |block| < SIZE_T
    ensures Togo(block, 0) == |block| && Togo(block, k + 1) == (Togo(block, k) - LineStart(block, k + 1)) % SIZE_T
  {
    TakenOff(|block| - EndsAdded(block, k), LineStart(block, k + 1));
  }

  lemma TakenOff(n: int, e: int)
    ensures (n % SIZE_T - e) % SIZE_T == (n - e) % SIZE_T
  {}

  // The search for the next newline.
  lemma NextFound(block: seq<char>, left: nat, k: nat)
    requires |block| < SIZE_T && k < left && k <= Newlines(block)
    ensures var at, n := LineStart(block, k), Togo(block, k);
      ScanForward(block, at, n, left - k) ==
        if k == Newlines(block) || !InReach(block, k) then (if at + n > |block| then Astray else More(left - k))
        else if k + 1 == left then Here(LineStart(block, left))
        else ScanForward(block, LineStart(block, k + 1), Togo(block, k + 1), left - (k + 1))
  {
    hide ScanForward, NewlineFrom, LineStart, Newlines, Togo;
    var at, n := LineStart(block, k), Togo(block, k);
    LineEnds(block, k);
    if n == 0 {
      ScanDone(block, at, left - k);
    } else {
      var hi := if at + n <= |block| then at + n else |block|;
      ScanStep(block, at, n, left - k);
      if k == Newlines(block) || !InReach(block, k) {
        NewlineIs(block, at, hi, hi);
      } else {
        NewlineIs(block, at, hi, LineStart(block, k + 1) - 1);
        TogoSteps(block, k);
      }
    }
  }

  // What the search of a block comes to.
  lemma {:induction false} ScanFinds(block: seq<char>, left: nat, k: nat)
    requires |block| < SIZE_T && k < left && k <= Newlines(block)
    ensures ScanForward(block, LineStart(block, k), Togo(block, k), left - k) ==
      var f := Found(block, left, k);
      if f == left then Here(LineStart(block, left))
      else if LineStart(block, f) + Togo(block, f) > |block| then Astray
      else More(left - f)
    decreases left - k
  {
    hide ScanForward, LineStart, Newlines, Togo, InReach;
    NextFound(block, left, k);
    if k < Newlines(block) && InReach(block, k) && k + 1 < left {
      ScanFinds(block, left, k + 1);
    }
  }

  lemma BlockFinds(block: seq<char>, left: nat)
    requires |block| < SIZE_T && left > 0
    ensures ScanForward(block, 0, |block|, left) ==
      var f := Found(block, left, 0);
      if f == left then Here(LineStart(block, left))
      else if LineStart(block, f) + Togo(block, f) > |block| then Astray
      else More(left - f)
  {
    hide ScanForward, LineStart, Found, Togo;
    StartOfFile(block, 0);
    TogoSteps(block, 0);
    ScanFinds(block, left, 0);
  }

  // ---------- The whole file ----------

  /** Block by block: the search either finds the last newline to skip, or it
      stays within the block, and if it misses a newline there the line asked
      for is not in the file anyway. */
  predicate Fits(rest: seq<char>, b: int, left: nat)
    requires b > 0 && left > 0 && rest != []
    decreases |rest|
  {
    var block := Block(rest, b);
    var f := Found(block, left, 0);
    f == left || (
      && LineStart(block, f) + Togo(block, f) <= |block|
      && (f < Newlines(block) ==> LineStart(rest, left) == |rest|)
      && (|block| < |rest| ==> Fits(rest[|block|..], b, left - f)))
  }

  // Looking for left - f lines behind a block with more than f newlines is looking too far.
  lemma NotBefore(block: seq<char>, more: seq<char>, left: nat, f: nat)
    requires f <= Newlines(block) && f < left && more != []
    ensures var s, e := LineStart(block + more, left), |block| + LineStart(more, left - f);
      s <= e && (f < Newlines(block) && s < |block + more| ==> s < e)
  {
    hide Newlines, LineStart;
    var rest, s, e := block + more, LineStart(block + more, left), LineStart(more, left - f);
    if e < |more| {
      LineStartSplits(more, left - f, e);
      assert rest[..|block| + e] == block + more[..e];
      CountJoined(block, more[..e]);
      LineStartSplits(rest, left, |block| + e);
    }
    if f < Newlines(block) && s < |rest| {
      var i := if s > |block| then s - |block| else 0;
      LineStartSplits(more, left - f, i);
      if i > 0 {
        LineStartSplits(rest, left, s - 1);
        CountJoined(block, more[..i]);
        assert rest[..s] == block + more[..i] && rest[..s][..s - 1] == rest[..s - 1];
        HeadTail.OneMore(rest, s - 1);
      } else {
        HeadTail.NothingBehind(more);
      }
    }
  }

  // The search never stops before the line asked for.
  lemma {:induction false} NeverEarly(rest: seq<char>, b: int, left: nat)
    requires 0 < b < SIZE_T && left > 0 && rest != [] && Rest(rest, b, left).Prints?
    ensures |Rest(rest, b, left).text| <= |rest| - LineStart(rest, left)
    decreases |rest|
  {
    hide ScanForward, LineStart, Newlines, Found, Togo;
    var block := Block(rest, b);
    var f := Found(block, left, 0);
    BlockFinds(block, left);
    if f == left {
      FoundInBlock(rest, block, left);
    } else if |block| < |rest| {
      var more := rest[|block|..];
      assert rest == block + more;
      NeverEarly(more, b, left - f);
      NotBefore(block, more, left, f);
    }
  }

  lemma FoundInBlock(rest: seq<char>, block: seq<char>, left: nat)
    requires 0 < left <= Newlines(block) && |block| <= |rest| && block == rest[..|block|]
    ensures LineStart(rest, left) == LineStart(block, left)
  {
    hide LineStart, Newlines;
    var e := LineStart(block, left);
    StartHasCount(block, left);
    if e > 0 {
      assert rest[..e] == block[..e];
      StartBehind(rest, left, e);
    } else {
      HeadTail.NothingBehind(block);
    }
  }

  /** A file is printed from the right line on exactly when it fits. */
  lemma {:induction false} RestIsRightIff(rest: seq<char>, b: int, left: nat)
    requires 0 < b < SIZE_T && left > 0 && rest != []
    ensures Rest(rest, b, left) == Prints(rest[LineStart(rest, left)..]) <==> Fits(rest, b, left)
    decreases |rest|
  {
    hide ScanForward, LineStart, Newlines, Found, Togo;
    var block := Block(rest, b);
    var f := Found(block, left, 0);
    BlockFinds(block, left);
    if f == left {
      FoundInBlock(rest, block, left);
    } else if LineStart(block, f) + Togo(block, f) <= |block| {
      if |block| < |rest| {
        MoreIsRightIff(rest, b, left, block, f);
      } else if f == Newlines(block) {
        StartBeyond(rest, left);
      }
    }
  }

  lemma {:induction false} MoreIsRightIff(rest: seq<char>, b: int, left: nat, block: seq<char>, f: nat)
    requires 0 < b < SIZE_T && rest != [] && block == Block(rest, b) && |block| < |rest|
    requires f < left && f <= Newlines(block)
    ensures Rest(rest[|block|..], b, left - f) == Prints(rest[LineStart(rest, left)..]) <==>
      (f < Newlines(block) ==> LineStart(rest, left) == |rest|) && Fits(rest[|block|..], b, left - f)
    decreases |rest|, -1
  {
    hide ScanForward, LineStart, Newlines, Rest, Fits;
    var more := rest[|block|..];
    assert rest == block + more;
    RestIsRightIff(more, b, left - f);
    if f == Newlines(block) {
      StartJoined(block, more, left);
    } else {
      NotBefore(block, more, left, f);
      if Rest(more, b, left - f).Prints? {
        NeverEarly(more, b, left - f);
      }
    }
  }

  // Two newlines to find, or blocks of one byte: the count never goes wrong.
  lemma {:induction false} FewFit(rest: seq<char>, b: int, left: nat)
    requires 0 < b < SIZE_T && left > 0 && rest != [] && (left <= 2 || b == 1)
    ensures Fits(rest, b, left)
    decreases |rest|
  {
    hide LineStart, Newlines, Togo;
    var block := Block(rest, b);
    FewFound(block, left);
    var f := Found(block, left, 0);
    if f < left && |block| < |rest| {
      FewFit(rest[|block|..], b, left - f);
    }
  }

  lemma FewFound(block: seq<char>, left: nat)
    requires 0 < |block| < SIZE_T && left > 0 && (left <= 2 || |block| == 1)
    ensures var f := Found(block, left, 0);
      && f == (if left < Newlines(block) then left else Newlines(block))
      && (f < left ==> LineStart(block, f) + Togo(block, f) <= |block|)
  {
    hide LineStart, Newlines, EndsAdded;
    StartOfFile(block, 0);
    TogoSteps(block, 0);
    if Newlines(block) > 0 {
      LineEnds(block, 0);
    }
  }

  /** tail -n +num prints from line num on exactly when there is nothing to skip
      or the file fits; for num 0 it prints nothing, where that is the whole file. */
  lemma RightOnFileIff(data: seq<char>, num: nat, b: int)
    requires 0 < b < SIZE_T
    ensures AsCoded(data, num, b) == Prints(FromLine(data, num)) <==>
      data == [] || num == 1 || (num > 1 && Fits(data, b, num - 1))
    ensures num == 0 ==> AsCoded(data, num, b) == Prints([]) && FromLine(data, num) == data
  {
    if num <= 1 {
      StartOfFile(data, num - 1);
    } else if data != [] {
      RestIsRightIff(data, b, num - 1);
    }
  }

  // ---------- Every file ----------

  function Repeat(c: char, n: int): (s: seq<char>)
    ensures |s| == (if n > 0 then n else 0) && forall i :: 0 <= i < |s| ==> s[i] == c
  {
    if n <= 0 then [] else seq(n, _ => c)
  }

  // A file on which num - 1 == skipped + 3 newlines are counted wrong.
  function Trap(b: int, skipped: nat): (s: seq<char>)
    requires b > 1
    ensures s != []
  {
    if skipped > 0 then Repeat('a', b - 1) + ['\n'] + Trap(b, skipped - 1)
    else if b == 2 then ['\n', '\n', '\n', 'x']
    else ['\n', '\n'] + Repeat('a', b - 3) + ['\n', 'x']
  }

  lemma {:induction false} TrapSprings(b: int, skipped: nat)
    requires 1 < b < SIZE_T
    ensures var s := Trap(b, skipped); Rest(s, b, skipped + 3) != Prints(s[LineStart(s, skipped + 3)..])
  {
    hide ScanForward, LineStart, Newlines, Rest;
    var s := Trap(b, skipped);
    if skipped > 0 {
      var line, more := Repeat('a', b - 1) + ['\n'], Trap(b, skipped - 1);
      assert s == line + more && s[0..0 + b] == line && s[0 + b..] == more && s[0..] == s;
      FillerScan(line, b, skipped + 3);
      RestStep(s, 0, b, skipped + 3, b);
      TrapSprings(b, skipped - 1);
      StartJoined(line, more, skipped + 3);
    } else if b == 2 {
      PairTrap(s);
    } else {
      BlockTrap(b, s);
    }
  }

  lemma FillerScan(line: seq<char>, b: int, left: nat)
    requires 1 < b < SIZE_T && left > 1 && line == Repeat('a', b - 1) + ['\n']
    ensures ScanForward(line, 0, b, left) == More(left - 1) && Newlines(line) == 1
  {
    NewlineIs(line, 0, b, b - 1);
    assert line[..b] == line && line[..0] == [];
    CountToNewline(line, 0, b - 1);
  }

  lemma PairTrap(s: seq<char>)
    requires s == ['\n', '\n', '\n', 'x']
    ensures Rest(s, 2, 3) == Overrun
  {
    hide ScanForward, NewlineFrom;
    var block := Block(s, 2);
    assert block == ['\n', '\n'];
    NewlineIs(block, 0, 2, 0);
    NewlineIs(block, 1, 2, 1);
    NewlineIs(block, 2, 2, 2);
    ScanStep(block, 0, 2, 3);
    ScanStep(block, 1, 1, 2);
    ScanStep(block, 2, SIZE_T - 1, 1);
    assert (1 - 2) % SIZE_T == SIZE_T - 1;
  }

  lemma BlockScan(b: int, block: seq<char>)
    requires 2 < b < SIZE_T && block == ['\n', '\n'] + Repeat('a', b - 3) + ['\n']
    ensures ScanForward(block, 0, b, 3) == More(1) && Newlines(block) == 3
  {
    hide ScanForward, NewlineFrom, Newlines;
    HeadTail.NothingBehind(block);
    NewlineIs(block, 0, b, 0);
    NewlineIs(block, 1, b, 1);
    NewlineIs(block, 2, b - 1, b - 1);
    ScanStep(block, 0, b, 3);
    assert ScanForward(block, 0, b, 3) == ScanForward(block, 1, b - 1, 2);
    ScanStep(block, 1, b - 1, 2);
    assert ScanForward(block, 1, b - 1, 2) == ScanForward(block, 2, b - 3, 1);
    if b > 3 {
      ScanStep(block, 2, b - 3, 1);
    } else {
      ScanDone(block, 2, 1);
    }
    CountToNewline(block, 0, 0);
    CountToNewline(block, 1, 1);
    CountToNewline(block, 2, b - 1);
    assert block[..b] == block;
  }

  lemma BlockTrap(b: int, s: seq<char>)
    requires 2 < b < SIZE_T && s == ['\n', '\n'] + Repeat('a', b - 3) + ['\n', 'x']
    ensures Rest(s, b, 3) == Prints([]) && LineStart(s, 3) == b && s[b..] == ['x']
  {
    hide ScanForward, NewlineFrom, LineStart, Newlines;
    var block, more := Block(s, b), s[b..];
    assert more == ['x'] && s[..b] == block == ['\n', '\n'] + Repeat('a', b - 3) + ['\n'];
    BlockScan(b, block);
    NewlineIs(more, 0, 1, 1);
    ScanStep(more, 0, 1, 1);
    StartBehind(s, 3, b);
  }

  /** tail -n +num prints from line num on, whatever the file, exactly when num
      is 1 to 3, or not 0 and the blocks are single bytes. */
  lemma RightOnEveryFileIff(num: nat, b: int)
    requires 0 < b < SIZE_T
    ensures (forall data :: AsCoded(data, num, b) == Prints(FromLine(data, num))) <==> num > 0 && (num <= 3 || b == 1)
  {
    if num == 0 {
      RightOnFileIff(['x'], 0, b);
      assert AsCoded(['x'], num, b) != Prints(FromLine(['x'], num));
    } else if num <= 3 || b == 1 {
      forall data ensures AsCoded(data, num, b) == Prints(FromLine(data, num)) {
        RightOnFileIff(data, num, b);
        if data != [] && num > 1 {
          FewFit(data, b, num - 1);
        }
      }
    } else {
      var s := Trap(b, num - 4);
      TrapSprings(b, num - 4);
      assert AsCoded(s, num, b) != Prints(FromLine(s, num));
    }
  }

  /** head -n num and tail -n +(num + 1) cut a file in two exactly when the latter is right. */
  lemma HeadAndFromPartitionIff(data: seq<char>, num: nat, b: int)
    requires 0 < b < SIZE_T
    ensures var out := AsCoded(data, num + 1, b);
      out.Prints? && FirstLines(data, num) + out.text == data <==> data == [] || num == 0 || Fits(data, b, num)
  {
    hide LineStart, Fits, AsCoded;
    RightOnFileIff(data, num + 1, b);
    var out, e := AsCoded(data, num + 1, b), LineStart(data, num);
    if out.Prints? {
      assert (data[..e] + out.text)[e..] == out.text;
      assert data[..e] + data[e..] == data;
    }
  }
}
