/** cat's line number: a decimal counter kept as text in a twenty-byte buffer. */
module LineNumber {

  function Pow10(n: nat): (p: nat)
    ensures p > 0
  {
    if n == 0 then 1 else 10 * Pow10(n - 1)
  }

  function Digit(d: int): (c: char)
    requires 0 <= d < 10
    ensures '0' <= c <= '9' && c as int == d + 48
  {
    (d + 48) as char
  }

  // The last w decimal digits of k.
  function Dec(k: nat, w: nat): (s: seq<char>)
    ensures |s| == w && forall i :: 0 <= i < w ==> '0' <= s[i] <= '9'
  {
    if w == 0 then [] else Dec(k / 10, w - 1) + [Digit(k % 10)]
  }

  // k in decimal.
  function Decimal(k: nat): (s: seq<char>)
    ensures |s| > 0 && forall i :: 0 <= i < |s| ==> '0' <= s[i] <= '9'
  {
    if k < 10 then [Digit(k)] else Decimal(k / 10) + [Digit(k % 10)]
  }

  function Value(s: seq<char>): nat
    requires forall i :: 0 <= i < |s| ==> '0' <= s[i] <= '9'
  {
    if s == [] then 0 else 10 * Value(s[..|s| - 1]) + (s[|s| - 1] as int - 48)
  }

  /** Decimal text reads back as the number and has no leading zero. */
  lemma {:induction false} DecimalReadsBack(k: nat)
    ensures Value(Decimal(k)) == k && (k > 0 ==> Decimal(k)[0] != '0')
  {
    if k >= 10 {
      DecimalReadsBack(k / 10);
      assert Decimal(k)[..|Decimal(k)| - 1] == Decimal(k / 10);
    } else {
      assert Decimal(k)[..0] == [];
    }
  }

  lemma {:induction false} DecIsDecimal(k: nat, w: nat)
    requires w > 0 && k < Pow10(w) && (w > 1 ==> k >= Pow10(w - 1))
    ensures Dec(k, w) == Decimal(k)
  {
    if w > 1 {
      assert k >= 10 * Pow10(w - 2);
      DecIsDecimal(k / 10, w - 1);
    } else {
      assert Pow10(1) == 10 * Pow10(0) == 10;
      assert Dec(k / 10, 0) == [];
    }
  }

  // Adding one with carries, the way next_line_num does it.
  function Inc(s: seq<char>): (r: seq<char>)
    ensures |r| == |s|
  {
    if s == [] then []
    else if s[|s| - 1] < '9' then s[..|s| - 1] + [(s[|s| - 1] as int + 1) as char]
    else Inc(s[..|s| - 1]) + ['0']
  }

  predicate Nines(s: seq<char>) {
    forall i :: 0 <= i < |s| ==> s[i] >= '9'
  }

  function Zeros(n: nat): (s: seq<char>)
    ensures |s| == n && forall i :: 0 <= i < n ==> s[i] == '0'
  {
    seq(n, _ => '0')
  }

  lemma {:induction false} IncCarries(s: seq<char>, e: int)
    requires -1 <= e < |s| && (e >= 0 ==> s[e] < '9') && forall j :: e < j < |s| ==> s[j] >= '9'
    ensures Inc(s) == if e < 0 then Zeros(|s|) else s[..e] + [(s[e] as int + 1) as char] + Zeros(|s| - 1 - e)
  {
    var n := |s| - 1;
    if n > e {
      var p := s[..n];
      IncCarries(p, e);
      assert e >= 0 ==> p[..e] == s[..e];
      assert Zeros(n) + ['0'] == Zeros(n + 1) && Zeros(|p| - 1 - e) + ['0'] == Zeros(n - e);
    }
  }

  lemma {:induction false} IncAddsOne(k: nat, w: nat)
    ensures Inc(Dec(k, w)) == Dec(k + 1, w)
  {
    hide Inc;
    if w > 0 {
      IncAddsOne(k / 10, w - 1);
      IncLast(Dec(k / 10, w - 1), k % 10);
      NextDigit(k);
    }
  }

  lemma IncLast(s: seq<char>, d: int)
    requires 0 <= d < 10
    ensures Inc(s + [Digit(d)]) == if d == 9 then Inc(s) + [Digit(0)] else s + [Digit(d + 1)]
  {
    assert (s + [Digit(d)])[..|s|] == s;
  }

  lemma NextDigit(k: nat)
    ensures if k % 10 == 9 then (k + 1) / 10 == k / 10 + 1 && (k + 1) % 10 == 0
            else (k + 1) / 10 == k / 10 && (k + 1) % 10 == k % 10 + 1
  {}

  lemma {:induction false} NinesAreFull(k: nat, w: nat)
    requires k < Pow10(w)
    ensures Nines(Dec(k, w)) <==> k + 1 == Pow10(w)
  {
    if w > 0 {
      NinesAreFull(k / 10, w - 1);
      var s, p := Dec(k, w), Dec(k / 10, w - 1);
      assert s == p + [Digit(k % 10)] && s[w - 1] == Digit(k % 10);
      assert Nines(s) <==> Nines(p) && k % 10 == 9 by {
        assert forall i :: 0 <= i < w - 1 ==> p[i] == s[i];
      }
    }
  }

  lemma {:induction false} DecOfPow10(w: nat)
    ensures Dec(Pow10(w), w + 1) == ['1'] + Dec(Pow10(w), w) && Dec(Pow10(w), w) == Zeros(w)
  {
    if w > 0 {
      DecOfPow10(w - 1);
      assert Pow10(w) / 10 == Pow10(w - 1) && Pow10(w) % 10 == 0;
      assert ['1'] + Dec(Pow10(w - 1), w - 1) + ['0'] == ['1'] + (Dec(Pow10(w - 1), w - 1) + ['0']);
    } else {
      assert Pow10(0) == 1 && Dec(1, 1) == Dec(0, 0) + [Digit(1)];
    }
  }

  lemma {:induction false} DecTail(k: nat, w: nat)
    ensures Dec(k, w + 1)[1..] == Dec(k, w)
  {
    if w > 0 {
      DecTail(k / 10, w - 1);
      assert Dec(k, w + 1) == Dec(k / 10, w) + [Digit(k % 10)];
    }
  }

  const LAST := 1_000_000_000_000_000_000  // ten to the eighteenth

  function Spaces(n: int): (s: seq<char>)
    ensures |s| == (if n > 0 then n else 0) && forall i :: 0 <= i < |s| ==> s[i] == ' '
  {
    if n <= 0 then [] else seq(n, _ => ' ')
  }

  /** What cat prints before line k: k in decimal, padded with blanks to six
      columns, and a tab.  From LAST on only the last seventeen digits fit, behind a mark. */
  function NumberText(k: nat): (s: seq<char>)
    ensures |s| > 0 && '\0' !in s
  {
    if k < LAST then Spaces(6 - |Decimal(k)|) + Decimal(k) + ['\t']
    else ['>'] + Dec(k, 17) + ['\t']
  }

  lemma LastIs()
    ensures Pow10(18) == LAST && Pow10(17) == 100_000_000_000_000_000
  {
    assert Pow10(6) == 10 * (10 * (10 * (10 * (10 * (10 * Pow10(0))))));
    assert Pow10(12) == 10 * (10 * (10 * (10 * (10 * (10 * Pow10(6))))));
    assert Pow10(18) == 10 * (10 * (10 * (10 * (10 * (10 * Pow10(12))))));
  }

  class LineCounter {
    const lineBuf: array<char>
    var lineNumPrint: int
    var lineNumStart: int
    ghost var count: nat  // calls of NextLineNum so far

    // The digits in the buffer are the count, or its last ones behind a mark.
    ghost predicate Holds(k: nat)
      requires 0 <= lineNumStart <= 17 && lineBuf.Length == 20
      reads this, lineBuf
    {
      Shows(lineBuf[lineNumStart..18], k)
    }

    ghost predicate Valid()
      reads this, lineBuf
    {
      && lineBuf.Length == 20 && 0 <= lineNumStart <= 17
      && lineNumPrint == (if lineNumStart < 12 then lineNumStart else 12)
      && (forall j :: 0 <= j < lineNumStart ==> lineBuf[j] == ' ')
      && lineBuf[18] == '\t' && lineBuf[19] == '\0'
      && Holds(count)
    }

    constructor ()
      ensures Valid() && count == 0 && fresh(lineBuf)
    {
      lineBuf := new char[20](i => if i == 17 then '0' else if i == 18 then '\t' else if i == 19 then '\0' else ' ');
      lineNumPrint, lineNumStart, count := 12, 17, 0;
      new;
      assert Pow10(1) == 10 * Pow10(0) && Dec(0, 1) == Dec(0, 0) + [Digit(0)];
      assert lineBuf[17..18] == ['0'];
    }

    /** What would be printed is exactly the number's text. */
    lemma Printed()
      requires Valid()
      ensures lineBuf[lineNumPrint..19] == NumberText(count) && |NumberText(count)| <= 19
    {
      hide Shows, NumberText;
      assert lineBuf[lineNumPrint..19] == Spaces(lineNumStart - 12) + lineBuf[lineNumStart..18] + ['\t'];
      ShownText(lineBuf[lineNumStart..18], count);
    }

    method NextLineNum()
      requires Valid()
      modifies lineBuf, this
      ensures Valid() && count == old(count) + 1
    {
      hide Shows, Inc, Nines, Dec;
      ghost var was, start := lineBuf[..], lineNumStart;
      assert lineBuf[start..18] == was[start..18];
      var endp := 17;
      while endp >= lineNumStart
        modifies lineBuf
        invariant start - 1 <= endp <= 17
        invariant forall j :: endp < j <= 17 ==> lineBuf[j] == '0' && was[j] >= '9'
        invariant forall j :: 0 <= j <= endp || 17 < j < 20 ==> lineBuf[j] == was[j]
      {
        var digit := lineBuf[endp];
        if digit < '9' {
          lineBuf[endp] := (digit as int + 1) as char;
          break;
        }
        lineBuf[endp] := '0';
        endp := endp - 1;
      }
      count := count + 1;
      if endp >= lineNumStart {
        Stopped(was, lineBuf[..], start, endp, old(count));
        assert lineBuf[start..18] == lineBuf[..][start..18];
        return;
      }
      if lineNumStart > 0 {
        lineNumStart := lineNumStart - 1;
        lineBuf[lineNumStart] := '1';
      } else {
        lineBuf[0] := '>';
      }
      if lineNumStart < lineNumPrint {
        lineNumPrint := lineNumPrint - 1;
      }
      Overflowed(was, lineBuf[..], start, lineNumStart, old(count));
      assert lineBuf[lineNumStart..18] == lineBuf[..][lineNumStart..18];
    }
  }

  // The digits s show k.
  ghost predicate Shows(s: seq<char>, k: nat) {
    && 1 <= |s| <= 18
    && if k < LAST then s == Dec(k, |s|) && k < Pow10(|s|) && (|s| > 1 ==> k >= Pow10(|s| - 1))
       else |s| == 18 && s == ['>'] + Dec(k, 17)
  }

  lemma ShownText(s: seq<char>, k: nat)
    requires Shows(s, k)
    ensures Spaces(6 - |s|) + s + ['\t'] == NumberText(k)
  {
    if k < LAST {
      DecIsDecimal(k, |s|);
    }
  }

  // The carry stops at e.
  lemma Stopped(was: seq<char>, now: seq<char>, start: int, e: int, k: nat)
    requires |was| == |now| == 20 && 0 <= start <= e <= 17 && was[e] < '9' && now[e] == (was[e] as int + 1) as char
    requires forall j :: 0 <= j < e ==> now[j] == was[j]
    requires forall j :: e < j <= 17 ==> was[j] >= '9' && now[j] == '0'
    requires Shows(was[start..18], k)
    ensures Shows(now[start..18], k + 1)
  {
    hide Shows, Inc, Nines;
    var s, r, d := was[start..18], now[start..18], e - start;
    forall j | 0 <= j < |s| ensures s[j] == was[start + j] && r[j] == now[start + j] {}
    CarriedTo(s, r, d);
    ShowsNext(s, k);
  }

  lemma CarriedTo(s: seq<char>, r: seq<char>, e: int)
    requires |r| == |s| && 0 <= e < |s| && s[e] < '9' && r[e] == (s[e] as int + 1) as char
    requires forall j :: 0 <= j < e ==> r[j] == s[j]
    requires forall j :: e < j < |s| ==> s[j] >= '9' && r[j] == '0'
    ensures r == Inc(s) && !Nines(s)
  {
    hide Inc;
    IncCarries(s, e);
    var tail := Zeros(|s| - 1 - e);
    assert forall j :: e < j < |s| ==> r[j] == tail[j - e - 1];
    assert r == s[..e] + [r[e]] + tail;
  }

  // The carry runs through all digits.
  lemma Overflowed(was: seq<char>, now: seq<char>, start: int, newStart: int, k: nat)
    requires |was| == |now| == 20 && 0 <= start <= 17 && newStart == (if start > 0 then start - 1 else 0)
    requires forall j :: start <= j <= 17 ==> was[j] >= '9'
    requires forall j :: newStart < j <= 17 ==> now[j] == '0'
    requires now[newStart] == if start > 0 then '1' else '>'
    requires Shows(was[start..18], k)
    ensures Shows(now[newStart..18], k + 1)
  {
    hide Shows;
    var s, r := was[start..18], now[newStart..18];
    forall j | 0 <= j < |s| ensures s[j] >= '9' {
      assert s[j] == was[start + j];
    }
    forall j | 0 < j < |r| ensures r[j] == '0' {
      assert r[j] == now[newStart + j];
    }
    ShowsWider(s, k, r);
  }

  lemma ShowsNext(s: seq<char>, k: nat)
    requires Shows(s, k) && !Nines(s)
    ensures Shows(Inc(s), k + 1)
  {
    LastIs();
    if k < LAST {
      IncAddsOne(k, |s|);
      NinesAreFull(k, |s|);
      Wide(|s|);
    } else {
      IncAddsOne(k, 17);
      IncBehind('>', Dec(k, 17));
    }
  }

  lemma {:induction false} Wide(w: nat)
    requires w <= 18
    ensures Pow10(w) <= Pow10(18)
    decreases 18 - w
  {
    if w < 18 {
      Wide(w + 1);
    }
  }

  // A mark in front is not touched unless all digits carry.
  lemma {:induction false} IncBehind(c: char, d: seq<char>)
    requires c >= '9' && !Nines([c] + d)
    ensures Inc([c] + d) == [c] + Inc(d)
  {
    var s, n := [c] + d, |d|;
    if n > 0 {
      assert s[n] == d[n - 1] && s[..n] == [c] + d[..n - 1];
      if d[n - 1] >= '9' {
        assert !Nines([c] + d[..n - 1]) by {
          assert forall i :: 0 <= i < n ==> s[..n][i] == s[i];
        }
        IncBehind(c, d[..n - 1]);
      }
    }
  }

  // All digits carried: one more digit, or the mark.
  lemma ShowsWider(s: seq<char>, k: nat, r: seq<char>)
    requires Shows(s, k) && Nines(s) && 1 <= |s| <= 18
    requires |r| == (if |s| < 18 then |s| + 1 else 18) && r[0] == if |s| < 18 then '1' else '>'
    requires forall j :: 0 < j < |r| ==> r[j] == '0'
    ensures Shows(r, k + 1)
  {
    hide Shows, Nines, Inc, Dec, Pow10;
    assert r == [r[0]] + Zeros(|r| - 1);
    if k < LAST {
      DigitMore(s, k, r);
    } else {
      MarkStays(s, k, r);
    }
  }

  // One digit more, or the mark once there is no room for one.
  lemma DigitMore(s: seq<char>, k: nat, r: seq<char>)
    requires Shows(s, k) && Nines(s) && k < LAST
    requires if |s| < 18 then r == ['1'] + Zeros(|s|) else r == ['>'] + Zeros(17)
    ensures Shows(r, k + 1)
  {
    hide Dec, Nines;
    LastIs();
    NinesAreFull(k, |s|);
    DecOfPow10(|s|);
    if |s| < 18 {
      Wide(|s| + 1);
    } else {
      DecTail(k + 1, 17);
      assert Zeros(18)[1..] == Zeros(17);
    }
  }

  lemma MarkStays(s: seq<char>, k: nat, r: seq<char>)
    requires Shows(s, k) && Nines(s) && k >= LAST && (|s| == 18 ==> r == ['>'] + Zeros(17))
    ensures Shows(r, k + 1)
  {
    hide Inc, Pow10;
    var d := Dec(k, 17);
    IncAddsOne(k, 17);
    forall j | 0 <= j < 17 ensures d[j] >= '9' {
      assert d[j] == s[j + 1];
    }
    IncCarries(d, -1);
  }
}
