/** chmod's mode-list interpreter: clauses over the permission bits of user, group and others. */
module Chmod {

  import opened Wrappers

  // A mask is the set of the positions of its one-bits: | is union and & ~ is difference.
  type Mask = set<nat>

  // MODE_BIT: read, write and execute of the three groups and two set-id bits, but not the sticky bit 9.
  const MODE_BIT: Mask := {0, 1, 2, 3, 4, 5, 6, 7, 8, 10, 11}

  // modes[i][j] for user, group and others: read, write, execute, set-id; others have no set-id bit.
  function Mode(i: int, j: int): (p: int)
    requires 0 <= i < 3 && 0 <= j < 4
    ensures if i == 2 && j == 3 then p == -1 else p in MODE_BIT
  {
    if j < 3 then 8 - 3 * i - j else if i < 2 then 11 - i else -1
  }

  // Whose bit it is, and which.
  function GroupOf(p: nat): (i: int)
    requires p in MODE_BIT
    ensures 0 <= i < 3
  {
    if p >= 10 then 11 - p else 2 - p / 3
  }

  function PermOf(p: nat): (j: int)
    requires p in MODE_BIT
    ensures 0 <= j < 4
  {
    if p >= 10 then 3 else 2 - p % 3
  }

  lemma ModeIs(i: int, j: int)
    requires 0 <= i < 3 && 0 <= j < 4 && (i, j) != (2, 3)
    ensures GroupOf(Mode(i, j)) == i && PermOf(Mode(i, j)) == j
  {}

  lemma PlaceIs(p: nat)
    requires p in MODE_BIT
    ensures Mode(GroupOf(p), PermOf(p)) == p && (GroupOf(p), PermOf(p)) != (2, 3)
  {}

  // The first n of group i's bits in a mode.
  function Gathered(mode: Mask, i: int, n: nat): Mask
    requires 0 <= i < 3 && n <= 4
  {
    set j: nat | 0 <= j < n && Mode(i, j) in mode
  }

  function Gather(mode: Mask): (r: seq<Mask>)
    ensures |r| == 3
  {
    [Gathered(mode, 0, 4), Gathered(mode, 1, 4), Gathered(mode, 2, 4)]
  }

  // The mode with the bits of the groups put in.
  function Scatter(mode: Mask, bits: seq<Mask>): Mask
    requires |bits| == 3
  {
    (mode - MODE_BIT) + set p | p in MODE_BIT && PermOf(p) in bits[GroupOf(p)]
  }

  predicate IsOctal(c: char) { '0' <= c < '8' }
  predicate IsOp(c: char) { c == '+' || c == '-' || c == '=' }

  const WHO := ['u', 'g', 'o']
  const MC := ['r', 'w', 'x', 's']

  function Index(ar: seq<char>, c: char): (i: int)
    ensures -1 <= i < |ar| && (i >= 0 ==> ar[i] == c) && (i == -1 ==> c !in ar)
  {
    if ar == [] then -1 else if ar[0] == c then 0
    else var i := Index(ar[1..], c); if i < 0 then -1 else i + 1
  }

  // One operator on one group: '=' puts m, '+' adds it, '-' takes it away.
  function Change(op: char, b: Mask, m: Mask): Mask
    requires IsOp(op)
  {
    if op == '=' then m else if op == '-' then b - m else b + m
  }

  function OctalDigit(c: char): Mask
    requires IsOctal(c)
  {
    (if c in "1357" then {0} else {}) + (if c in "2367" then {1} else {}) + (if c in "4567" then {2} else {})
  }

  // The bits of an octal number.
  function Octal(s: seq<char>): Mask
    requires forall i :: 0 <= i < |s| ==> IsOctal(s[i])
  {
    if s == [] then {} else Times8(Octal(s[..|s| - 1])) + OctalDigit(s[|s| - 1])
  }

  function Times8(m: Mask): Mask {
    set p | p in m :: p + 3
  }

  function Letters(s: seq<char>): Mask
    requires forall i :: 0 <= i < |s| ==> s[i] in MC
  {
    if s == [] then {} else Letters(s[..|s| - 1]) + {Index(MC, s[|s| - 1])}
  }

  function LastOp(s: seq<char>): (p: int)
    ensures -1 <= p < |s| && (p >= 0 ==> IsOp(s[p])) && forall i :: p < i < |s| ==> !IsOp(s[i])
  {
    if s == [] then -1 else if IsOp(s[|s| - 1]) then |s| - 1 else LastOp(s[..|s| - 1])
  }

  // The groups a clause is for; nobody named means everybody.
  predicate Targets(before: seq<char>, i: int)
    requires 0 <= i < 3
  {
    before == [] || 'a' in before || WHO[i] in before
  }

  predicate NoTargets(before: seq<char>) {
    forall i :: 0 <= i < 3 ==> !Targets(before, i)
  }

  function ForTargets(before: seq<char>, op: char, bits: seq<Mask>, m: Mask): (r: seq<Mask>)
    requires IsOp(op) && |bits| == 3
    ensures |r| == 3
  {
    seq(3, i requires 0 <= i < 3 => if Targets(before, i) then Change(op, bits[i], m) else bits[i])
  }

  // What an octal clause does.
  function OctalChange(op: char, bits: seq<Mask>, m: Mask): (r: seq<Mask>)
    requires IsOp(op) && |bits| == 3
    ensures |r| == 3
  {
    seq(3, i requires 0 <= i < 3 => Change(op, bits[i], Gathered(m, i, 4)))
  }

  /** What a clause does to the bits; None if it is not valid.  Only the last
      operator of a clause counts. */
  function Clause(c: seq<char>, bits: seq<Mask>): (r: Option<seq<Mask>>)
    requires |bits| == 3
    ensures r.Some? ==> |r.value| == 3
  {
    var p := LastOp(c);
    if p < 0 then None else
    var before, op, perms := c[..p], c[p], c[p + 1..];
    if perms == [] then Some(ForTargets(before, op, bits, {}))
    else if IsOctal(perms[0]) then
      if before == [] && forall i :: 0 <= i < |perms| ==> IsOctal(perms[i])
      then Some(OctalChange(op, bits, Octal(perms))) else None
    else if perms[0] in WHO then
      if |perms| == 1 then Some(ForTargets(before, op, bits, bits[Index(WHO, perms[0])])) else None
    else if perms[0] in MC then
      if forall i :: 0 <= i < |perms| ==> perms[i] in MC then Some(ForTargets(before, op, bits, Letters(perms)))
      else None
    else
      // A stray letter is noticed when there is a group to apply it to.
      if NoTargets(before) && forall i :: 0 < i < |perms| - 1 ==> perms[i] !in WHO then Some(bits) else None
  }

  function FirstClause(s: seq<char>): (n: nat)
    ensures n <= |s| && ',' !in s[..n] && (n < |s| ==> s[n] == ',')
  {
    if s == [] || s[0] == ',' then 0 else
    assert s[..1 + FirstClause(s[1..])] == [s[0]] + s[1..][..FirstClause(s[1..])];
    1 + FirstClause(s[1..])
  }

  function Clauses(s: seq<char>, bits: seq<Mask>): (r: Option<seq<Mask>>)
    requires |bits| == 3
    ensures r.Some? ==> |r.value| == 3
    decreases |s|
  {
    var n := FirstClause(s);
    match Clause(s[..n], bits)
    case None => None
    case Some(b) => if n == |s| then Some(b) else Clauses(s[n + 1..], b)
  }

  /** The mode chmod gives a file of this mode; None for an invalid list. */
  function NewMode(list: seq<char>, mode: Mask): Option<Mask> {
    match Clauses(list, Gather(mode))
    case None => None
    case Some(bits) => Some(Scatter(mode, bits))
  }

  // get_idx.
  method GetIdx(ar: seq<char>, c: char) returns (idx: int)
    ensures idx == Index(ar, c)
  {
    var i := 0;
    while i < |ar|
      invariant 0 <= i <= |ar|
      invariant Index(ar, c) == if Index(ar[i..], c) < 0 then -1 else i + Index(ar[i..], c)
    {
      if ar[i] == c {
        return i;
      }
      i := i + 1;
    }
    idx := -1;
  }

  // search.
  method Search(s: seq<char>, c: char) returns (found: bool)
    ensures found <==> c in s
  {
    var st := 0;
    while st < |s| && s[st] != c
      invariant 0 <= st <= |s| && c !in s[..st]
    {
      st := st + 1;
    }
    found := st < |s|;
  }

  // string2octal.
  method String2Octal(s: seq<char>) returns (sum: Option<Mask>)
    ensures sum == if forall i :: 0 <= i < |s| ==> IsOctal(s[i]) then Some(Octal(s)) else None
  {
    var i: int, n: Mask := 0, {};
    while i < |s| && IsOctal(s[i])
      invariant 0 <= i <= |s| && (forall k :: 0 <= k < i ==> IsOctal(s[k])) && n == Octal(s[..i])
    {
      assert s[..i + 1][..i] == s[..i];
      n := Times8(n) + OctalDigit(s[i]);
      i := i + 1;
    }
    assert s[..|s|] == s;
    return if i < |s| then None else Some(n);
  }

  // The character a pointer to position i of the clause sees; behind it is a comma or the end of the string.
  function At(c: seq<char>, i: int): char
    requires 0 <= i
  {
    if i < |c| then c[i] else '\0'
  }

  method OctalClause(c: seq<char>, bits: array<Mask>, op: int) returns (ok: bool)
    requires bits.Length == 3 && op == LastOp(c) >= 0 && IsOctal(At(c, op + 1))
    modifies bits
    ensures Clause(c, old(bits[..])) == if ok then Some(bits[..]) else None
  {
    hide LastOp, Octal;
    ghost var before, perms := c[..op], c[op + 1..];
    assert perms[0] == At(c, op + 1) && (before == [] <==> op == 0);
    if op != 0 {
      return false;
    }
    var m := String2Octal(c[op + 1..]);
    if m.None? {
      return false;
    }
    OctalBits(bits, c[op], m.value);
    ok := true;
  }

  method OctalBits(bits: array<Mask>, op: char, m: Mask)
    requires bits.Length == 3 && IsOp(op)
    modifies bits
    ensures bits[..] == OctalChange(op, old(bits[..]), m)
  {
    hide Gathered;
    for i := 0 to 3
      invariant forall k :: 0 <= k < 3 ==>
        bits[k] == if k < i then Change(op, old(bits[k]), Gathered(m, k, 4)) else old(bits[k])
    {
      OctalGroup(bits, op, m, i);
    }
  }

  method OctalGroup(bits: array<Mask>, op: char, m: Mask, i: int)
    requires bits.Length == 3 && IsOp(op) && 0 <= i < 3
    modifies bits
    ensures bits[i] == Change(op, old(bits[i]), Gathered(m, i, 4))
    ensures forall k :: 0 <= k < 3 && k != i ==> bits[k] == old(bits[k])
  {
    hide Mode;
    if op == '=' {
      bits[i] := {};
    }
    for j := 0 to 4
      invariant forall k :: 0 <= k < 3 && k != i ==> bits[k] == old(bits[k])
      invariant bits[i] == Change(op, old(bits[i]), Gathered(m, i, j))
    {
      assert Gathered(m, i, j + 1) == Gathered(m, i, j) + if Mode(i, j) in m then {j} else {};
      if Mode(i, j) in m {
        if op == '-' {
          bits[i] := bits[i] - {j};
        } else {
          bits[i] := bits[i] + {j};
        }
      }
    }
  }

  // all_flag and the who loop.
  method Flags(c: seq<char>, op: int) returns (flags: array<bool>)
    requires 0 <= op < |c|
    ensures fresh(flags) && flags.Length == 3 && forall i :: 0 <= i < 3 ==> (flags[i] <==> Targets(c[..op], i))
  {
    flags := new bool[3];
    var all := Search(c[..op], 'a');
    if op == 0 {
      all := true;
    }
    for i := 0 to 3
      invariant forall k :: 0 <= k < i ==> (flags[k] <==> Targets(c[..op], k))
    {
      var named := Search(c[..op], WHO[i]);
      flags[i] := named || all;
    }
  }

  // The loop that applies m; mode_error if there is a group and ch is no operator.
  method Apply(bits: array<Mask>, flags: array<bool>, ch: char, m: Mask) returns (ok: bool)
    requires bits.Length == flags.Length == 3
    modifies bits
    ensures ok <==> IsOp(ch) || forall k :: 0 <= k < 3 ==> !flags[k]
    ensures ok ==> forall k :: 0 <= k < 3 ==>
      bits[k] == if flags[k] && IsOp(ch) then Change(ch, old(bits[k]), m) else old(bits[k])
  {
    for i := 0 to 3
      invariant IsOp(ch) || forall k :: 0 <= k < i ==> !flags[k]
      invariant forall k :: 0 <= k < 3 ==>
        bits[k] == if k < i && flags[k] then Change(ch, old(bits[k]), m) else old(bits[k])
    {
      if flags[i] {
        if ch == '=' {
          bits[i] := m;
        } else if ch == '-' {
          bits[i] := bits[i] - m;
        } else if ch == '+' {
          bits[i] := bits[i] + m;
        } else {
          return false;
        }
      }
    }
    ok := true;
  }

  lemma NoLetters(s: seq<char>)
    ensures Letters(s[..0]) == {}
  {}

  lemma LettersMore(s: seq<char>, i: nat)
    requires i < |s| && forall k :: 0 <= k <= i ==> s[k] in MC
    ensures Letters(s[..i + 1]) == Letters(s[..i]) + {Index(MC, s[i])}
  {
    assert s[..i + 1][..i] == s[..i];
  }

  // What follows the operator begins with a stray letter, and the next ones have not named a group.
  predicate StrayFrom(perms: seq<char>, k: int) {
    && 0 < k <= |perms| && !IsOctal(perms[0]) && perms[0] !in MC
    && forall i :: 0 <= i < k ==> perms[i] !in WHO
  }

  // The loop below ends after the first round, or after rounds over stray letters that no group wanted.
  lemma FirstRoundEnds(c: seq<char>, op: int, bits: seq<Mask>, m: Mask)
    requires op == LastOp(c) >= 0 && |bits| == 3 && !IsOctal(At(c, op + 1))
    requires var perms := c[op + 1..];
      || (perms == [] && m == {})
      || (|perms| == 1 && perms[0] in WHO && m == bits[Index(WHO, perms[0])])
      || (perms != [] && (forall i :: 0 <= i < |perms| ==> perms[i] in MC) && m == Letters(perms))
    ensures Clause(c, bits) == Some(ForTargets(c[..op], c[op], bits, m))
  {}

  lemma StrayRoundsEnd(c: seq<char>, op: int, bits: seq<Mask>)
    requires op == LastOp(c) >= 0 && |bits| == 3 && NoTargets(c[..op]) && |c| - op > 1
    requires var perms := c[op + 1..];
      && !IsOctal(perms[0]) && perms[0] !in MC && perms[0] !in WHO
      && forall i :: 0 < i < |perms| - 1 ==> perms[i] !in WHO
    ensures Clause(c, bits) == Some(bits)
  {}

  lemma NotCopied(c: seq<char>, op: int, bits: seq<Mask>, k: int)
    requires op == LastOp(c) >= 0 && |bits| == 3
    requires var perms := c[op + 1..];
      && 0 <= k < |perms| - 1 && perms[k] in WHO && (k > 0 ==> StrayFrom(perms, k))
    ensures Clause(c, bits) == None
  {}

  lemma NotAllLetters(c: seq<char>, op: int, bits: seq<Mask>, i: int)
    requires op == LastOp(c) >= 0 && |bits| == 3
    requires var perms := c[op + 1..];
      0 <= i < |perms| && perms[i] !in MC && perms[0] in MC
    ensures Clause(c, bits) == None
  {}

  lemma StrayIsNoticed(c: seq<char>, op: int, bits: seq<Mask>)
    requires op == LastOp(c) >= 0 && |bits| == 3 && !NoTargets(c[..op]) && StrayFrom(c[op + 1..], 1)
    ensures Clause(c, bits) == None
  {}

  // The permission letters behind the last operator op; if one is not known, where it stands.
  method ReadLetters(c: seq<char>, op: int) returns (known: bool, op2: int, m: Mask)
    requires op == LastOp(c) >= 0 && At(c, op + 1) in MC
    ensures known ==> op2 == |c| && (forall x :: x in c[op + 1..] ==> x in MC) && m == Letters(c[op + 1..])
    ensures !known ==> op < op2 < |c| && c[op2] !in MC
  {
    hide LastOp, Letters, Index;
    ghost var perms := c[op + 1..];
    NoLetters(perms);
    m, op2, known := {}, op + 1, true;
    while op2 != |c| && !IsOp(c[op2])
      invariant op < op2 <= |c|
      invariant forall j :: 0 <= j < op2 - op - 1 ==> perms[j] in MC
      invariant m == Letters(perms[..op2 - op - 1])
    {
      assert c[op2] == perms[op2 - op - 1];
      var idx := GetIdx(MC, c[op2]);
      if idx == -1 {
        return false, op2, m;
      }
      LettersMore(perms, op2 - op - 1);
      m := m + {idx};
      op2 := op2 + 1;
    }
    assert perms[..|perms|] == perms;
  }

  // The operators on the groups named, with their permissions: what follows the last operator op.
  method SymbolicClause(c: seq<char>, bits: array<Mask>, op: int) returns (ok: bool)
    requires bits.Length == 3 && op == LastOp(c) >= 0 && !IsOctal(At(c, op + 1))
    modifies bits
    ensures ok ==> Clause(c, old(bits[..])) == Some(bits[..])
    ensures !ok ==> Clause(c, old(bits[..])) == None
  {
    hide LastOp, Letters, Index, Clause;
    ghost var before, perms, bits0 := c[..op], c[op + 1..], bits[..];
    var flags := Flags(c, op);
    assert perms != [] ==> perms[0] == At(c, op + 1);
    var op2, end := op, |c|;
    while op2 < end
      modifies bits
      invariant op <= op2 <= end
      invariant op2 == op ==> bits[..] == bits0
      invariant op2 == end ==> Clause(c, bits0) == Some(bits[..])
      invariant op < op2 < end ==> StrayFrom(perms, op2 - op) && (NoTargets(before) ==> bits[..] == bits0)
      decreases end - op2
    {
      var m: Mask, ch := {}, c[op2];
      ghost var k, b := op2 - op, bits[..];
      assert At(c, op2 + 1) == if k < |perms| then perms[k] else '\0';
      var idx := GetIdx(WHO, At(c, op2 + 1));
      if idx != -1 {
        if op2 + 2 < end {
          NotCopied(c, op, bits0, k);
          return false;
        }
        m := bits[idx];
        op2 := op2 + 2;
      } else if At(c, op + 1) in MC {
        var known;
        known, op2, m := ReadLetters(c, op);
        if !known {
          NotAllLetters(c, op, bits0, op2 - op - 1);
          return false;
        }
      } else {
        op2 := op2 + 1;
      }
      ok := Apply(bits, flags, ch, m);
      assert forall i :: 0 <= i < 3 ==> (flags[i] <==> Targets(before, i));
      if !ok {
        StrayIsNoticed(c, op, bits0);
        return;
      }
      assert perms[..|perms|] == perms;
      if k == 0 {
        assert bits[..] == ForTargets(before, ch, bits0, m);
        if op2 == end {
          FirstRoundEnds(c, op, bits0, m);
        }
      } else {
        assert bits[..] == b && NoTargets(before);
        if op2 == end {
          StrayRoundsEnd(c, op, bits0);
        }
      }
    }
    ok := true;
  }

  lemma {:induction false} FirstClauseIs(s: seq<char>, n: nat)
    requires n <= |s| && ',' !in s[..n] && (n < |s| ==> s[n] == ',')
    ensures FirstClause(s) == n
  {
    if n > 0 {
      assert s[0] == s[..n][0] && s[1..][..n - 1] == s[..n][1..];
      FirstClauseIs(s[1..], n - 1);
    }
  }

  lemma LastOpMore(s: seq<char>, i: nat)
    requires i < |s|
    ensures LastOp(s[..i + 1]) == if IsOp(s[i]) then i else LastOp(s[..i])
  {
    assert s[..i + 1][..i] == s[..i];
  }

  // Step 1 of the loop over the clauses: where the clause ends and its last operator is.
  method NextClause(rest: seq<char>) returns (end: int, op: int)
    ensures end == FirstClause(rest) && op == LastOp(rest[..end])
  {
    end, op := 0, -1;
    while end < |rest| && rest[end] != ','
      invariant 0 <= end <= |rest| && ',' !in rest[..end] && op == LastOp(rest[..end])
    {
      LastOpMore(rest, end);
      if IsOp(rest[end]) {
        op := end;
      }
      end := end + 1;
    }
    FirstClauseIs(rest, end);
  }

  method OldBits(mode: Mask) returns (bits: array<Mask>)
    ensures fresh(bits) && bits[..] == Gather(mode)
  {
    bits := new Mask[3](_ => {});
    for i := 0 to 3
      invariant forall k :: 0 <= k < 3 ==> bits[k] == if k < i then Gathered(mode, k, 4) else {}
    {
      for j := 0 to 4
        invariant forall k :: 0 <= k < 3 ==>
          bits[k] == if k < i then Gathered(mode, k, 4) else if k == i then Gathered(mode, i, j) else {}
      {
        assert Gathered(mode, i, j + 1) == Gathered(mode, i, j) + if Mode(i, j) in mode then {j} else {};
        if Mode(i, j) in mode {
          bits[i] := bits[i] + {j};
        }
      }
    }
  }

  method ResetBits(mode: Mask, bits: array<Mask>) returns (r: Mask)
    requires bits.Length == 3
    ensures r == Scatter(mode, bits[..])
  {
    hide Mode, GroupOf, PermOf;
    r := mode - MODE_BIT;
    for i := 0 to 3
      invariant forall p :: p in r <==>
        if p in MODE_BIT then GroupOf(p) < i && PermOf(p) in bits[GroupOf(p)] else p in mode
    {
      for j := 0 to 4
        invariant forall p :: p in r <==>
          if p in MODE_BIT then (GroupOf(p) < i || (GroupOf(p) == i && PermOf(p) < j)) && PermOf(p) in bits[GroupOf(p)]
          else p in mode
      {
        forall p | p in MODE_BIT ensures GroupOf(p) == i && PermOf(p) == j <==> p == Mode(i, j) {
          PlaceIs(p);
          if (i, j) != (2, 3) {
            ModeIs(i, j);
          }
        }
        if j in bits[i] && Mode(i, j) >= 0 {
          r := r + {Mode(i, j)};
        }
      }
    }
  }

  // One clause of the list, from a position on.
  lemma ClausesFrom(list: seq<char>, start: int, bits: seq<Mask>)
    requires 0 <= start <= |list| && |bits| == 3
    ensures var rest, end := list[start..], FirstClause(list[start..]);
      Clauses(rest, bits) == match Clause(rest[..end], bits)
        case None => None
        case Some(b) => if start + end == |list| then Some(b) else Clauses(list[start + end + 1..], b)
  {
    hide Clause;
    var end := FirstClause(list[start..]);
    if start + end < |list| {
      assert list[start..][end + 1..] == list[start + end + 1..];
    }
  }

  /** chmod MODE-LIST FILE computes the file's new mode clause by clause, or rejects the list. */
  method ProcessModeList(list: seq<char>, mode: Mask) returns (r: Option<Mask>)
    ensures r == NewMode(list, mode)
  {
    hide Clause, Clauses, FirstClause, LastOp, Gather, Scatter;
    var bits := OldBits(mode);
    var start := 0;
    assert list[0..] == list;
    while true
      modifies bits
      invariant 0 <= start <= |list| && Clauses(list, Gather(mode)) == Clauses(list[start..], bits[..])
      decreases |list| - start
    {
      ClausesFrom(list, start, bits[..]);
      var end, op := NextClause(list[start..]);
      if op < 0 {
        NoOperator(list[start..][..end], bits[..]);
        return None;
      }
      var clause := list[start..][..end];
      var ok;
      if IsOctal(At(clause, op + 1)) {
        ok := OctalClause(clause, bits, op);
      } else {
        ok := SymbolicClause(clause, bits, op);
      }
      if !ok {
        return None;
      }
      if start + end == |list| {
        break;
      }
      start := start + end + 1;
    }
    var newMode := ResetBits(mode, bits);
    return Some(newMode);
  }

  lemma NoOperator(c: seq<char>, bits: seq<Mask>)
    requires LastOp(c) < 0 && |bits| == 3
    ensures Clause(c, bits) == None
  {}
}
