/** What chmod promises of a mode list as a whole. */
module ChmodLaws {
  import opened Wrappers
  import opened Chmod

  const PERMS: Mask := {0, 1, 2, 3}

  predicate Small(bits: seq<Mask>) {
    |bits| == 3 && forall i :: 0 <= i < 3 ==> bits[i] <= PERMS
  }

  function Masked(bits: seq<Mask>, clear: seq<Mask>, add: seq<Mask>): (r: seq<Mask>)
    requires |bits| == |clear| == |add| == 3
    ensures |r| == 3
  {
    seq(3, i requires 0 <= i < 3 => (bits[i] - clear[i]) + add[i])
  }

  // A clause like g=u, which copies the bits of a group.
  predicate IsCopy(c: seq<char>) {
    var p := LastOp(c);
    p >= 0 && p + 1 < |c| && c[p + 1] in WHO
  }

  predicate CopyFree(list: seq<char>)
    decreases |list|
  {
    var n := FirstClause(list);
    !IsCopy(list[..n]) && (n < |list| ==> CopyFree(list[n + 1..]))
  }

  // clear and add tell what an operator does to a group with m.
  function Clears(op: char, m: Mask): Mask
    requires IsOp(op)
  {
    if op == '=' then PERMS else if op == '-' then m else {}
  }

  function Adds(op: char, m: Mask): Mask
    requires IsOp(op)
  {
    if op == '-' then {} else m
  }

  lemma ChangeIsMasked(op: char, b: Mask, m: Mask)
    requires IsOp(op) && b <= PERMS
    ensures Change(op, b, m) == (b - Clears(op, m)) + Adds(op, m)
  {}

  lemma {:induction false} LettersAreSmall(s: seq<char>)
    requires forall i :: 0 <= i < |s| ==> s[i] in MC
    ensures Letters(s) <= PERMS
  {
    if s != [] {
      LettersAreSmall(s[..|s| - 1]);
    }
  }

  // The clause has the effect of these masks, or is invalid, whatever the bits.
  ghost predicate HasMasks(c: seq<char>, clear: seq<Mask>, add: seq<Mask>) {
    && Small(clear) && Small(add)
    && forall b :: Small(b) ==> Clause(c, b) == None || Clause(c, b) == Some(Masked(b, clear, add))
  }

  lemma ClauseMasks(c: seq<char>) returns (clear: seq<Mask>, add: seq<Mask>)
    requires !IsCopy(c)
    ensures HasMasks(c, clear, add)
  {
    hide LastOp, Letters, Octal, Gathered;
    var p := LastOp(c);
    clear, add := [{}, {}, {}], [{}, {}, {}];
    if p < 0 {
      return;
    }
    var before, op, perms := c[..p], c[p], c[p + 1..];
    if perms != [] && IsOctal(perms[0]) {
      if forall i :: 0 <= i < |perms| ==> IsOctal(perms[i]) {
        var m := Octal(perms);
        GatheredAreSmall(m);
        clear := seq(3, i requires 0 <= i < 3 => Clears(op, Gathered(m, i, 4)));
        add := seq(3, i requires 0 <= i < 3 => Adds(op, Gathered(m, i, 4)));
        forall b | Small(b) ensures OctalChange(op, b, m) == Masked(b, clear, add) {
          OctalIsMasked(op, b, m, clear, add);
        }
      }
    } else if perms == [] || forall i :: 0 <= i < |perms| ==> perms[i] in MC {
      var m := if perms == [] then {} else Letters(perms);
      if perms != [] {
        LettersAreSmall(perms);
      }
      clear := seq(3, i requires 0 <= i < 3 => if Targets(before, i) then Clears(op, m) else {});
      add := seq(3, i requires 0 <= i < 3 => if Targets(before, i) then Adds(op, m) else {});
      forall b | Small(b) ensures ForTargets(before, op, b, m) == Masked(b, clear, add) {
        TargetsAreMasked(before, op, b, m, clear, add);
      }
    } else {
      forall b | Small(b) ensures Masked(b, clear, add) == b {
        assert forall i :: 0 <= i < 3 ==> Masked(b, clear, add)[i] == b[i];
      }
    }
  }

  lemma GatheredAreSmall(m: Mask)
    ensures forall i :: 0 <= i < 3 ==> Gathered(m, i, 4) <= PERMS
  {}

  lemma OctalIsMasked(op: char, b: seq<Mask>, m: Mask, clear: seq<Mask>, add: seq<Mask>)
    requires IsOp(op) && Small(b) && |clear| == |add| == 3
    requires forall i :: 0 <= i < 3 ==>
      clear[i] == Clears(op, Gathered(m, i, 4)) && add[i] == Adds(op, Gathered(m, i, 4))
    ensures OctalChange(op, b, m) == Masked(b, clear, add)
  {
    hide Gathered, Clears, Adds, Change;
    forall i | 0 <= i < 3 ensures OctalChange(op, b, m)[i] == Masked(b, clear, add)[i] {
      ChangeIsMasked(op, b[i], Gathered(m, i, 4));
    }
  }

  lemma TargetsAreMasked(before: seq<char>, op: char, b: seq<Mask>, m: Mask, clear: seq<Mask>, add: seq<Mask>)
    requires IsOp(op) && Small(b) && |clear| == |add| == 3
    requires forall i :: 0 <= i < 3 ==> clear[i] == (if Targets(before, i) then Clears(op, m) else {})
    requires forall i :: 0 <= i < 3 ==> add[i] == (if Targets(before, i) then Adds(op, m) else {})
    ensures ForTargets(before, op, b, m) == Masked(b, clear, add)
  {
    hide Clears, Adds, Change;
    forall i | 0 <= i < 3 ensures ForTargets(before, op, b, m)[i] == Masked(b, clear, add)[i] {
      ChangeIsMasked(op, b[i], m);
    }
  }

  lemma ClauseKeepsSmall(c: seq<char>, b: seq<Mask>)
    requires Small(b)
    ensures Clause(c, b).Some? ==> Small(Clause(c, b).value)
  {
    hide LastOp, Letters, Octal, Gathered;
    var p := LastOp(c);
    if p >= 0 {
      var perms := c[p + 1..];
      if perms != [] && IsOctal(perms[0]) && forall i :: 0 <= i < |perms| ==> IsOctal(perms[i]) {
        GatheredAreSmall(Octal(perms));
      }
      if forall i :: 0 <= i < |perms| ==> perms[i] in MC {
        LettersAreSmall(perms);
      }
    }
  }

  lemma {:induction false} ListKeepsSmall(list: seq<char>, b: seq<Mask>)
    requires Small(b)
    ensures Clauses(list, b).Some? ==> Small(Clauses(list, b).value)
    decreases |list|
  {
    hide Clause, Small;
    var n := FirstClause(list);
    SmallLength(b);
    ClauseKeepsSmall(list[..n], b);
    if Clause(list[..n], b).Some? && n < |list| {
      ListKeepsSmall(list[n + 1..], Clause(list[..n], b).value);
    }
  }

  lemma SmallLength(b: seq<Mask>)
    requires Small(b)
    ensures |b| == 3
  {}

  // Whether a list is valid does not depend on the file.
  lemma {:induction false} ValidForEveryFile(list: seq<char>, b: seq<Mask>, d: seq<Mask>)
    requires |b| == |d| == 3
    ensures Clauses(list, b).Some? <==> Clauses(list, d).Some?
    decreases |list|
  {
    var n := FirstClause(list);
    ClauseValid(list[..n], b, d);
    hide Clause;
    if Clause(list[..n], b).Some? && n < |list| {
      ValidForEveryFile(list[n + 1..], Clause(list[..n], b).value, Clause(list[..n], d).value);
    }
  }

  lemma ClauseValid(c: seq<char>, b: seq<Mask>, d: seq<Mask>)
    requires |b| == |d| == 3
    ensures Clause(c, b).Some? <==> Clause(c, d).Some?
  {}

  lemma MaskedTwice(b: seq<Mask>, c1: seq<Mask>, a1: seq<Mask>, c2: seq<Mask>, a2: seq<Mask>)
    requires |b| == |c1| == |a1| == |c2| == |a2| == 3
    ensures Masked(Masked(b, c1, a1), c2, a2) == Masked(b, Union(c1, c2), Masked(a1, c2, a2))
  {
    forall i | 0 <= i < 3
      ensures Masked(Masked(b, c1, a1), c2, a2)[i] == Masked(b, Union(c1, c2), Masked(a1, c2, a2))[i] {
      assert ((b[i] - c1[i]) + a1[i]) - c2[i] + a2[i] == (b[i] - (c1[i] + c2[i])) + ((a1[i] - c2[i]) + a2[i]);
    }
  }

  function Union(a: seq<Mask>, b: seq<Mask>): (r: seq<Mask>)
    requires |a| == |b| == 3
    ensures |r| == 3
  {
    seq(3, i requires 0 <= i < 3 => a[i] + b[i])
  }

  ghost predicate ListHasMasks(list: seq<char>, clear: seq<Mask>, add: seq<Mask>) {
    && Small(clear) && Small(add)
    && forall b :: Small(b) ==> Clauses(list, b) == None || Clauses(list, b) == Some(Masked(b, clear, add))
  }

  lemma {:induction false} ListMasks(list: seq<char>) returns (clear: seq<Mask>, add: seq<Mask>)
    requires CopyFree(list)
    ensures ListHasMasks(list, clear, add)
    decreases |list|
  {
    hide IsCopy, Clause;
    var n := FirstClause(list);
    var c1, a1 := ClauseMasks(list[..n]);
    if n == |list| {
      return c1, a1;
    }
    var c2, a2 := ListMasks(list[n + 1..]);
    clear, add := Union(c1, c2), Masked(a1, c2, a2);
    forall b | Small(b) ensures Clauses(list, b) == None || Clauses(list, b) == Some(Masked(b, clear, add)) {
      if Clause(list[..n], b).Some? {
        var m := Clause(list[..n], b).value;
        ClauseKeepsSmall(list[..n], b);
        assert m == Masked(b, c1, a1);
        MaskedTwice(b, c1, a1, c2, a2);
      }
    }
  }

  // The mode bits a group mask stands for.
  function ModeMask(bits: seq<Mask>): Mask
    requires |bits| == 3
  {
    set p | p in MODE_BIT && PermOf(p) in bits[GroupOf(p)]
  }

  lemma GatherIs(mode: Mask, p: nat)
    requires p in MODE_BIT
    ensures Small(Gather(mode)) && (PermOf(p) in Gather(mode)[GroupOf(p)] <==> p in mode)
  {
    PlaceIs(p);
  }

  lemma ScatterMasked(mode: Mask, bits: seq<Mask>, clear: seq<Mask>, add: seq<Mask>)
    requires |bits| == |clear| == |add| == 3
    ensures Scatter(mode, Masked(bits, clear, add)) == (Scatter(mode, bits) - ModeMask(clear)) + ModeMask(add)
  {
    hide GroupOf, PermOf;
  }

  lemma ScatterGather(mode: Mask)
    ensures Scatter(mode, Gather(mode)) == mode && Small(Gather(mode))
  {
    hide GroupOf, PermOf, Gather;
    GatherIs(mode, 0);
    forall p | p in MODE_BIT ensures PermOf(p) in Gather(mode)[GroupOf(p)] <==> p in mode {
      GatherIs(mode, p);
    }
  }

  /** A valid list without copy clauses clears a fixed set of the handled bits
      and then sets another, whatever the file: chmod touches no other bit. */
  lemma ListIsClearThenSet(list: seq<char>) returns (clear: Mask, add: Mask)
    requires CopyFree(list)
    ensures clear <= MODE_BIT && add <= MODE_BIT
    ensures forall mode :: NewMode(list, mode) == None || NewMode(list, mode) == Some((mode - clear) + add)
    ensures forall mode, other :: NewMode(list, mode) == None <==> NewMode(list, other) == None
  {
    hide Clauses, Gather, Scatter, Small, Masked, ModeMask;
    var c, a := ListMasks(list);
    SmallLength(c);
    SmallLength(a);
    clear, add := ModeMask(c), ModeMask(a);
    ModeMaskIsHandled(c);
    ModeMaskIsHandled(a);
    forall mode ensures NewMode(list, mode) == None || NewMode(list, mode) == Some((mode - clear) + add) {
      ScatterGather(mode);
      ScatterMasked(mode, Gather(mode), c, a);
    }
    forall mode, other ensures NewMode(list, mode) == None <==> NewMode(list, other) == None {
      ValidForEveryFile(list, Gather(mode), Gather(other));
    }
  }

  lemma ModeMaskIsHandled(bits: seq<Mask>)
    requires |bits| == 3
    ensures ModeMask(bits) <= MODE_BIT
  {}

  /** Running such a list twice is running it once. */
  lemma TwiceIsOnce(list: seq<char>, mode: Mask)
    requires CopyFree(list) && NewMode(list, mode).Some?
    ensures NewMode(list, NewMode(list, mode).value) == NewMode(list, mode)
  {
    hide NewMode;
    var clear, add := ListIsClearThenSet(list);
    var once := (mode - clear) + add;
    assert NewMode(list, once).Some?;
    assert (once - clear) + add == once;
  }

  lemma {:induction false} ClausesJoined(a: seq<char>, b: seq<char>, bits: seq<Mask>)
    requires |bits| == 3
    ensures Clauses(a + [','] + b, bits) == match Clauses(a, bits) { case None => None case Some(r) => Clauses(b, r) }
    decreases |a|
  {
    hide Clause;
    var n, s := FirstClause(a), a + [','] + b;
    assert s[..n] == a[..n];
    FirstClauseIs(s, n);
    if n < |a| {
      assert s[n + 1..] == a[n + 1..] + [','] + b;
      if Clause(a[..n], bits).Some? {
        ClausesJoined(a[n + 1..], b, Clause(a[..n], bits).value);
      }
    } else {
      assert s[n + 1..] == b;
    }
  }

  /** chmod A,B is chmod A and then chmod B, if B copies no group. */
  lemma SplitAtAComma(a: seq<char>, b: seq<char>, mode: Mask)
    requires CopyFree(b)
    ensures NewMode(a + [','] + b, mode) == match NewMode(a, mode) { case None => None case Some(m) => NewMode(b, m) }
  {
    hide Clauses, Gather, Small, Masked, ModeMask, Scatter;
    ClausesJoined(a, b, Gather(mode));
    ScatterGather(mode);
    if Clauses(a, Gather(mode)).Some? {
      var bits := Clauses(a, Gather(mode)).value;
      ListKeepsSmall(a, Gather(mode));
      var c, d := ListMasks(b);
      SmallLength(c);
      SmallLength(d);
      var m := Scatter(mode, bits);
      ScatterGather(m);
      ScatterMasked(mode, bits, c, d);
      ScatterMasked(m, Gather(m), c, d);
      ValidForEveryFile(b, bits, Gather(m));
    }
  }

  lemma GatherScatter(mode: Mask, bits: seq<Mask>)
    requires Small(bits)
    ensures Gather(Scatter(mode, bits)) == bits[2 := bits[2] - {3}]
  {
    var m := Scatter(mode, bits);
    forall i | 0 <= i < 3 ensures Gathered(m, i, 4) == bits[2 := bits[2] - {3}][i] {
      forall j: nat | j < 4 ensures Mode(i, j) in m <==> j in bits[i] && (i, j) != (2, 3) {
        if (i, j) != (2, 3) {
          ModeIs(i, j);
        }
      }
    }
  }

  // The clause u=o.
  lemma CopyOthersToUser(bits: seq<Mask>)
    requires |bits| == 3
    ensures Clauses(['u', '=', 'o'], bits) == Some(bits[0 := bits[2]])
  {
    hide ForTargets;
    var c := ['u', '=', 'o'];
    FirstClauseIs(c, 3);
    assert c[..3] == c;
    assert c[..2][..1] == c[..1] && LastOp(c[..2]) == 1 && LastOp(c) == 1;
    assert c[..1] == ['u'] && c[2..] == ['o'];
    assert Index(WHO, 'o') == 2 by {
      assert WHO[1..] == ['g', 'o'] && WHO[1..][1..] == ['o'];
    }
    FirstRoundEnds(c, 1, bits, bits[2]);
    UserOnly(bits, bits[2]);
  }

  lemma UserOnly(bits: seq<Mask>, m: Mask)
    requires |bits| == 3
    ensures ForTargets(['u'], '=', bits, m) == bits[0 := m]
  {}

  /** After A, every further list B does the same whether it follows a comma or is
      run by itself, exactly when A leaves no set-id permission on others: the
      mode cannot hold one, but a clause like u=o copies it. */
  lemma SplitIsHarmlessIff(a: seq<char>, mode: Mask)
    requires NewMode(a, mode).Some?
    ensures (forall b :: NewMode(a + [','] + b, mode) == NewMode(b, NewMode(a, mode).value)) <==>
      3 !in Clauses(a, Gather(mode)).value[2]
  {
    hide Clauses, Gather, Scatter, Small;
    var bits, m := Clauses(a, Gather(mode)).value, NewMode(a, mode).value;
    ScatterGather(mode);
    ListKeepsSmall(a, Gather(mode));
    GatherScatter(mode, bits);
    if 3 !in bits[2] {
      assert bits[2] - {3} == bits[2];
      assert bits[2 := bits[2] - {3}] == bits;
      forall b ensures NewMode(a + [','] + b, mode) == NewMode(b, m) {
        ClausesJoined(a, b, Gather(mode));
        ScatterAgain(mode, bits, b);
      }
    } else {
      var b := ['u', '=', 'o'];
      ClausesJoined(a, b, Gather(mode));
      CopyOthersToUser(bits);
      CopyOthersToUser(Gather(m));
      UserGetsIt(mode, bits);
      assert NewMode(a + [','] + b, mode) != NewMode(b, m);
    }
  }

  lemma ScatterAgain(mode: Mask, bits: seq<Mask>, b: seq<char>)
    requires |bits| == 3
    ensures Clauses(b, bits).Some? ==>
      Scatter(Scatter(mode, bits), Clauses(b, bits).value) == Scatter(mode, Clauses(b, bits).value)
  {
    hide Clauses, GroupOf, PermOf;
  }

  lemma UserGetsIt(mode: Mask, bits: seq<Mask>)
    requires |bits| == 3 && 3 in bits[2]
    ensures var m := Scatter(mode, bits); var rest := bits[2 := bits[2] - {3}];
      Scatter(mode, bits[0 := bits[2]]) != Scatter(m, rest[0 := rest[2]])
  {
    var m := Scatter(mode, bits);
    var rest := bits[2 := bits[2] - {3}];
    assert 11 in Scatter(mode, bits[0 := bits[2]]);
    assert 11 !in Scatter(m, rest[0 := rest[2]]);
  }

  lemma {:induction false} LastOpBehind(front: seq<char>, op: char, perms: seq<char>)
    requires IsOp(op) && forall i :: 0 <= i < |perms| ==> !IsOp(perms[i])
    ensures LastOp(front + [op] + perms) == |front|
  {
    var s := front + [op] + perms;
    if perms != [] {
      assert s[..|s| - 1] == front + [op] + perms[..|perms| - 1];
      LastOpBehind(front, op, perms[..|perms| - 1]);
    }
  }

  /** The documentation allows several operators in a clause (ug+r-w), but only
      the last one is carried out: the earlier ones are read as part of the names. */
  lemma OnlyTheLastOperatorCounts(names: seq<char>, op1: char, perms1: seq<char>, op2: char, perms2: seq<char>,
                                  bits: seq<Mask>)
    requires names != [] && IsOp(op1) && IsOp(op2) && |bits| == 3
    requires forall i :: 0 <= i < |perms1| ==> perms1[i] in MC
    requires forall i :: 0 <= i < |perms2| ==> !IsOp(perms2[i])
    ensures Clause(names + [op1] + perms1 + [op2] + perms2, bits) == Clause(names + [op2] + perms2, bits)
  {
    hide LastOp, Letters, Octal, Index;
    var front := names + [op1] + perms1;
    LastOpBehind(front, op2, perms2);
    LastOpBehind(names, op2, perms2);
    var long, short := front + [op2] + perms2, names + [op2] + perms2;
    assert long[..|front|] == front && long[|front| + 1..] == perms2;
    assert short[..|names|] == names && short[|names| + 1..] == perms2;
    SameNames(names, op1, perms1);
    if IsOp(op2) {
      forall m: Mask ensures ForTargets(front, op2, bits, m) == ForTargets(names, op2, bits, m) {
        assert forall i :: 0 <= i < 3 ==> ForTargets(front, op2, bits, m)[i] == ForTargets(names, op2, bits, m)[i];
      }
    }
  }

  lemma SameNames(names: seq<char>, op1: char, perms1: seq<char>)
    requires names != [] && IsOp(op1) && forall i :: 0 <= i < |perms1| ==> perms1[i] in MC
    ensures forall i :: 0 <= i < 3 ==> (Targets(names + [op1] + perms1, i) <==> Targets(names, i))
  {
    var front := names + [op1] + perms1;
    forall x | x in "ugoa" ensures x in front <==> x in names {
      assert x !in MC && !IsOp(x);
    }
  }

  // What the usage text promises of a clause with two operators: one after the other, on the same groups.
  function BothOperators(names: seq<char>, op1: char, m1: Mask, op2: char, m2: Mask, bits: seq<Mask>): (r: seq<Mask>)
    requires IsOp(op1) && IsOp(op2) && |bits| == 3
    ensures |r| == 3
  {
    ForTargets(names, op2, ForTargets(names, op1, bits, m1), m2)
  }

  // The permissions of group i that a mode can hold.
  function Held(i: int): Mask {
    if i == 2 then {0, 1, 2} else PERMS
  }

  // The second operator settles every permission the first one touches.
  predicate Overrides(op1: char, m1: Mask, op2: char, m2: Mask, i: int) {
    op2 == '=' || if op1 == '=' then Held(i) <= m2 else m1 * Held(i) <= m2
  }

  predicate TwoOperatorClause(names: seq<char>, op1: char, perms1: seq<char>, op2: char, perms2: seq<char>) {
    && names != [] && ',' !in names && IsOp(op1) && IsOp(op2)
    && (forall i :: 0 <= i < |perms1| ==> perms1[i] in MC) && (forall i :: 0 <= i < |perms2| ==> perms2[i] in MC)
  }

  lemma TwoOperatorsRead(names: seq<char>, op1: char, perms1: seq<char>, op2: char, perms2: seq<char>, bits: seq<Mask>)
    requires TwoOperatorClause(names, op1, perms1, op2, perms2) && |bits| == 3
    ensures var c := names + [op1] + perms1 + [op2] + perms2;
      Clauses(c, bits) == Some(ForTargets(names, op2, bits, Letters(perms2)))
  {
    hide LastOp, Letters, Index, ForTargets, Clause;
    var c, short := names + [op1] + perms1 + [op2] + perms2, names + [op2] + perms2;
    FirstClauseIs(c, |c|);
    assert c[..|c|] == c;
    OnlyTheLastOperatorCounts(names, op1, perms1, op2, perms2, bits);
    LastOpBehind(names, op2, perms2);
    assert short[..|names|] == names && short[|names| + 1..] == perms2 && short[|names|] == op2;
    assert perms2 != [] ==> At(short, |names| + 1) == perms2[0];
    NoLettersAtAll();
    FirstRoundEnds(short, |names|, bits, Letters(perms2));
  }

  lemma NoLettersAtAll()
    ensures Letters([]) == {}
  {}

  // Whether the first operator shows at permission j of a group it is for.
  lemma ShowsAt(op1: char, m1: Mask, op2: char, m2: Mask, b: Mask, j: nat)
    requires IsOp(op1) && IsOp(op2)
    ensures (j in Change(op2, Change(op1, b, m1), m2) <==> j in Change(op2, b, m2)) <==>
      op2 == '=' || j in m2 ||
      if op1 == '=' then (j in b <==> j in m1) else if op1 == '+' then j in b || j !in m1 else j !in b || j !in m1
  {}

  lemma SameWhenOverridden(names: seq<char>, op1: char, m1: Mask, op2: char, m2: Mask, mode: Mask)
    requires IsOp(op1) && IsOp(op2) && forall i :: 0 <= i < 3 && Targets(names, i) ==> Overrides(op1, m1, op2, m2, i)
    ensures Scatter(mode, BothOperators(names, op1, m1, op2, m2, Gather(mode)))
         == Scatter(mode, ForTargets(names, op2, Gather(mode), m2))
  {
    hide GroupOf, PermOf, Gather, Change;
    var bits := Gather(mode);
    var x, y := BothOperators(names, op1, m1, op2, m2, bits), ForTargets(names, op2, bits, m2);
    forall p | p in MODE_BIT ensures PermOf(p) in x[GroupOf(p)] <==> PermOf(p) in y[GroupOf(p)] {
      PlaceIs(p);
      ShowsAt(op1, m1, op2, m2, bits[GroupOf(p)], PermOf(p));
      assert PermOf(p) in Held(GroupOf(p));
    }
  }

  // A permission the first operator touches and the second does not settle shows at one of two modes.
  lemma DifferUnlessOverridden(names: seq<char>, op1: char, m1: Mask, op2: char, m2: Mask, i: int) returns (mode: Mask)
    requires IsOp(op1) && IsOp(op2) && 0 <= i < 3 && Targets(names, i) && !Overrides(op1, m1, op2, m2, i)
    ensures Scatter(mode, BothOperators(names, op1, m1, op2, m2, Gather(mode)))
         != Scatter(mode, ForTargets(names, op2, Gather(mode), m2))
  {
    var j: nat :| j in Held(i) && j !in m2 && (op1 == '=' || j in m1);
    mode := if op1 == '+' || (op1 == '=' && j in m1) then {} else MODE_BIT;
    var bits, p := Gather(mode), Mode(i, j);
    ModeIs(i, j);
    assert j in bits[i] <==> mode == MODE_BIT;
    ShowsAt(op1, m1, op2, m2, bits[i], j);
    var x, y := BothOperators(names, op1, m1, op2, m2, bits), ForTargets(names, op2, bits, m2);
    hide Gather, Change, GroupOf, PermOf, ForTargets;
    assert p in Scatter(mode, x) <==> j in x[i];
    assert p in Scatter(mode, y) <==> j in y[i];
  }

  /** A clause with two operators does what the usage text promises, for every
      file, exactly when the second operator settles all the first one touches:
      it is '=', or its permissions include those of the first, or all there are
      if the first is '='. */
  lemma TwoOperatorsAreRightIff(names: seq<char>, op1: char, perms1: seq<char>, op2: char, perms2: seq<char>)
    requires TwoOperatorClause(names, op1, perms1, op2, perms2)
    ensures var c, m1, m2 := names + [op1] + perms1 + [op2] + perms2, Letters(perms1), Letters(perms2);
      (forall mode :: NewMode(c, mode) == Some(Scatter(mode, BothOperators(names, op1, m1, op2, m2, Gather(mode)))))
      <==> forall i :: 0 <= i < 3 && Targets(names, i) ==> Overrides(op1, m1, op2, m2, i)
  {
    hide Letters, Scatter, Gather, ForTargets, BothOperators, Clauses, Overrides, Targets;
    var c, m1, m2 := names + [op1] + perms1 + [op2] + perms2, Letters(perms1), Letters(perms2);
    forall mode ensures NewMode(c, mode) == Some(Scatter(mode, ForTargets(names, op2, Gather(mode), m2))) {
      TwoOperatorsRead(names, op1, perms1, op2, perms2, Gather(mode));
    }
    if forall i :: 0 <= i < 3 && Targets(names, i) ==> Overrides(op1, m1, op2, m2, i) {
      forall mode
        ensures NewMode(c, mode) == Some(Scatter(mode, BothOperators(names, op1, m1, op2, m2, Gather(mode)))) {
        SameWhenOverridden(names, op1, m1, op2, m2, mode);
      }
    } else {
      var i :| 0 <= i < 3 && Targets(names, i) && !Overrides(op1, m1, op2, m2, i);
      var mode := DifferUnlessOverridden(names, op1, m1, op2, m2, i);
      assert NewMode(c, mode) != Some(Scatter(mode, BothOperators(names, op1, m1, op2, m2, Gather(mode))));
    }
  }

  /** With nobody named the two operators should be for everybody, but do nothing:
      the first is read as the names. */
  lemma NobodyNamedDoesNothing(op1: char, perms1: seq<char>, op2: char, perms2: seq<char>, bits: seq<Mask>)
    requires IsOp(op1) && IsOp(op2) && |bits| == 3
    requires forall i :: 0 <= i < |perms1| ==> perms1[i] in MC
    requires forall i :: 0 <= i < |perms2| ==> perms2[i] in MC
    ensures Clause([op1] + perms1 + [op2] + perms2, bits) == Some(bits)
  {
    hide LastOp, Letters, Clause;
    var front := [op1] + perms1;
    var c := front + [op2] + perms2;
    LastOpBehind(front, op2, perms2);
    assert c[..|front|] == front && c[|front| + 1..] == perms2 && c[|front|] == op2;
    assert perms2 != [] ==> At(c, |front| + 1) == perms2[0];
    NoLettersAtAll();
    FirstRoundEnds(c, |front|, bits, Letters(perms2));
    NotNamed(op1, perms1);
    assert ForTargets(front, op2, bits, Letters(perms2)) == bits;
  }

  lemma NotNamed(op1: char, perms1: seq<char>)
    requires IsOp(op1) && forall i :: 0 <= i < |perms1| ==> perms1[i] in MC
    ensures NoTargets([op1] + perms1)
  {
    var front := [op1] + perms1;
    forall x | x in "ugoa" ensures x !in front {
      assert x !in MC && !IsOp(x);
    }
  }

  lemma ForTheUser(op: char, bits: seq<Mask>, m: Mask)
    requires IsOp(op) && |bits| == 3
    ensures ForTargets(['u'], op, bits, m) == bits[0 := Change(op, bits[0], m)]
  {
    forall i | 0 <= i < 3 ensures ForTargets(['u'], op, bits, m)[i] == bits[0 := Change(op, bits[0], m)][i] {
      assert Targets(['u'], i) <==> i == 0;
    }
  }

  const NO_BITS: Mask := {}

  /** u+r-w on a file without permissions: the user should get read, and gets nothing. */
  lemma FirstOperatorIsLost()
    ensures NewMode(['u'] + ['+'] + ['r'] + ['-'] + ['w'], NO_BITS) == Some(NO_BITS)
    ensures 8 in Scatter(NO_BITS, BothOperators(['u'], '+', Letters(['r']), '-', Letters(['w']), Gather(NO_BITS)))
  {
    hide ForTargets, Clauses, Letters, GroupOf, PermOf;
    var bits := Gather(NO_BITS);
    TwoOperatorsRead(['u'], '+', ['r'], '-', ['w'], bits);
    LetterIs('r', 0);
    LetterIs('w', 1);
    ForTheUser('-', bits, {1});
    assert bits[0] - {1} == bits[0];
    assert bits[0 := bits[0]] == bits;
    ScatterGather(NO_BITS);
    ForTheUser('+', bits, {0});
    var read := bits[0 := bits[0] + {0}];
    ForTheUser('-', read, {1});
    ModeIs(0, 0);
    assert 0 in read[0] - {1};
  }

  lemma LetterIs(c: char, j: nat)
    requires (c == 'r' && j == 0) || (c == 'w' && j == 1)
    ensures Letters([c]) == {j}
  {
    assert [c][..0] == [] && MC[1..][0] == 'w';
  }

  /** An octal list sets, adds or removes exactly the handled bits of the number. */
  lemma OctalListIs(op: char, digits: seq<char>, mode: Mask)
    requires IsOp(op) && digits != [] && forall i :: 0 <= i < |digits| ==> IsOctal(digits[i])
    ensures var m := Octal(digits) * MODE_BIT;
      NewMode([op] + digits, mode) ==
        Some(if op == '=' then (mode - MODE_BIT) + m else if op == '+' then mode + m else mode - m)
  {
    hide Octal, GroupOf, PermOf, Clause, Scatter, Gather, OctalChange;
    var c, m := [op] + digits, Octal(digits);
    FirstClauseIs(c, |c|);
    assert c[..|c|] == c;
    OneOctalClause(op, digits, Gather(mode));
    OctalScatter(op, mode, m);
  }

  lemma OneOctalClause(op: char, digits: seq<char>, bits: seq<Mask>)
    requires |bits| == 3 && IsOp(op) && digits != [] && forall i :: 0 <= i < |digits| ==> IsOctal(digits[i])
    ensures Clause([op] + digits, bits) == Some(OctalChange(op, bits, Octal(digits)))
  {
    hide Octal, LastOp, OctalChange, Clause;
    var c := [op] + digits;
    assert c == [] + [op] + digits && c[1..] == digits;
    LastOpBehind([], op, digits);
    OctalDigitsOnly(c, digits, bits);
  }

  lemma OctalDigitsOnly(c: seq<char>, digits: seq<char>, bits: seq<Mask>)
    requires |bits| == 3 && LastOp(c) == 0 && c[1..] == digits
    requires digits != [] && forall i :: 0 <= i < |digits| ==> IsOctal(digits[i])
    ensures Clause(c, bits) == Some(OctalChange(c[0], bits, Octal(digits)))
  {
    hide Octal, LastOp, OctalChange, ForTargets, Letters, Index, NoTargets;
  }

  lemma OctalScatter(op: char, mode: Mask, m: Mask)
    requires IsOp(op)
    ensures Scatter(mode, OctalChange(op, Gather(mode), m)) ==
      if op == '=' then (mode - MODE_BIT) + m * MODE_BIT
      else if op == '+' then mode + m * MODE_BIT else mode - m * MODE_BIT
  {
    hide GroupOf, PermOf, OctalChange, Gather;
    var bits := OctalChange(op, Gather(mode), m);
    forall p | p in MODE_BIT ensures PermOf(p) in bits[GroupOf(p)] <==>
      if op == '=' then p in m else if op == '+' then p in mode || p in m else p in mode && p !in m
    {
      OctalBit(op, mode, m, p);
    }
  }

  lemma OctalBit(op: char, mode: Mask, m: Mask, p: nat)
    requires IsOp(op) && p in MODE_BIT
    ensures PermOf(p) in OctalChange(op, Gather(mode), m)[GroupOf(p)] <==>
      if op == '=' then p in m else if op == '+' then p in mode || p in m else p in mode && p !in m
  {
    PlaceIs(p);
  }
}
