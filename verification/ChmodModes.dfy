/** What each kind of clause does to a file's mode, bit by bit: the letters and
    digits on one side, the positions of the mode's bits on the other. */
module ChmodModes {
  import opened Wrappers
  import opened Chmod
  import opened ChmodLaws

  /** The position of a permission's bit in a mode; others have no set-id bit. */
  function BitOf(who: char, perm: char): nat
    requires who in "ugo" && perm in "rwxs" && !(who == 'o' && perm == 's')
  {
    match perm
    case 'r' => if who == 'u' then 8 else if who == 'g' then 5 else 2
    case 'w' => if who == 'u' then 7 else if who == 'g' then 4 else 1
    case 'x' => if who == 'u' then 6 else if who == 'g' then 3 else 0
    case _ => if who == 'u' then 11 else 10
  }

  // Whether the mode grants a permission.
  predicate Grants(mode: Mask, who: char, perm: char)
    requires who in "ugo" && perm in "rwxs"
  {
    !(who == 'o' && perm == 's') && BitOf(who, perm) in mode
  }

  // Nobody named means everybody.
  predicate Named(names: seq<char>, who: char) {
    names == [] || 'a' in names || who in names
  }

  // The bits chmod does not handle stay as they are.
  ghost predicate OthersKept(mode: Mask, now: Mask) {
    forall p: nat :: p !in {0, 1, 2, 3, 4, 5, 6, 7, 8, 10, 11} ==> (p in now <==> p in mode)
  }

  // ---------- Where the bits are ----------

  lemma PlaceOf(who: char, perm: char) returns (i: nat, j: nat)
    requires who in "ugo" && perm in "rwxs"
    ensures i < 3 && j < 4 && WHO[i] == who && MC[j] == perm && ((i, j) == (2, 3) <==> who == 'o' && perm == 's')
    ensures (i, j) != (2, 3) ==> Mode(i, j) == BitOf(who, perm)
  {
    i := if who == 'u' then 0 else if who == 'g' then 1 else 2;
    j := if perm == 'r' then 0 else if perm == 'w' then 1 else if perm == 'x' then 2 else 3;
  }

  lemma IndexOfLetter(j: nat)
    requires j < 4
    ensures Index(MC, MC[j]) == j
  {
    assert MC[1..] == ['w', 'x', 's'] && MC[1..][1..] == ['x', 's'] && MC[1..][1..][1..] == ['s'];
  }

  lemma IndexOfGroup(i: nat)
    requires i < 3
    ensures Index(WHO, WHO[i]) == i
  {
    assert WHO[1..] == ['g', 'o'] && WHO[1..][1..] == ['o'];
  }

  lemma {:induction false} LettersHave(s: seq<char>, j: nat)
    requires j < 4 && forall i :: 0 <= i < |s| ==> s[i] in MC
    ensures j in Letters(s) <==> MC[j] in s
  {
    hide Index;
    if s != [] {
      var n := |s| - 1;
      LettersHave(s[..n], j);
      assert s == s[..n] + [s[n]];
      var k :| 0 <= k < 4 && MC[k] == s[n];
      IndexOfLetter(k);
    }
  }

  // What a new mode grants, from the bits of the groups.
  lemma ScatterGrants(mode: Mask, bits: seq<Mask>, i: nat, j: nat)
    requires |bits| == 3 && i < 3 && j < 4 && (i, j) != (2, 3)
    ensures Mode(i, j) in Scatter(mode, bits) <==> j in bits[i]
    ensures j in Gather(mode)[i] <==> Mode(i, j) in mode
  {
    ModeIs(i, j);
  }

  lemma ScatterKeeps(mode: Mask, bits: seq<Mask>)
    requires |bits| == 3
    ensures OthersKept(mode, Scatter(mode, bits))
  {
    hide GroupOf, PermOf;
  }

  // ---------- One clause ----------

  lemma OneClause(front: seq<char>, op: char, perms: seq<char>, mode: Mask)
    requires ',' !in front && ',' !in perms && IsOp(op) && forall x :: x in perms ==> !IsOp(x)
    ensures var c := front + [op] + perms;
      && LastOp(c) == |front| && c[..|front|] == front && c[|front| + 1..] == perms && c[|front|] == op
      && (perms != [] ==> At(c, |front| + 1) == perms[0])
      && NewMode(c, mode) == match Clause(c, Gather(mode)) case None => None case Some(b) => Some(Scatter(mode, b))
  {
    hide LastOp, Clause, Gather, Scatter;
    var c := front + [op] + perms;
    LastOpBehind(front, op, perms);
    FirstClauseIs(c, |c|);
    assert c[..|c|] == c;
  }

  /** [ugoa]*[-+=][rwxs]*: exactly the permissions of the letters are set, added or
      taken away, for exactly those named. */
  lemma SymbolicClauseIs(names: seq<char>, op: char, perms: seq<char>, mode: Mask)
    requires (forall x :: x in names ==> x in "ugoa") && IsOp(op) && forall x :: x in perms ==> x in "rwxs"
    ensures var r := NewMode(names + [op] + perms, mode);
      && r.Some? && OthersKept(mode, r.value)
      && forall who, perm | who in "ugo" && perm in "rwxs" && !(who == 'o' && perm == 's') ::
        BitOf(who, perm) in r.value <==>
          if !Named(names, who) then BitOf(who, perm) in mode
          else if op == '=' then perm in perms
          else if op == '+' then BitOf(who, perm) in mode || perm in perms
          else BitOf(who, perm) in mode && perm !in perms
  {
    hide LastOp, Letters, Clause, Gather, Scatter, GroupOf, PermOf, Mode, BitOf, OthersKept;
    var c, bits := names + [op] + perms, Gather(mode);
    OneClause(names, op, perms, mode);
    NoLettersAtAll();
    FirstRoundEnds(c, |names|, bits, Letters(perms));
    var after := ForTargets(names, op, bits, Letters(perms));
    ScatterKeeps(mode, after);
    forall who, perm | who in "ugo" && perm in "rwxs" && !(who == 'o' && perm == 's')
      ensures BitOf(who, perm) in Scatter(mode, after) <==>
        if !Named(names, who) then BitOf(who, perm) in mode
        else if op == '=' then perm in perms
        else if op == '+' then BitOf(who, perm) in mode || perm in perms
        else BitOf(who, perm) in mode && perm !in perms
    {
      var i, j := PlaceOf(who, perm);
      ScatterGrants(mode, after, i, j);
      LettersHave(perms, j);
    }
  }

  /** [ugoa]*[-+=][ugo]: the permissions that group has are set, added or taken
      away, for exactly those named. */
  lemma CopyClauseIs(names: seq<char>, op: char, from: char, mode: Mask)
    requires (forall x :: x in names ==> x in "ugoa") && IsOp(op) && from in "ugo"
    ensures var r := NewMode(names + [op] + [from], mode);
      && r.Some? && OthersKept(mode, r.value)
      && forall who, perm | who in "ugo" && perm in "rwxs" && !(who == 'o' && perm == 's') ::
        BitOf(who, perm) in r.value <==>
          if !Named(names, who) then BitOf(who, perm) in mode
          else if op == '=' then Grants(mode, from, perm)
          else if op == '+' then BitOf(who, perm) in mode || Grants(mode, from, perm)
          else BitOf(who, perm) in mode && !Grants(mode, from, perm)
  {
    hide LastOp, Letters, Clause, Gather, Scatter, GroupOf, PermOf, Mode, BitOf, OthersKept, Index;
    var c, bits := names + [op] + [from], Gather(mode);
    OneClause(names, op, [from], mode);
    var k := GroupNamed(from);
    FirstRoundEnds(c, |names|, bits, bits[k]);
    var after := ForTargets(names, op, bits, bits[k]);
    ScatterKeeps(mode, after);
    forall who, perm | who in "ugo" && perm in "rwxs" && !(who == 'o' && perm == 's')
      ensures BitOf(who, perm) in Scatter(mode, after) <==>
        if !Named(names, who) then BitOf(who, perm) in mode
        else if op == '=' then Grants(mode, from, perm)
        else if op == '+' then BitOf(who, perm) in mode || Grants(mode, from, perm)
        else BitOf(who, perm) in mode && !Grants(mode, from, perm)
    {
      var i, j := PlaceOf(who, perm);
      ScatterGrants(mode, after, i, j);
      CopiedIs(mode, from, perm, k, j);
    }
  }

  lemma GroupNamed(from: char) returns (k: nat)
    requires from in "ugo"
    ensures k < 3 && WHO[k] == from && Index(WHO, from) == k
  {
    k := if from == 'u' then 0 else if from == 'g' then 1 else 2;
    IndexOfGroup(k);
  }

  lemma CopiedIs(mode: Mask, from: char, perm: char, k: nat, j: nat)
    requires from in "ugo" && perm in "rwxs" && k < 3 && j < 4 && WHO[k] == from && MC[j] == perm
    ensures j in Gather(mode)[k] <==> Grants(mode, from, perm)
  {
    var i, j' := PlaceOf(from, perm);
    assert i == k && j' == j;
    if (k, j) != (2, 3) {
      ScatterGrants(mode, Gather(mode), k, j);
    }
  }

  // ---------- Octal numbers ----------

  // Whether bit p is set in a number of these octal digits.
  predicate DigitHas(digits: seq<char>, p: nat)
    requires forall i :: 0 <= i < |digits| ==> '0' <= digits[i] <= '7'
  {
    p / 3 < |digits| &&
    var d := digits[|digits| - 1 - p / 3] as int - '0' as int;
    if p % 3 == 0 then d % 2 == 1 else if p % 3 == 1 then d / 2 % 2 == 1 else d / 4 == 1
  }

  lemma {:induction false} OctalHas(digits: seq<char>, p: nat)
    requires forall i :: 0 <= i < |digits| ==> '0' <= digits[i] <= '7'
    ensures p in Octal(digits) <==> DigitHas(digits, p)
  {
    hide DigitHas;
    if digits != [] {
      var front, last := digits[..|digits| - 1], digits[|digits| - 1];
      DigitIs(last, p);
      DigitsMore(digits, p);
      if p >= 3 {
        OctalHas(front, p - 3);
        assert p in Times8(Octal(front)) <==> p - 3 in Octal(front);
      } else {
        assert p !in Times8(Octal(front));
      }
    } else {
      NoDigits(p);
    }
  }

  lemma NoDigits(p: nat)
    ensures !DigitHas([], p)
  {}

  lemma DigitsMore(digits: seq<char>, p: nat)
    requires digits != [] && forall i :: 0 <= i < |digits| ==> '0' <= digits[i] <= '7'
    ensures DigitHas(digits, p) <==>
      if p >= 3 then DigitHas(digits[..|digits| - 1], p - 3)
      else
        var d := digits[|digits| - 1] as int - '0' as int;
        if p == 0 then d % 2 == 1 else if p == 1 then d / 2 % 2 == 1 else d / 4 == 1
  {
    if p >= 3 {
      assert p / 3 == (p - 3) / 3 + 1 && p % 3 == (p - 3) % 3;
    }
  }

  lemma DigitIs(c: char, p: nat)
    requires '0' <= c <= '7'
    ensures var d := c as int - '0' as int;
      p in OctalDigit(c) <==>
        p < 3 && if p == 0 then d % 2 == 1 else if p == 1 then d / 2 % 2 == 1 else d / 4 == 1
  {
    assert c in "01234567";
  }

  /** [-+=][0-7]+: exactly the handled bits of the number are set, added or taken away. */
  lemma OctalClauseIs(op: char, digits: seq<char>, mode: Mask)
    requires IsOp(op) && digits != [] && forall i :: 0 <= i < |digits| ==> '0' <= digits[i] <= '7'
    ensures var r := NewMode([op] + digits, mode);
      && r.Some? && OthersKept(mode, r.value)
      && forall p | p in {0, 1, 2, 3, 4, 5, 6, 7, 8, 10, 11} ::
        p in r.value <==>
          if op == '=' then DigitHas(digits, p)
          else if op == '+' then p in mode || DigitHas(digits, p)
          else p in mode && !DigitHas(digits, p)
  {
    hide NewMode, Octal, DigitHas;
    OctalListIs(op, digits, mode);
    forall p: nat ensures p in Octal(digits) <==> DigitHas(digits, p) {
      OctalHas(digits, p);
    }
  }

  // ---------- What is rejected ----------

  /** A list of one clause is rejected exactly if it has no operator, or what
      follows the last one is not octal digits with nobody named, not one group,
      not permission letters, and not nothing; only a clause that is for nobody
      may have stray letters. */
  lemma RejectedIff(front: seq<char>, op: char, rest: seq<char>, mode: Mask)
    requires ',' !in front && ',' !in rest && op in "+-=" && forall x :: x in rest ==> x !in "+-="
    ensures NewMode(front + [op] + rest, mode) == None <==>
      rest != [] &&
      if '0' <= rest[0] <= '7' then front != [] || (exists i :: 0 <= i < |rest| && !('0' <= rest[i] <= '7'))
      else if rest[0] in "ugo" then |rest| > 1
      else if rest[0] in "rwxs" then (exists i :: 0 <= i < |rest| && rest[i] !in "rwxs")
      else
        || Named(front, 'u') || Named(front, 'g') || Named(front, 'o')
        || (exists i :: 0 < i < |rest| - 1 && rest[i] in "ugo")
  {
    hide LastOp, Octal, Letters, Index, Gather, Scatter;
    OneClause(front, op, rest, mode);
    assert Targets(front, 0) == Named(front, 'u') && Targets(front, 1) == Named(front, 'g');
    assert Targets(front, 2) == Named(front, 'o');
    assert NoTargets(front) <==> !Targets(front, 0) && !Targets(front, 1) && !Targets(front, 2);
  }

  lemma {:induction false} NoOperators(c: seq<char>)
    requires forall x :: x in c ==> x !in "+-="
    ensures LastOp(c) == -1
  {
    if c != [] {
      assert c[|c| - 1] in c;
      NoOperators(c[..|c| - 1]);
    }
  }

  lemma NoOperatorIsRejected(c: seq<char>, mode: Mask)
    requires ',' !in c && forall x :: x in c ==> x !in "+-="
    ensures NewMode(c, mode) == None
  {
    FirstClauseIs(c, |c|);
    assert c[..|c|] == c;
    NoOperators(c);
  }

  /** And a longer list exactly if one of its clauses is, for any file. */
  lemma ListRejectedIff(a: seq<char>, b: seq<char>, mode: Mask)
    ensures NewMode(a + [','] + b, mode) == None <==> NewMode(a, mode) == None || NewMode(b, mode) == None
  {
    hide Clauses, Gather, Scatter;
    ClausesJoined(a, b, Gather(mode));
    if Clauses(a, Gather(mode)).Some? {
      ValidForEveryFile(b, Clauses(a, Gather(mode)).value, Gather(mode));
    }
  }
}
