/** What each of cat's options does to the text, in the words of its usage:
    together they say what is printed, character by character. */
module CatLaws {
  import opened LineNumber
  import opened CatText

  const START := State(0, 0)

  /** The whole text as printed, from the first line on. */
  function Printout(o: Options, s: seq<char>): seq<char> {
    ByLine(o, false, 0, s)
  }

  lemma PrintoutIs(o: Options, s: seq<char>)
    ensures Printout(o, s) == Output(o, START, s)
  {
    OutputIsByLine(o, START, s);
  }

  // ---------- -E and -T ----------

  // s with every c replaced by a text.
  function Replaced(s: seq<char>, c: char, text: seq<char>): seq<char> {
    if s == [] then [] else (if s[0] == c then text else [s[0]]) + Replaced(s[1..], c, text)
  }

  lemma {:induction false} ReplacedJoined(a: seq<char>, b: seq<char>, c: char, text: seq<char>)
    ensures Replaced(a + b, c, text) == Replaced(a, c, text) + Replaced(b, c, text)
  {
    if a == [] {
      assert a + b == b;
    } else {
      assert (a + b)[1..] == a[1..] + b;
      ReplacedJoined(a[1..], b, c, text);
    }
  }

  function Marked(s: seq<char>, ends: bool, tabs: bool): seq<char> {
    var t := if tabs then Replaced(s, '\t', "^I") else s;
    if ends then Replaced(t, '\n', "$\n") else t
  }

  lemma MarkedFirst(s: seq<char>, ends: bool, tabs: bool)
    requires s != []
    ensures Marked(s, ends, tabs) == Marked([s[0]], ends, tabs) + Marked(s[1..], ends, tabs)
  {
    var t := if tabs then Replaced([s[0]], '\t', "^I") else [s[0]];
    assert s == [s[0]] + s[1..];
    ReplacedJoined([s[0]], s[1..], '\t', "^I");
    ReplacedJoined(t, if tabs then Replaced(s[1..], '\t', "^I") else s[1..], '\n', "$\n");
  }

  lemma MarkedOne(o: Options, c: char)
    ensures Marked([c], o.ends, o.tabs) == if c == '\n' then End(o) else Shown(o, c)
  {
    assert [c][1..] == [] && "^I"[1..] == "I" && "I"[1..] == "";
    assert Replaced([c], '\t', "^I") == if c == '\t' then "^I" else [c];
    assert Replaced([c], '\n', "$\n") == if c == '\n' then "$\n" else [c];
    assert Replaced("^I", '\n', "$\n") == ['^'] + Replaced("I", '\n', "$\n");
  }

  lemma {:induction false} OutputIsMarked(o: Options, st: State, s: seq<char>)
    requires st.Valid() && !o.number && !o.squeeze
    ensures Output(o, st, s) == Marked(s, o.ends, o.tabs)
    decreases |s|
  {
    hide Marked, Step, Shown, End;
    if s == [] {
      NothingMarked(o);
    } else {
      MarkedFirst(s, o.ends, o.tabs);
      MarkedOne(o, s[0]);
      OutputIsMarked(o, Step(o, st, s[0]), s[1..]);
      assert Emit(o, st, s[0]) == Marked([s[0]], o.ends, o.tabs);
    }
  }

  lemma NothingMarked(o: Options)
    ensures Marked([], o.ends, o.tabs) == []
  {}

  /** Without -n and -s cat prints its input, -T having put ^I for every tab and
      -E a dollar sign in front of every newline. */
  lemma EndsAndTabs(o: Options, s: seq<char>)
    requires !o.number && !o.squeeze
    ensures Printout(o, s) ==
      var t := if o.tabs then Replaced(s, '\t', "^I") else s;
      if o.ends then Replaced(t, '\n', "$\n") else t
  {
    PrintoutIs(o, s);
    OutputIsMarked(o, START, s);
  }

  // ---------- Where the lines are ----------

  predicate AtLineStart(s: seq<char>) {
    s == [] || s[|s| - 1] == '\n'
  }

  // A newline at the end of s ends a blank line.
  predicate BlankAtEnd(s: seq<char>) {
    s != [] && s[|s| - 1] == '\n' && AtLineStart(s[..|s| - 1])
  }

  lemma OneMore(o: Options, s: seq<char>, c: char)
    ensures After(o, START, s + [c]) == Step(o, After(o, START, s), c)
    ensures Output(o, START, s + [c]) == Output(o, START, s) + Emit(o, After(o, START, s), c)
  {
    hide Step, Emit;
    CutAnywhere(o, START, s, [c]);
    var st := After(o, START, s);
    assert [c][1..] == [];
    assert Output(o, st, [c]) == Emit(o, st, c) + Output(o, Step(o, st, c), []);
  }

  lemma AfterMore(o: Options, s: seq<char>, c: char)
    ensures After(o, START, s + [c]) == Step(o, After(o, START, s), c)
  {
    hide Output, After, Step, Emit;
    OneMore(o, s, c);
  }

  lemma StartTells(s: seq<char>, c: char)
    ensures (AtLineStart(s + [c]) <==> c == '\n') && (BlankAtEnd(s + [c]) <==> c == '\n' && AtLineStart(s))
  {
    assert (s + [c])[..|s|] == s;
  }

  lemma {:induction false} NewlinesTell(o: Options, s: seq<char>)
    ensures var st := After(o, START, s);
      (st.newlines >= 0 <==> AtLineStart(s)) && (st.newlines >= 1 <==> BlankAtEnd(s))
    decreases |s|
  {
    hide After, Output, BlankAtEnd, AtLineStart;
    if s != [] {
      var front, c := s[..|s| - 1], s[|s| - 1];
      NewlinesTell(o, front);
      AfterMore(o, front, c);
      StartTells(front, c);
      assert s == front + [c];
    } else {
      EmptyIsStart();
      NothingRead(o);
    }
  }

  lemma EmptyIsStart()
    ensures AtLineStart([]) && !BlankAtEnd([])
  {}

  lemma NothingRead(o: Options)
    ensures After(o, START, []) == START && Output(o, START, []) == []
  {}

  // ---------- -s ----------

  // s without the newline of any blank line behind another.
  function Squeezed(s: seq<char>): seq<char> {
    if s == [] then []
    else
      var front := s[..|s| - 1];
      Squeezed(front) + if BlankAtEnd(s) && BlankAtEnd(front) then [] else [s[|s| - 1]]
  }

  lemma SqueezedMore(s: seq<char>, c: char)
    ensures Squeezed(s + [c]) == if c == '\n' && BlankAtEnd(s) then Squeezed(s) else Squeezed(s) + [c]
  {
    assert (s + [c])[..|s|] == s;
  }

  // A state with squeezing and one without, of which the latter has not seen the blank lines dropped.
  predicate Alike(st: State, st': State) {
    st.Valid() && st' == State(if st.newlines == 2 then 1 else st.newlines, st.line)
  }

  lemma StepsAlike(o: Options, p: Options, st: State, st': State, c: char)
    requires o.squeeze && p == o.(squeeze := false) && Alike(st, st')
    ensures
      if c == '\n' && st.newlines >= 1 then Emit(o, st, c) == [] && Alike(Step(o, st, c), st')
      else Emit(o, st, c) == Emit(p, st', c) && Alike(Step(o, st, c), Step(p, st', c))
  {
    hide NumberText;
  }

  lemma {:induction false} SqueezedAlike(o: Options, p: Options, s: seq<char>)
    requires o.squeeze && p == o.(squeeze := false)
    ensures Output(o, START, s) == Output(p, START, Squeezed(s))
    ensures Alike(After(o, START, s), After(p, START, Squeezed(s)))
    decreases |s|
  {
    hide After, Output, Emit, Step, Squeezed, BlankAtEnd;
    if s != [] {
      var front, c := s[..|s| - 1], s[|s| - 1];
      SqueezedAlike(o, p, front);
      SqueezedMore(front, c);
      NewlinesTell(o, front);
      OneMore(o, front, c);
      assert s == front + [c];
      OneMore(p, Squeezed(front), c);
      StepsAlike(o, p, After(o, START, front), After(p, START, Squeezed(front)), c);
    } else {
      NothingSqueezed();
      NothingRead(o);
      NothingRead(p);
    }
  }

  lemma NothingSqueezed()
    ensures Squeezed([]) == []
  {}

  /** -s: cat prints what it would print without it of the text less the blank
      lines that follow a blank line. */
  lemma SqueezeDropsBlanks(o: Options, s: seq<char>)
    requires o.squeeze
    ensures Printout(o, s) == Printout(o.(squeeze := false), Squeezed(s))
  {
    PrintoutIs(o, s);
    PrintoutIs(o.(squeeze := false), Squeezed(s));
    SqueezedAlike(o, o.(squeeze := false), s);
  }

  // ---------- -n and -b ----------

  // The lines that end in s: all of them, or those with text.
  function Lines(s: seq<char>, textOnly: bool): nat {
    if s == [] then 0
    else Lines(s[..|s| - 1], textOnly) + if s[|s| - 1] == '\n' && !(textOnly && BlankAtEnd(s)) then 1 else 0
  }

  lemma {:induction false} LinesNumbered(o: Options, s: seq<char>)
    requires o.number && !o.squeeze
    ensures After(o, START, s).line == Lines(s, o.nonblank) + if AtLineStart(s) then 0 else 1
    decreases |s|
  {
    hide After, Output, Step, Lines, BlankAtEnd, AtLineStart;
    if s != [] {
      var front, c := s[..|s| - 1], s[|s| - 1];
      LinesNumbered(o, front);
      LinesMore(front, c, o.nonblank);
      NewlinesTell(o, front);
      AfterMore(o, front, c);
      StartTells(front, c);
      assert s == front + [c];
      StepNumbers(o, After(o, START, front), c);
    } else {
      EmptyIsStart();
      NoLines(o.nonblank);
      NothingRead(o);
    }
  }

  lemma LinesMore(s: seq<char>, c: char, textOnly: bool)
    ensures Lines(s + [c], textOnly) ==
      Lines(s, textOnly) + if c == '\n' && !(textOnly && AtLineStart(s)) then 1 else 0
  {
    assert (s + [c])[..|s|] == s;
  }

  lemma NoLines(textOnly: bool)
    ensures Lines([], textOnly) == 0
  {}

  lemma StepNumbers(o: Options, st: State, c: char)
    requires st.Valid() && o.number && !o.squeeze
    ensures Step(o, st, c).line == st.line +
      if c == '\n' then (if st.newlines >= 0 && !o.nonblank then 1 else 0) else if st.newlines >= 0 then 1 else 0
  {}

  lemma LineAlone(o: Options, blankBefore: bool, line: nat, l: seq<char>)
    requires l != [] && '\n' !in l[..|l| - 1] && !o.squeeze
    ensures ByLine(o, blankBefore, line, l) == LineText(o, blankBefore, line, l)
  {
    hide LineText, NextLine;
    WholeLine(l);
    assert l[..|l|] == l && l[|l|..] == [];
    NothingByLine(o, l == BLANK, NextLine(o, blankBefore, line, l));
  }

  lemma NumberInFront(o: Options, blankBefore: bool, line: nat, l: seq<char>)
    requires l != [] && o.number && !o.squeeze
    ensures LineText(o, blankBefore, line, l) ==
      (if o.nonblank && l == ['\n'] then [] else NumberText(line + 1)) + LineText(o.(number := false), false, 0, l)
  {
    hide NumberText, ShownAll;
    SameText(o, o.(number := false), Body(l));
  }

  lemma WholeLine(l: seq<char>)
    requires l != [] && '\n' !in l[..|l| - 1]
    ensures FirstLine(l) == |l|
  {
    var n := FirstLine(l);
    assert forall i :: 0 <= i < |l| - 1 ==> l[i] == l[..|l| - 1][i];
  }

  lemma {:induction false} SameText(o: Options, p: Options, s: seq<char>)
    requires p == o.(number := false)
    ensures ShownAll(p, s) == ShownAll(o, s)
  {
    if s != [] {
      SameText(o, p, s[1..]);
    }
  }

  lemma NothingByLine(o: Options, blankBefore: bool, line: nat)
    ensures ByLine(o, blankBefore, line, []) == []
  {}

  /** -n: in front of each line stands the number of lines up to it; with -b of
      lines with text, and nothing in front of a blank one. */
  lemma NumbersCountLines(o: Options, a: seq<char>, l: seq<char>)
    requires o.number && !o.squeeze && AtLineStart(a) && l != [] && '\n' !in l[..|l| - 1]
    ensures Printout(o, a + l) == Printout(o, a)
      + (if o.nonblank && l == ['\n'] then [] else NumberText(Lines(a, o.nonblank) + 1))
      + Printout(o.(number := false), l)
  {
    hide Output, After, ByLine, NumberText, LineText;
    PrintoutIs(o, a + l);
    PrintoutIs(o, a);
    CutAnywhere(o, START, a, l);
    var st := After(o, START, a);
    NewlinesTell(o, a);
    LinesNumbered(o, a);
    OutputIsByLine(o, st, l);
    LineAlone(o, st.newlines >= 1, st.line, l);
    LineAlone(o.(number := false), false, 0, l);
    NumberInFront(o, st.newlines >= 1, st.line, l);
  }

  /** A line's number: its decimal digits, padded to six columns with blanks in
      front, and a tab, up to eighteen digits. */
  lemma NumberIsPadded(k: nat)
    requires k < 1_000_000_000_000_000_000
    ensures exists m :: PaddedBy(NumberText(k), m, k)
  {
    hide Decimal;
    var s, m := NumberText(k), if |Decimal(k)| < 6 then 6 - |Decimal(k)| else 0;
    DecimalReadsBack(k);
    assert s[m..|s| - 1] == Decimal(k);
    assert PaddedBy(s, m, k);
  }

  // m blanks, no more than fill six columns, the digits of k and a tab.
  ghost predicate PaddedBy(s: seq<char>, m: int, k: nat) {
    && 0 <= m < |s| - 1 && (m > 0 ==> |s| == 7) && |s| >= 7 && (forall i :: 0 <= i < m ==> s[i] == ' ')
    && (forall i :: m <= i < |s| - 1 ==> '0' <= s[i] <= '9') && s[|s| - 1] == '\t'
    && Value(s[m..|s| - 1]) == k && (k > 0 ==> s[m] != '0')
  }
}
