/** What cat prints, once as a transducer over characters and once line by line. */
module CatText {
  import opened LineNumber

  datatype Options = Options(number: bool, nonblank: bool, squeeze: bool, ends: bool, tabs: bool)

  /** newlines is -1 inside a line, 0 after a line with text, and counts blank
      lines up to 2; line is the last number given out. */
  datatype State = State(newlines: int, line: nat) {
    predicate Valid() { -1 <= newlines <= 2 }
  }

  function Number(on: bool, line: nat): (s: seq<char>)
    ensures '\0' !in s
  {
    if on then NumberText(line + 1) else []
  }

  function End(o: Options): (s: seq<char>)
    ensures '\0' !in s && s == if o.ends then "$\n" else "\n"
  {
    if o.ends then ['$', '\n'] else ['\n']
  }

  function Shown(o: Options, c: char): (s: seq<char>)
    ensures |s| <= 2 && (c != '\0' ==> '\0' !in s) && s == if c == '\t' && o.tabs then "^I" else [c]
  {
    if c == '\t' && o.tabs then ['^', 'I'] else [c]
  }

  function Step(o: Options, st: State, c: char): (r: State)
    requires st.Valid()
    ensures r.Valid()
  {
    if c != '\n' then
      State(-1, if st.newlines >= 0 && o.number then st.line + 1 else st.line)
    else
      var newlines := if st.newlines == 2 then 2 else st.newlines + 1;
      State(newlines, if newlines > 0 && !(newlines == 2 && o.squeeze) && o.number && !o.nonblank
              then st.line + 1 else st.line)
  }

  function Emit(o: Options, st: State, c: char): (s: seq<char>)
    requires st.Valid()
    ensures c != '\0' ==> '\0' !in s
  {
    if c != '\n' then Number(st.newlines >= 0 && o.number, st.line) + Shown(o, c)
    else if st.newlines >= 1 && o.squeeze then []
    else Number(st.newlines >= 0 && o.number && !o.nonblank, st.line) + End(o)
  }

  function After(o: Options, st: State, s: seq<char>): (r: State)
    requires st.Valid()
    ensures r.Valid()
    decreases |s|
  {
    if s == [] then st else After(o, Step(o, st, s[0]), s[1..])
  }

  function Output(o: Options, st: State, s: seq<char>): seq<char>
    requires st.Valid()
    decreases |s|
  {
    if s == [] then [] else Emit(o, st, s[0]) + Output(o, Step(o, st, s[0]), s[1..])
  }

  /** Cutting the input anywhere, between files or inside a line, and carrying the
      state over the cut changes nothing. */
  lemma {:induction false} CutAnywhere(o: Options, st: State, a: seq<char>, b: seq<char>)
    requires st.Valid()
    ensures Output(o, st, a + b) == Output(o, st, a) + Output(o, After(o, st, a), b)
    ensures After(o, st, a + b) == After(o, After(o, st, a), b)
    decreases |a|
  {
    if a == [] {
      assert a + b == b;
    } else {
      assert (a + b)[0] == a[0] && (a + b)[1..] == a[1..] + b;
      CutAnywhere(o, Step(o, st, a[0]), a[1..], b);
    }
  }

  lemma {:induction false} OutputIsText(o: Options, st: State, s: seq<char>)
    requires st.Valid() && '\0' !in s
    ensures '\0' !in Output(o, st, s)
    decreases |s|
  {
    if s != [] {
      OutputIsText(o, Step(o, st, s[0]), s[1..]);
    }
  }

  // The length of the first line, with its newline if it has one.
  function FirstLine(s: seq<char>): (n: nat)
    requires s != []
    ensures 0 < n <= |s| && '\n' !in s[..n - 1] && (s[n - 1] == '\n' || n == |s|)
  {
    if s[0] == '\n' || |s| == 1 then 1
    else assert s == [s[0]] + s[1..]; 1 + FirstLine(s[1..])
  }

  function ShownAll(o: Options, s: seq<char>): seq<char> {
    if s == [] then [] else Shown(o, s[0]) + ShownAll(o, s[1..])
  }

  function Body(l: seq<char>): seq<char>
    requires l != []
  {
    if l[|l| - 1] == '\n' then l[..|l| - 1] else l
  }

  const BLANK := ['\n']

  // -s drops a blank line after a blank line; -n numbers every line kept, -b only those with text.
  predicate Kept(o: Options, blankBefore: bool, l: seq<char>) {
    !(l == BLANK && blankBefore && o.squeeze)
  }

  predicate Numbered(o: Options, blankBefore: bool, l: seq<char>) {
    Kept(o, blankBefore, l) && o.number && !(l == BLANK && o.nonblank)
  }

  function LineText(o: Options, blankBefore: bool, line: nat, l: seq<char>): seq<char>
    requires l != []
  {
    if !Kept(o, blankBefore, l) then []
    else Number(Numbered(o, blankBefore, l), line) + ShownAll(o, Body(l)) + if l[|l| - 1] == '\n' then End(o) else []
  }

  function NextLine(o: Options, blankBefore: bool, line: nat, l: seq<char>): nat {
    if Numbered(o, blankBefore, l) then line + 1 else line
  }

  /** The documented meaning, line by line. */
  function ByLine(o: Options, blankBefore: bool, line: nat, s: seq<char>): seq<char>
    decreases |s|
  {
    if s == [] then [] else
    var l := s[..FirstLine(s)];
    LineText(o, blankBefore, line, l) + ByLine(o, l == BLANK, NextLine(o, blankBefore, line, l), s[|l|..])
  }

  lemma InsideOne(o: Options, line: nat, c: char, r: seq<char>)
    requires c != '\n'
    ensures Output(o, State(-1, line), [c] + r) == Shown(o, c) + Output(o, State(-1, line), r)
  {
    hide NumberText, Shown;
    assert ([c] + r)[1..] == r;
    assert Number(false, line) + Shown(o, c) == Shown(o, c);
  }

  lemma {:induction false} InsideALine(o: Options, line: nat, s: seq<char>, r: seq<char>)
    requires '\n' !in s
    ensures Output(o, State(-1, line), s + r) == ShownAll(o, s) + Output(o, State(-1, line), r)
  {
    hide Output, Shown;
    if s == [] {
      assert s + r == r;
    } else {
      assert s + r == [s[0]] + (s[1..] + r);
      InsideOne(o, line, s[0], s[1..] + r);
      InsideALine(o, line, s[1..], r);
    }
  }

  lemma {:induction false} StaysInside(o: Options, line: nat, s: seq<char>, r: seq<char>)
    requires '\n' !in s
    ensures After(o, State(-1, line), s + r) == After(o, State(-1, line), r)
  {
    if s == [] {
      assert s + r == r;
    } else {
      assert (s + r)[0] == s[0] && (s + r)[1..] == s[1..] + r;
      StaysInside(o, line, s[1..], r);
    }
  }

  lemma {:induction false} ShownAllMore(o: Options, s: seq<char>, c: char)
    ensures ShownAll(o, s + [c]) == ShownAll(o, s) + Shown(o, c)
  {
    if s != [] {
      assert (s + [c])[1..] == s[1..] + [c];
      ShownAllMore(o, s[1..], c);
    } else {
      assert ShownAll(o, [c]) == Shown(o, c) + ShownAll(o, []);
    }
  }

  // A number is put in front of a line and then the line is as good as begun.
  lemma NumberFirst(o: Options, st: State, s: seq<char>)
    requires st.Valid() && s != [] && s[0] != '\n'
    ensures var on := st.newlines >= 0 && o.number;
      var begun := State(-1, if on then st.line + 1 else st.line);
      && Output(o, st, s) == Number(on, st.line) + Output(o, begun, s)
      && After(o, st, s) == After(o, begun, s)
  {
    hide Number, Shown, Step;
    var on := st.newlines >= 0 && o.number;
    var begun := State(-1, if on then st.line + 1 else st.line);
    BeginsALine(o, st, s[0]);
    var more := Output(o, begun, s[1..]);
    assert Output(o, begun, s) == Shown(o, s[0]) + more;
    assert Number(on, st.line) + Shown(o, s[0]) + more == Number(on, st.line) + (Shown(o, s[0]) + more);
  }

  lemma BeginsALine(o: Options, st: State, c: char)
    requires st.Valid() && c != '\n'
    ensures var begun := State(-1, if st.newlines >= 0 && o.number then st.line + 1 else st.line);
      Step(o, st, c) == Step(o, begun, c) == begun && Emit(o, begun, c) == Shown(o, c)
  {
    assert Number(false, 0) + Shown(o, c) == Shown(o, c);
  }

  lemma EndOfLine(o: Options, line: nat, s: seq<char>)
    requires s != [] && s[0] == '\n'
    ensures Output(o, State(-1, line), s) == End(o) + Output(o, State(0, line), s[1..])
  {
    assert Number(false, line) + End(o) == End(o);
  }

  lemma OneLine(o: Options, st: State, l: seq<char>, r: seq<char>)
    requires 0 <= st.newlines <= 2 && l != [] && '\n' !in l[..|l| - 1] && (l[|l| - 1] == '\n' || r == [])
    ensures var newlines := if l == BLANK then Step(o, st, '\n').newlines else 0;
      var blankBefore := st.newlines >= 1;
      Output(o, st, l + r) == LineText(o, blankBefore, st.line, l)
        + if l[|l| - 1] == '\n' then Output(o, State(newlines, NextLine(o, blankBefore, st.line, l)), r) else []
  {
    hide Number, End, ShownAll, Output;
    if l[0] == '\n' {
      assert l == BLANK;
      BlankLine(o, st, r);
    } else {
      TextLine(o, st, l, r);
    }
  }

  lemma BlankLine(o: Options, st: State, r: seq<char>)
    requires 0 <= st.newlines <= 2
    ensures Output(o, st, BLANK + r) == LineText(o, st.newlines >= 1, st.line, BLANK) + Output(o, Step(o, st, '\n'), r)
    ensures Step(o, st, '\n').line == NextLine(o, st.newlines >= 1, st.line, BLANK)
  {
    hide NumberText;
    assert (BLANK + r)[1..] == r && Body(BLANK) == [];
    assert LineText(o, st.newlines >= 1, st.line, BLANK) == Emit(o, st, '\n');
  }

  lemma TextLine(o: Options, st: State, l: seq<char>, r: seq<char>)
    requires 0 <= st.newlines <= 2 && l != [] && '\n' !in l[..|l| - 1] && (l[|l| - 1] == '\n' || r == [])
    requires l[0] != '\n'
    ensures var line := if o.number then st.line + 1 else st.line;
      Output(o, st, l + r)
      == Number(o.number, st.line) + ShownAll(o, Body(l)) + (if l[|l| - 1] == '\n' then End(o) else [])
        + if l[|l| - 1] == '\n' then Output(o, State(0, line), r) else []
  {
    hide ShownAll, End, Number, Output;
    var body, line := Body(l), if o.number then st.line + 1 else st.line;
    NumberFirst(o, st, l + r);
    if l[|l| - 1] == '\n' {
      assert l + r == body + (BLANK + r) && (BLANK + r)[1..] == r;
      InsideALine(o, line, body, BLANK + r);
      EndOfLine(o, line, BLANK + r);
    } else {
      assert l + r == body + [];
      InsideALine(o, line, body, []);
      NoOutput(o, State(-1, line));
    }
  }

  /** The transducer computes the documented meaning. */
  lemma {:induction false} OutputIsByLine(o: Options, st: State, s: seq<char>)
    requires 0 <= st.newlines <= 2
    ensures Output(o, st, s) == ByLine(o, st.newlines >= 1, st.line, s)
    decreases |s|
  {
    hide Output, LineText, NextLine;
    if s != [] {
      var n := FirstLine(s);
      var l, r := s[..n], s[n..];
      assert l[..|l| - 1] == s[..n - 1] && l + r == s;
      OneLine(o, st, l, r);
      var newlines := if l == BLANK then Step(o, st, '\n').newlines else 0;
      OutputIsByLine(o, State(newlines, NextLine(o, st.newlines >= 1, st.line, l)), r);
      NoOutput(o, st);
    } else {
      NoOutput(o, st);
    }
  }

  lemma NoOutput(o: Options, st: State)
    requires st.Valid()
    ensures Output(o, st, []) == []
  {}
}
