/**
 When the two shells do the same. They differ in one thing: the interactive shell trims the first
 line of a statement before it looks at it.
 */
module ShellsAgree {
  import opened Shells
  import opened Text

  // ---------- where the statements end ----------

  /** A command whose last backslash is followed by space: only after trimming it goes on. */
  predicate SplitsCommand(line: string) {
    IsCommand(line) && HasSuffix(TrimSpace(line), "\\") && !HasSuffix(line, "\\")
  }

  function Core(line: string): string
    requires HasSuffix(TrimSpace(line), "\\")
  {
    TrimSpace(line)[..|TrimSpace(line)| - 1]
  }

  /** What is left after trimming neither starts nor ends with space, and is trimmed no further. */
  lemma TrimmedIs(line: string)
    ensures TrimSpace(line) != "" ==> !IsSpace(TrimSpace(line)[0]) && !IsSpace(TrimSpace(line)[|TrimSpace(line)| - 1])
    ensures TrimSpace(TrimSpace(line)) == TrimSpace(line)
    ensures |TrimSpace(line)| <= |line|
    ensures |TrimSpace(line)| == |line| ==> TrimSpace(line) == line
  {
    hide IsSpace, TrimLeft, TrimRight;
    var l := TrimLeft(line);
    var t := TrimRight(l);
    TrimLeftEnds(line);
    TrimRightEnds(l);
    if t != "" { assert t[0] == l[0]; }
    NothingToTrim(t);
    if |t| == |line| { assert l == line; }
  }

  lemma NothingToTrim(t: string)
    requires t != "" ==> !IsSpace(t[0]) && !IsSpace(t[|t| - 1])
    ensures TrimLeft(t) == t && TrimRight(t) == t
  {
  }

  /** The first thing in a line that is not space. */
  lemma CommandInk(line: string)
    ensures IsCommand(line) <==> TrimLeft(line) != "" && TrimLeft(line)[0] == '\\'
  {
    hide TrimLeft, TrimRight;
    var l := TrimLeft(line);
    TrimLeftEnds(line);
    TrimRightEnds(l);
    assert !IsSpace('\\');
    if TrimRight(l) != "" { assert TrimRight(l)[0] == l[0]; }
  }

  lemma SuffixStays(line: string)
    requires HasSuffix(line, "\\")
    ensures HasSuffix(TrimSpace(line), "\\")
  {
    hide TrimLeft;
    var l := TrimLeft(line);
    assert line[|line| - 1] == '\\' && !IsSpace('\\');
    TrimLeftEnds(line);
    assert l[|l| - 1] == line[|line| - 1];
    assert TrimRight(l) == l;
  }

  /** Trimming a first line changes where the statement ends exactly for a command that is split. */
  lemma TakesAlike(line: string)
    requires TrimSpace(line) != ""
    ensures Take(Fresh, line).1 == Take(Fresh, TrimSpace(line)).1 <==> !SplitsCommand(line)
    ensures !SplitsCommand(line) && TrimSpace(line) != line ==>
              |Take(Fresh, line).0| > |Take(Fresh, TrimSpace(line)).0|
    ensures SplitsCommand(line) ==>
              Take(Fresh, line) == (line, Fresh) && Take(Fresh, TrimSpace(line)) == (Core(line), Command)
  {
    hide TrimSpace;
    TrimmedIs(line);
    if HasSuffix(line, "\\") { SuffixStays(line); }
  }

  /** No first line of a statement is a command that is split. */
  predicate NoSplitCommand(comment: string, inputs: seq<Input>) {
    inputs != [] ==>
      var n := |inputs| - 1;
      && NoSplitCommand(comment, inputs[..n])
      && !SplitsAt(comment, Run(comment, false, inputs[..n]).0, inputs[n])
  }

  predicate SplitsAt(comment: string, st: State, input: Input) {
    input.Line? && st.mode == Fresh && !Skipped(comment, input.line) && SplitsCommand(input.line)
  }

  lemma StepModes(comment: string, f: State, t: State, input: Input, no: nat)
    requires f.mode == t.mode
    ensures Step(comment, false, f, input, no).0.mode == Step(comment, true, t, input, no).0.mode
       <==> !SplitsAt(comment, f, input)
  {
    hide Take, SplitsCommand, TrimSpace;
    if input.Line? && f.mode == Fresh && !Skipped(comment, input.line) { TakesAlike(input.line); }
  }

  /** Both shells end their statements with the same lines exactly when no command is split. */
  lemma {:induction false} SameCuts(comment: string, inputs: seq<Input>)
    ensures (forall m :: 0 <= m <= |inputs| ==>
               Run(comment, false, inputs[..m]).0.mode == Run(comment, true, inputs[..m]).0.mode)
       <==> NoSplitCommand(comment, inputs)
  {
    hide Step, SplitsAt, Run;
    assert inputs[..|inputs|] == inputs;
    if inputs == [] {
      RunNone(comment, false);
      RunNone(comment, true);
    } else {
      var n := |inputs| - 1;
      SameCuts(comment, inputs[..n]);
      assert forall m :: 0 <= m <= n ==> inputs[..n][..m] == inputs[..m];
      RunNext(comment, false, inputs, n);
      RunNext(comment, true, inputs, n);
      var f, t := Run(comment, false, inputs[..n]).0, Run(comment, true, inputs[..n]).0;
      if f.mode == t.mode { StepModes(comment, f, t, inputs[n], n + 1); }
    }
  }

  /** One shell ends the statement at such a line, the other goes on. */
  lemma SplitCommandEnds(comment: string, line: string, no: nat)
    requires !Skipped(comment, line) && SplitsCommand(line)
    ensures Step(comment, false, START, Line(line), no) == (START, [Statement(line, no)])
    ensures Step(comment, true, START, Line(line), no) == (State(Command, Core(line), no), [])
  {
    hide Take, TrimSpace;
    TakesAlike(line);
    StepIs(comment, false, START, line, no);
    StepIs(comment, true, START, line, no);
    assert "" + line == line && "" + Core(line) == Core(line);
  }

  // ---------- what is passed on ----------

  /** The first line of every statement has no space around it. */
  predicate FirstLinesTrimmed(comment: string, inputs: seq<Input>) {
    inputs != [] ==>
      var n := |inputs| - 1;
      && FirstLinesTrimmed(comment, inputs[..n])
      && (inputs[n].Line? && Run(comment, false, inputs[..n]).0.mode == Fresh && !Skipped(comment, inputs[n].line)
          ==> TrimSpace(inputs[n].line) == inputs[n].line)
  }

  lemma {:induction false} SameRun(comment: string, inputs: seq<Input>)
    requires FirstLinesTrimmed(comment, inputs)
    ensures Run(comment, false, inputs) == Run(comment, true, inputs)
  {
    hide Take, Skipped;
    if inputs != [] { SameRun(comment, inputs[..|inputs| - 1]); }
  }

  /** A statement is numbered with a line that has been read; an unfinished one comes after all others. */
  lemma {:induction false} NumbersGrow(comment: string, trim: bool, inputs: seq<Input>)
    ensures var (st, done) := Run(comment, trim, inputs);
            && st.at <= |inputs| && (st.mode == Fresh ==> st == START)
            && (forall s :: s in done ==> s.at <= |inputs| && (st.mode != Fresh ==> s.at < st.at))
  {
    hide Take, Skipped;
    if inputs != [] { NumbersGrow(comment, trim, inputs[..|inputs| - 1]); }
  }

  type Ran = (State, seq<Statement>)

  /**
   How the runs of the two shells differ once an untrimmed first line has been read: a statement
   that only the one-shot shell has passed on; a statement still open in both, longer in the
   one-shot shell; or a split command, still open in the interactive shell, to which the text
   more has been added.
   */
  datatype Gap = Ended(s: Statement) | Open | Split(line: string, more: string)

  ghost predicate Parted(gap: Gap, f: Ran, t: Ran, m: nat) {
    match gap
    case Ended(s) =>
      s in f.1 && s.text != "" && s !in t.1 && s.at <= m && (t.0.mode != Fresh ==> s.at < t.0.at)
    case Open =>
      && f.0.mode == t.0.mode != Fresh && f.0.at == t.0.at <= m && |f.0.text| > |t.0.text|
      && forall s :: s in t.1 ==> s.at < t.0.at
    case Split(line, more) =>
      && t.0.mode == Command && t.0.at <= m && (forall s :: s in t.1 ==> s.at < t.0.at)
      && SplitsCommand(line) && Statement(line, t.0.at) in f.1 && t.0.text == Core(line) + more
      && (|| (more == "" && m == t.0.at && f.0 == START)
          || (f.0.mode == Command && f.0.at == t.0.at + 1 <= m && f.0.text == more)
          || (TrimLeft(more) != "" && !IsCommand(more)))
  }

  lemma {:induction false} InNonEmpty(ss: seq<Statement>, s: Statement)
    ensures s in NonEmpty(ss) <==> s in ss && s.text != ""
  {
    if ss != [] {
      InNonEmpty(ss[..|ss| - 1], s);
      assert ss == ss[..|ss| - 1] + [ss[|ss| - 1]];
    }
  }

  /** Runs that have parted do not pass on the same, even if all ends here. */
  lemma PartedDiffer(gap: Gap, f: Ran, t: Ran, m: nat)
    requires Parted(gap, f, t, m)
    ensures NonEmpty(f.1 + if f.0.text == "" then [] else [Statement(f.0.text, f.0.at)]) != NonEmpty(t.1)
  {
    hide NonEmpty, IsCommand, HasSuffix;
    var s := match gap
      case Ended(s) => s
      case Open => Statement(f.0.text, f.0.at)
      case Split(line, _) => Statement(line, t.0.at);
    if gap.Split? { SplitIsText(gap.line); }
    InNonEmpty(f.1 + if f.0.text == "" then [] else [Statement(f.0.text, f.0.at)], s);
    InNonEmpty(t.1, s);
  }

  lemma SplitIsText(line: string)
    requires SplitsCommand(line)
    ensures line != ""
  {
    hide TrimLeft;
    CommandInk(line);
    TrimLeftIs(line);
  }

  /** Both runs after one more line. */
  ghost predicate Read(comment: string, f: Ran, t: Ran, line: string, m: nat, f': Ran, t': Ran) {
    && f' == (Step(comment, false, f.0, Line(line), m + 1).0, f.1 + Step(comment, false, f.0, Line(line), m + 1).1)
    && t' == (Step(comment, true, t.0, Line(line), m + 1).0, t.1 + Step(comment, true, t.0, Line(line), m + 1).1)
  }

  lemma EndedStays(comment: string, s: Statement, f: Ran, t: Ran, line: string, m: nat, f': Ran, t': Ran)
    requires Parted(Ended(s), f, t, m) && Read(comment, f, t, line, m, f', t')
    ensures Parted(Ended(s), f', t', m + 1)
  {
    hide Take, Skipped, TrimSpace;
  }

  lemma OpenGoesOn(comment: string, f: Ran, t: Ran, line: string, m: nat, f': Ran, t': Ran) returns (gap: Gap)
    requires Parted(Open, f, t, m) && Read(comment, f, t, line, m, f', t')
    ensures Parted(gap, f', t', m + 1)
  {
    hide Take, Skipped, TrimSpace;
    var (text, mode) := Take(f.0.mode, line);
    gap := if mode == Fresh then Ended(Statement(f.0.text + text, f.0.at)) else Open;
  }

  /** What makes a split command whole again would be a command of its own. */
  lemma OnlyCommandsFill(line: string, more: string)
    requires SplitsCommand(line) && line == Core(line) + more
    ensures IsCommand(more) && more != ""
  {
    hide TrimLeft, TrimRight;
    CommandInk(line);
    CommandInk(more);
    var core := Core(line);
    if core != "" {
      var l := TrimLeft(line);
      TrimLeftIs(line);
      TrimRightEnds(l);
      TrimLeftIs(more);
      assert !IsSpace('\\');
      assert TrimSpace(line)[0] == '\\' && core[0] == '\\';
      assert line[0] == core[0];
      assert l == line;
      assert TrimSpace(line) <= line;
      assert more[0] == line[|core|] == TrimSpace(line)[|core|];
      assert more[0] == '\\';
    } else {
      SplitIsText(line);
      assert more == line;
    }
  }

  lemma InkStays(more: string, x: string)
    requires TrimLeft(more) != ""
    ensures TrimLeft(more + x) == TrimLeft(more) + x
    ensures !IsCommand(more) ==> !IsCommand(more + x)
  {
    CommandInk(more);
    CommandInk(more + x);
    InkLeft(more, x);
  }

  lemma TrimLeftIs(s: string)
    ensures TrimLeft(s) == if s != "" && IsSpace(s[0]) then TrimLeft(s[1..]) else s
  {
  }

  lemma {:induction false} InkLeft(more: string, x: string)
    requires TrimLeft(more) != ""
    ensures TrimLeft(more + x) == TrimLeft(more) + x
  {
    hide IsSpace, TrimLeft;
    TrimLeftIs(more);
    TrimLeftIs(more + x);
    assert (more + x)[0] == more[0] && (more + x)[1..] == more[1..] + x;
    if IsSpace(more[0]) { InkLeft(more[1..], x); }
  }

  /** A line that goes on and is no command leaves something that is no command either. */
  lemma RestHasInk(line: string)
    requires HasSuffix(line, "\\") && !IsCommand(line)
    ensures var rest := line[..|line| - 1]; TrimLeft(rest) != "" && !IsCommand(rest)
  {
    hide TrimLeft, IsCommand;
    var rest := line[..|line| - 1];
    assert line == rest + "\\";
    CommandInk(line);
    CommandInk(rest);
    BackslashIsInk();
    if TrimLeft(rest) == "" {
      OnlySpace(rest, "\\");
    } else {
      InkLeft(rest, "\\");
    }
  }

  lemma BackslashIsInk()
    ensures TrimLeft("\\") == "\\"
  {
  }

  lemma {:induction false} OnlySpace(a: string, b: string)
    requires TrimLeft(a) == ""
    ensures TrimLeft(a + b) == TrimLeft(b)
  {
    if a == "" {
      assert a + b == b;
    } else {
      assert (a + b)[1..] == a[1..] + b;
      OnlySpace(a[1..], b);
    }
  }

  lemma CommandIsRead(comment: string, line: string)
    requires IsCommand(line) && !HasPrefix(comment, CMD_PREFIX)
    ensures !Skipped(comment, line) && Take(Fresh, line) == Take(Command, line) && line != ""
  {
    assert TrimSpace(line)[0] == '\\';
  }

  /** The interactive shell in the middle of a command. */
  lemma CommandReads(comment: string, st: State, line: string, no: nat, trim: bool)
    requires st.mode == Command
    ensures Step(comment, trim, st, Line(line), no)
         == if HasSuffix(line, "\\") then (State(Command, st.text + line[..|line| - 1], st.at), [])
            else (START, [Statement(st.text + line, st.at)])
  {
  }

  /** The text that a line adds to a command. */
  function Added(line: string): string {
    if HasSuffix(line, "\\") then line[..|line| - 1] else line
  }

  /** More text that is no command never makes up for what was split off. */
  lemma InkGoesOn(comment: string, first: string, more: string, f: Ran, t: Ran, line: string, m: nat, f': Ran, t': Ran)
    returns (gap: Gap)
    requires Parted(Split(first, more), f, t, m) && Read(comment, f, t, line, m, f', t')
    requires !IsCommand(more + Added(line)) && (HasSuffix(line, "\\") ==> TrimLeft(more + Added(line)) != "")
    ensures Parted(gap, f', t', m + 1)
  {
    hide TrimSpace, TrimLeft, IsCommand, HasSuffix, Core, Step, Take, Skipped;
    var text, at := Added(line), t.0.at;
    CommandReads(comment, t.0, line, m + 1, true);
    StillThere(f.1, f'.1, Statement(first, at));
    MoreAdded(first, more, text);
    SplitIsText(first);
    if HasSuffix(line, "\\") {
      assert t'.1 == t.1;
      gap := Split(first, more + text);
    } else {
      var s := Statement(Core(first) + more + text, at);
      assert t'.0 == START && t'.1 == t.1 + [s];
      NotThere(t.1, s, Statement(first, at));
      gap := Ended(Statement(first, at));
    }
  }

  lemma NotThere(ss: seq<Statement>, s: Statement, x: Statement)
    requires x != s && forall y :: y in ss ==> y.at < x.at
    ensures x !in ss + [s]
  {
  }

  lemma StillThere(ss: seq<Statement>, all: seq<Statement>, s: Statement)
    requires s in ss && ss <= all
    ensures s in all
  {
    var i :| 0 <= i < |ss| && ss[i] == s;
    assert all[i] == s;
  }

  lemma MoreAdded(first: string, more: string, text: string)
    requires SplitsCommand(first) && !IsCommand(more + text)
    ensures Core(first) + more + text == Core(first) + (more + text) != first
  {
    hide TrimSpace, HasSuffix, Core, IsCommand;
    assert Core(first) + more + text == Core(first) + (more + text);
    if first == Core(first) + (more + text) { OnlyCommandsFill(first, more + text); }
  }

  /** Both shells in the middle of a command, which began in the one-shot shell one line later. */
  lemma TogetherGoesOn(comment: string, first: string, more: string, f: Ran, t: Ran, line: string, m: nat, f': Ran,
                       t': Ran)
    returns (gap: Gap)
    requires Parted(Split(first, more), f, t, m) && Read(comment, f, t, line, m, f', t')
    requires f.0.mode == Command && f.0.at == t.0.at + 1 <= m && f.0.text == more
    ensures Parted(gap, f', t', m + 1)
  {
    hide TrimSpace, IsCommand, HasSuffix, Core, Step;
    var text := Added(line);
    CommandReads(comment, f.0, line, m + 1, false);
    CommandReads(comment, t.0, line, m + 1, true);
    assert Core(first) + more + text == Core(first) + (more + text);
    if first == Core(first) + (more + text) { OnlyCommandsFill(first, more + text); }
    SplitIsText(first);
    gap := if HasSuffix(line, "\\") then Split(first, more + text)
           else if more + text != "" then Ended(Statement(more + text, f.0.at))
           else Ended(Statement(first, t.0.at));
  }

  /** The line after a split command: a command of its own in one shell, a continuation in the other. */
  lemma NextGoesOn(comment: string, first: string, f: Ran, t: Ran, line: string, m: nat, f': Ran, t': Ran)
      returns (gap: Gap)
    requires Parted(Split(first, ""), f, t, m) && Read(comment, f, t, line, m, f', t')
    requires m == t.0.at && f.0 == START && IsCommand(line) && !HasPrefix(comment, CMD_PREFIX)
    ensures Parted(gap, f', t', m + 1)
  {
    hide TrimSpace, IsCommand, HasSuffix, Core, Step, Skipped, Take;
    var text := Added(line);
    CommandReads(comment, t.0, line, m + 1, true);
    CommandIsRead(comment, line);
    TakenIs(line);
    StepIs(comment, false, START, line, m + 1);
    assert "" + text == text && Core(first) + "" == Core(first);
    gap := if HasSuffix(line, "\\") then Split(first, text) else Ended(Statement(text, m + 1));
  }

  lemma SplitGoesOn(comment: string, first: string, more: string, f: Ran, t: Ran, line: string, m: nat, f': Ran,
                    t': Ran)
    returns (gap: Gap)
    requires Parted(Split(first, more), f, t, m) && Read(comment, f, t, line, m, f', t')
    requires !HasPrefix(comment, CMD_PREFIX)
    ensures Parted(gap, f', t', m + 1)
  {
    hide TrimSpace, IsCommand, Core, Read;
    if TrimLeft(more) != "" && !IsCommand(more) {
      InkStays(more, Added(line));
      gap := InkGoesOn(comment, first, more, f, t, line, m, f', t');
    } else if f.0.mode == Command {
      gap := TogetherGoesOn(comment, first, more, f, t, line, m, f', t');
    } else if IsCommand(line) {
      gap := NextGoesOn(comment, first, f, t, line, m, f', t');
    } else {
      assert more + Added(line) == Added(line);
      if HasSuffix(line, "\\") { RestHasInk(line); }
      gap := InkGoesOn(comment, first, more, f, t, line, m, f', t');
    }
  }

  lemma TakenIs(line: string)
    ensures Take(Command, line)
         == if HasSuffix(line, "\\") then (line[..|line| - 1], Command) else (line, Fresh)
  {
  }

  /** An untrimmed first line parts the runs. */
  lemma FirstParts(comment: string, ran: Ran, line: string, m: nat, f': Ran, t': Ran) returns (gap: Gap)
    requires ran.0 == START && (forall s :: s in ran.1 ==> s.at <= m)
    requires !Skipped(comment, line) && TrimSpace(line) != line && Read(comment, ran, ran, line, m, f', t')
    ensures Parted(gap, f', t', m + 1)
  {
    hide TrimSpace, Skipped, Take, Step;
    var (text, mode) := Take(Fresh, line);
    TakesAlike(line) by { TextIsLeft(comment, line); }
    StepIs(comment, false, START, line, m + 1);
    StepIs(comment, true, START, line, m + 1);
    assert "" + text == text && "" + Take(Fresh, TrimSpace(line)).0 == Take(Fresh, TrimSpace(line)).0;
    if SplitsCommand(line) {
      assert Core(line) + "" == Core(line);
      gap := Split(line, "");
    } else {
      gap := if mode == Fresh then Ended(Statement(text, m + 1)) else Open;
    }
  }

  lemma TextIsLeft(comment: string, line: string)
    requires !Skipped(comment, line)
    ensures TrimSpace(line) != ""
  {
  }

  predicate AllLines(inputs: seq<Input>) {
    forall i :: 0 <= i < |inputs| ==> inputs[i].Line?
  }

  /** Once a first line is not trimmed, the runs never come together again. */
  lemma {:induction false} RunsPart(comment: string, inputs: seq<Input>) returns (gap: Gap)
    requires AllLines(inputs) && !FirstLinesTrimmed(comment, inputs) && !HasPrefix(comment, CMD_PREFIX)
    ensures Parted(gap, Run(comment, false, inputs), Run(comment, true, inputs), |inputs|)
  {
    hide Parted, Step, Skipped, TrimSpace, HasPrefix;
    var n := |inputs| - 1;
    var f, t := Run(comment, false, inputs[..n]), Run(comment, true, inputs[..n]);
    var f', t' := Run(comment, false, inputs), Run(comment, true, inputs);
    assert Read(comment, f, t, inputs[n].line, n, f', t');
    if FirstLinesTrimmed(comment, inputs[..n]) {
      SameRun(comment, inputs[..n]);
      NumbersGrow(comment, false, inputs[..n]);
      gap := FirstParts(comment, f, inputs[n].line, n, f', t');
    } else {
      gap := RunsPart(comment, inputs[..n]);
      match gap {
        case Ended(s) => EndedStays(comment, s, f, t, inputs[n].line, n, f', t');
        case Open => gap := OpenGoesOn(comment, f, t, inputs[n].line, n, f', t');
        case Split(first, more) => gap := SplitGoesOn(comment, first, more, f, t, inputs[n].line, n, f', t');
      }
    }
  }

  /**
   The interactive shell passes on the statements of the one-shot shell that are not empty, with
   the same numbers, exactly when the first line of every statement is trimmed and the input
   leaves no unfinished text behind. (A comment must not start like a command.)
   */
  lemma TwoShells(comment: string, lines: seq<string>)
    requires !HasPrefix(comment, CMD_PREFIX)
    ensures NonEmpty(OneshotStatements(comment, lines)) == NonEmpty(Run(comment, true, Typed(lines)).1)
       <==> FirstLinesTrimmed(comment, Typed(lines)) && Run(comment, false, Typed(lines)).0.text == ""
  {
    hide FirstLinesTrimmed, Run, NonEmpty, Parted, HasPrefix;
    var (st, done) := Run(comment, false, Typed(lines));
    if FirstLinesTrimmed(comment, Typed(lines)) {
      SameRun(comment, Typed(lines));
      if st.text == "" {
        assert done + [] == done;
      } else {
        NonEmptyAppend(done, Statement(st.text, st.at));
      }
    } else {
      var gap := RunsPart(comment, Typed(lines));
      PartedDiffer(gap, (st, done), Run(comment, true, Typed(lines)), |lines|);
    }
  }

  // ---------- the shells side by side ----------

  /** When no call stops a shell, it passes on everything. */
  lemma NothingStops(stops: seq<string> -> bool, before: seq<string>, ss: seq<Statement>, n: nat)
    requires (forall calls :: !stops(calls)) && IsPassed(stops, before, ss, n)
    ensures n == |ss| && ss[..n] == ss
  {
  }

  lemma TextsOfPrefix(ss: seq<Statement>, n: nat, k: nat)
    requires k <= n <= |ss|
    ensures Texts(ss[..n]) <= Texts(ss) && |Texts(ss[..n])| == n && Texts(ss[..n])[..k] == Texts(ss[..k])
    ensures n == |ss| ==> Texts(ss[..n]) == Texts(ss)
  {
    assert ss[..n][..k] == ss[..k];
  }

  /**
   A whole script: what is passed on, in which order, and where it stops. Without ignoring errors
   that is the first error; otherwise everything is passed on. What is passed on is echoed, or nothing.
   */
  method RunScript(comment: string, ignoreErrors: bool, echo: bool, textFn: TextFn, lines: seq<string>)
    returns (shell: OneshotShell, err: bool)
    ensures fresh(shell) && shell.calls <= Texts(OneshotStatements(comment, lines))
    ensures ignoreErrors ==> !err
    ensures !err ==> shell.calls == Texts(OneshotStatements(comment, lines))
    ensures !ignoreErrors ==> forall k :: 0 < k < |shell.calls| ==> textFn(shell.calls[..k]) == Ok
    ensures !ignoreErrors ==> (err <==> shell.calls != [] && textFn(shell.calls) != Ok)
    ensures echo ==> shell.echoed <= OneshotStatements(comment, lines) && Texts(shell.echoed) == shell.calls
    ensures !echo ==> shell.echoed == []
  {
    hide Run, OneshotStatements;
    var endLine := new EndLine();
    shell := new OneshotShell(endLine, comment, ignoreErrors, echo, textFn);
    err := shell.ReadTextBasic(lines);
    ghost var ss := OneshotStatements(comment, lines);
    ghost var n: nat :| IsPassed(shell.Stops(), [], ss, n) && shell.Did([], [], ss[..n])
                        && (err <==> n > 0 && shell.Stops()(shell.calls));
    assert shell.calls == Texts(ss[..n]);
    TextsOfPrefix(ss, n, n);
    forall k | 0 < k < n
      ensures shell.calls[..k] == [] + Texts(ss[..k]) && !shell.Stops()(shell.calls[..k])
    {
      TextsOfPrefix(ss, n, k);
    }
    assert [] + Texts(ss[..n]) == Texts(ss[..n]);
    assert [] + ss[..n] == ss[..n];
  }

  /** A session: every statement that is not empty is passed on, up to the first call that asks to exit. */
  method RunSession(comment: string, textFn: TextFn, input: seq<Input>) returns (shell: Shell)
    ensures fresh(shell) && shell.calls <= Texts(NonEmpty(Run(comment, true, input).1))
    ensures forall k :: 0 < k < |shell.calls| ==> textFn(shell.calls[..k]) != Exit
    ensures shell.calls != Texts(NonEmpty(Run(comment, true, input).1)) ==>
              shell.calls != [] && textFn(shell.calls) == Exit
  {
    hide Run, NonEmpty;
    var endLine := new EndLine();
    shell := new Shell(endLine, comment, textFn);
    shell.Start(input);
    ghost var ss := NonEmpty(shell.RunOf(input).1);
    ghost var n: nat :| IsPassed(shell.Stops(), [], ss, n) && shell.calls == [] + Texts(ss[..n]);
    assert shell.calls == Texts(ss[..n]);
    TextsOfPrefix(ss, n, n);
    forall k | 0 < k < n
      ensures shell.calls[..k] == [] + Texts(ss[..k]) && !shell.Stops()(shell.calls[..k])
    {
      TextsOfPrefix(ss, n, k);
    }
    assert [] + Texts(ss[..n]) == Texts(ss[..n]);
  }

  function WithoutEmpty(texts: seq<string>): seq<string> {
    if texts == [] then []
    else WithoutEmpty(texts[..|texts| - 1]) + if texts[|texts| - 1] == "" then [] else [texts[|texts| - 1]]
  }

  lemma {:induction false} TextsOfNonEmpty(ss: seq<Statement>)
    ensures Texts(NonEmpty(ss)) == WithoutEmpty(Texts(ss))
  {
    if ss != [] {
      var n := |ss| - 1;
      TextsOfNonEmpty(ss[..n]);
      assert Texts(ss)[..n] == Texts(ss[..n]);
      if ss[n].text == "" {
        assert NonEmpty(ss[..n]) + [] == NonEmpty(ss[..n]);
      } else {
        TextsAppend(NonEmpty(ss[..n]), ss[n]);
      }
    }
  }

  lemma SameTexts(comment: string, lines: seq<string>)
    requires FirstLinesTrimmed(comment, Typed(lines))
    ensures Texts(NonEmpty(OneshotStatements(comment, lines))) == Texts(NonEmpty(Run(comment, true, Typed(lines)).1))
       <==> Run(comment, false, Typed(lines)).0.text == ""
  {
    hide FirstLinesTrimmed, Run, NonEmpty;
    var (st, done) := Run(comment, false, Typed(lines));
    SameRun(comment, Typed(lines));
    if st.text == "" {
      assert done + [] == done;
    } else {
      NonEmptyAppend(done, Statement(st.text, st.at));
      assert |Texts(NonEmpty(done) + [Statement(st.text, st.at)])| == |Texts(NonEmpty(done))| + 1;
    }
  }

  /**
   The same lines in both shells, with a text function that never fails: up to empty texts, the
   calls of one shell are those of the other, if first lines are trimmed and nothing is left over.
   */
  method RunBoth(comment: string, textFn: TextFn, lines: seq<string>) returns (oneshot: OneshotShell, shell: Shell)
    requires forall calls :: textFn(calls) == Ok
    ensures oneshot.calls == Texts(OneshotStatements(comment, lines))
    ensures shell.calls == Texts(NonEmpty(Run(comment, true, Typed(lines)).1))
    ensures FirstLinesTrimmed(comment, Typed(lines)) ==>
              (WithoutEmpty(oneshot.calls) == shell.calls <==> Run(comment, false, Typed(lines)).0.text == "")
  {
    hide Run, NonEmpty, OneshotStatements, Texts, GoesOn, FirstLinesTrimmed, WithoutEmpty, Typed;
    var endLine := new EndLine();
    oneshot := new OneshotShell(endLine, comment, false, false, textFn);
    var err := oneshot.ReadTextBasic(lines);
    ghost var n: nat :| IsPassed(oneshot.Stops(), [], oneshot.Statements(lines), n)
                        && oneshot.Did([], [], oneshot.Statements(lines)[..n]);
    NothingStops(oneshot.Stops(), [], oneshot.Statements(lines), n);
    // the closure is used again, whatever its flag is now
    shell := new Shell(endLine, comment, textFn);
    shell.Start(Typed(lines));
    ghost var passed := NonEmpty(shell.RunOf(Typed(lines)).1);
    ghost var k: nat :| IsPassed(shell.Stops(), [], passed, k)
                        && shell.calls == [] + Texts(passed[..k]);
    NothingStops(shell.Stops(), [], passed, k);
    TextsOfNonEmpty(OneshotStatements(comment, lines));
    if FirstLinesTrimmed(comment, Typed(lines)) { SameTexts(comment, lines); }
  }
}
