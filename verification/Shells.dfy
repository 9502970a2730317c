/**
 How the two shells assemble lines into statements: readTextBasic of clc/shell/oneshot_shell.go,
 Start and readTextReadline of clc/shell/shell.go, and the closure of makeEndLineFunc in
 base/commands/shell_script_common.go that both of them call.
 */
module Shells {
  import opened Text

  const CMD_PREFIX := "\\"

  predicate IsCommand(line: string) {
    HasPrefix(TrimSpace(line), CMD_PREFIX)
  }

  predicate EndsStatement(line: string) {
    HasPrefix(TrimSpace(line), "help") || HasSuffix(TrimSpace(line), ";")
  }

  // ---------- what a run of a shell means ----------

  /** Between statements, or inside a query or a command. */
  datatype Mode = Fresh | Query | Command

  /** A statement and the number of its first line. */
  datatype Statement = Statement(text: string, at: nat)

  datatype State = State(mode: Mode, text: string, at: nat)

  const START := State(Fresh, "", 0)

  /** A line, or the interrupt key. */
  datatype Input = Line(line: string) | Interrupt

  /** The text of a line in a statement, whether the statement ends, and what it is otherwise. */
  function Take(mode: Mode, line: string): (string, Mode) {
    if IsCommand(line) || mode == Command then
      if HasSuffix(line, "\\") then (line[..|line| - 1], Command) else (line, Fresh)
    else if EndsStatement(line) then (line, Fresh) else (line + "\n", Query)
  }

  /** A blank line or a comment. */
  predicate Skipped(comment: string, line: string) {
    TrimSpace(line) == "" || (comment != "" && HasPrefix(TrimSpace(line), comment))
  }

  /** The next input, whose number is given; trim says whether the first line of a statement is trimmed. */
  function Step(comment: string, trim: bool, st: State, input: Input, no: nat): (State, seq<Statement>) {
    if input.Interrupt? then (START, [])
    else if st.mode == Fresh && Skipped(comment, input.line) then (st, [])
    else
      var line := if st.mode == Fresh && trim then TrimSpace(input.line) else input.line;
      var at := if st.mode == Fresh then no else st.at;
      var (text, mode) := Take(st.mode, line);
      if mode == Fresh then (START, [Statement(st.text + text, at)]) else (State(mode, st.text + text, at), [])
  }

  function Run(comment: string, trim: bool, inputs: seq<Input>): (State, seq<Statement>) {
    if inputs == [] then (START, [])
    else
      var n := |inputs| - 1;
      var (st, done) := Run(comment, trim, inputs[..n]);
      var (st', now) := Step(comment, trim, st, inputs[n], n + 1);
      (st', done + now)
  }

  lemma RunNone(comment: string, trim: bool)
    ensures Run(comment, trim, []) == (START, [])
  {
  }

  lemma RunNext(comment: string, trim: bool, inputs: seq<Input>, i: nat)
    requires i < |inputs|
    ensures var (st, done) := Run(comment, trim, inputs[..i]);
            var (st', now) := Step(comment, trim, st, inputs[i], i + 1);
            Run(comment, trim, inputs[..i + 1]) == (st', done + now)
  {
    assert inputs[..i + 1][..i] == inputs[..i];
  }

  lemma {:induction false} RunPrefix(comment: string, trim: bool, inputs: seq<Input>, i: nat)
    requires i <= |inputs|
    ensures Run(comment, trim, inputs[..i]).1 <= Run(comment, trim, inputs).1
  {
    hide Run, Step;
    if i < |inputs| {
      var n := |inputs| - 1;
      RunPrefix(comment, trim, inputs[..n], i);
      assert inputs[..n][..i] == inputs[..i] && inputs[..n + 1] == inputs;
      RunNext(comment, trim, inputs, n);
    } else {
      assert inputs[..i] == inputs;
    }
  }

  function Texts(ss: seq<Statement>): seq<string> {
    seq(|ss|, i requires 0 <= i < |ss| => ss[i].text)
  }

  function Typed(lines: seq<string>): seq<Input> {
    seq(|lines|, i requires 0 <= i < |lines| => Line(lines[i]))
  }

  // ---------- the closure ----------

  class EndLine {
    var clcMultilineContinue: bool

    constructor ()
      ensures !clcMultilineContinue
    {
      clcMultilineContinue := false;
    }

    /** Between statements the flag that an earlier statement left behind does not matter. */
    method Call(line: string, multiline: bool) returns (text: string, end: bool)
      modifies this
      ensures var mode := if !multiline then Fresh else if old(clcMultilineContinue) then Command else Query;
              && text == Take(mode, line).0
              && (end <==> Take(mode, line).1 == Fresh)
              && (!end ==> (clcMultilineContinue <==> Take(mode, line).1 == Command))
    {
      var clcCmd := HasPrefix(TrimSpace(line), CMD_PREFIX);
      if clcCmd || (multiline && clcMultilineContinue) {
        clcMultilineContinue := true;
        end := !HasSuffix(line, "\\");
        text := line;
        if !end {
          text := line[..|line| - 1];
        }
        return;
      }
      clcMultilineContinue := false;
      var lt := TrimSpace(line);
      end := HasPrefix(lt, "help") || HasPrefix(lt, CMD_PREFIX) || HasSuffix(lt, ";");
      text := line;
      if !end {
        text := text + "\n";
      }
    }

    ghost predicate Agrees(mode: Mode)
      reads this
    {
      mode == Fresh || (clcMultilineContinue <==> mode == Command)
    }
  }

  // ---------- calling the text function ----------

  datatype Outcome = Ok | Exit | Failed

  /** The outcome of a call may depend on the calls before it. */
  type TextFn = seq<string> -> Outcome

  ghost predicate GoesOn(stops: seq<string> -> bool, before: seq<string>, ss: seq<Statement>, n: int)
    requires n <= |ss|
  {
    forall k :: 0 < k <= n ==> !stops(before + Texts(ss[..k]))
  }

  /** n statements are passed on: all of them, or those up to the first call that stops the shell. */
  ghost predicate IsPassed(stops: seq<string> -> bool, before: seq<string>, ss: seq<Statement>, n: nat) {
    && n <= |ss|
    && GoesOn(stops, before, ss, n - 1)
    && (n < |ss| ==> n > 0 && stops(before + Texts(ss[..n])))
  }

  lemma GoesOnNext(stops: seq<string> -> bool, before: seq<string>, ss: seq<Statement>, s: Statement)
    requires GoesOn(stops, before, ss, |ss|)
    ensures GoesOn(stops, before, ss + [s], |ss|)
    ensures GoesOn(stops, before, ss, |ss| - 1)
    ensures !stops(before + Texts(ss + [s])) ==> GoesOn(stops, before, ss + [s], |ss| + 1)
  {
    assert forall k :: 0 < k <= |ss| ==> (ss + [s])[..k] == ss[..k];
    assert (ss + [s])[..|ss| + 1] == ss + [s];
  }

  lemma StoppedAt(stops: seq<string> -> bool, before: seq<string>, ss: seq<Statement>, all: seq<Statement>)
    requires ss != [] && ss <= all && GoesOn(stops, before, ss, |ss| - 1) && stops(before + Texts(ss))
    ensures IsPassed(stops, before, all, |ss|) && all[..|ss|] == ss
  {
    assert forall k :: 0 < k < |ss| ==> all[..k] == ss[..k];
    assert all[..|ss|] == ss;
  }

  lemma PassedAll(stops: seq<string> -> bool, before: seq<string>, ss: seq<Statement>)
    requires GoesOn(stops, before, ss, |ss| - 1) || GoesOn(stops, before, ss, |ss|)
    ensures IsPassed(stops, before, ss, |ss|) && ss[..|ss|] == ss
    ensures GoesOn(stops, before, ss, |ss|) <==> (ss != [] ==> !stops(before + Texts(ss)))
  {
    assert ss[..|ss|] == ss;
  }

  lemma TextsAppend(ss: seq<Statement>, s: Statement)
    ensures Texts(ss + [s]) == Texts(ss) + [s.text]
  {
  }

  /** The variables of the loops stand for a state. */
  predicate Holds(st: State, sb: string, multiline: bool) {
    sb == st.text && (multiline <==> st.mode != Fresh) && (!multiline ==> st == START)
  }

  lemma StepIs(comment: string, trim: bool, st: State, line: string, no: nat)
    ensures Step(comment, trim, st, Line(line), no)
         == if st.mode == Fresh && Skipped(comment, line) then (st, [])
            else
              var l := if st.mode == Fresh && trim then TrimSpace(line) else line;
              var at := if st.mode == Fresh then no else st.at;
              if Take(st.mode, l).1 == Fresh then (START, [Statement(st.text + Take(st.mode, l).0, at)])
              else (State(Take(st.mode, l).1, st.text + Take(st.mode, l).0, at), [])
    ensures Skipped(comment, line) <==> TrimSpace(line) == "" || (comment != "" && HasPrefix(TrimSpace(line), comment))
  {
  }

  lemma NothingYet(stops: seq<string> -> bool, before: seq<string>)
    ensures Texts([]) == [] && GoesOn(stops, before, [], 0) && before + [] == before
  {
  }

  // ---------- the one-shot shell ----------

  /** The unfinished statement at the end of the input is passed on too. */
  function OneshotStatements(comment: string, lines: seq<string>): seq<Statement> {
    var (st, done) := Run(comment, false, Typed(lines));
    done + if st.text == "" then [] else [Statement(st.text, st.at)]
  }

  lemma TypedIs(lines: seq<string>)
    ensures |Typed(lines)| == |lines| && forall i :: 0 <= i < |lines| ==> Typed(lines)[i] == Line(lines[i])
  {
  }

  lemma OneshotIs(comment: string, lines: seq<string>)
    ensures var (st, done) := Run(comment, false, Typed(lines));
            OneshotStatements(comment, lines) == done + if st.text == "" then [] else [Statement(st.text, st.at)]
  {
  }

  class OneshotShell {
    const endLine: EndLine
    const commentPrefix: string
    const ignoreErrors: bool
    const echo: bool
    const textFn: TextFn
    var calls: seq<string>
    var echoed: seq<Statement>

    constructor (endLine: EndLine, commentPrefix: string, ignoreErrors: bool, echo: bool, textFn: TextFn)
      ensures this.endLine == endLine && this.commentPrefix == commentPrefix
      ensures this.ignoreErrors == ignoreErrors && this.echo == echo && this.textFn == textFn
      ensures calls == [] && echoed == []
    {
      this.endLine := endLine;
      this.commentPrefix := commentPrefix;
      this.ignoreErrors := ignoreErrors;
      this.echo := echo;
      this.textFn := textFn;
      calls, echoed := [], [];
    }

    ghost function Statements(lines: seq<string>): seq<Statement> {
      OneshotStatements(commentPrefix, lines)
    }

    ghost function Stops(): seq<string> -> bool {
      calls => !ignoreErrors && textFn(calls) != Ok
    }

    /** What has been done after the statements. */
    ghost predicate Did(before: seq<string>, echoedBefore: seq<Statement>, ss: seq<Statement>)
      reads this
    {
      calls == before + Texts(ss) && echoed == echoedBefore + if echo then ss else []
    }

    /** One statement. The error is returned only when errors are not ignored. */
    method Pass(text: string, at: nat, ghost before: seq<string>, ghost echoedBefore: seq<Statement>,
                ghost done: seq<Statement>)
      returns (err: bool)
      requires Did(before, echoedBefore, done) && GoesOn(Stops(), before, done, |done|)
      modifies this
      ensures var ss := done + [Statement(text, at)];
              && Did(before, echoedBefore, ss)
              && (err <==> Stops()(before + Texts(ss)))
              && GoesOn(Stops(), before, ss, if err then |done| else |ss|)
    {
      TextsAppend(done, Statement(text, at));
      GoesOnNext(Stops(), before, done, Statement(text, at));
      if echo {
        echoed := echoed + [Statement(text, at)];
      }
      calls := calls + [text];
      assert calls == before + Texts(done + [Statement(text, at)]);
      var outcome := textFn(calls);
      err := !ignoreErrors && outcome != Ok;
    }

    /** What holds of the variables of the loop when the inputs up to line have been read. */
    ghost predicate Reads(run: (State, seq<Statement>), sb: string, multiline: bool, prevMultiline: bool, line: nat,
                          start: nat)
      reads this, endLine
    {
      && Holds(run.0, sb, multiline)
      && endLine.Agrees(run.0.mode)
      && (multiline ==> start == run.0.at && (!prevMultiline ==> line == start))
    }

    ghost predicate Passes(before: seq<string>, echoedBefore: seq<Statement>, ss: seq<Statement>)
      reads this
    {
      Did(before, echoedBefore, ss) && GoesOn(Stops(), before, ss, |ss|)
    }

    method ReadTextBasic(lines: seq<string>) returns (err: bool)
      modifies this, endLine
      ensures exists n: nat ::
                && IsPassed(Stops(), old(calls), Statements(lines), n)
                && Did(old(calls), old(echoed), Statements(lines)[..n])
                && (err <==> n > 0 && Stops()(calls))
    {
      hide Run, Step, Take, Skipped, GoesOn, Texts, IsPassed, OneshotStatements, TrimSpace, HasPrefix, Typed;
      TypedIs(lines);
      ghost var inputs := Typed(lines);
      var sb, multiline, prevMultiline := "", false, false;
      var line, multilineStart := 0, 0;
      RunNone(commentPrefix, false);
      NothingYet(Stops(), calls);
      for i := 0 to |lines|
        invariant line == i
        invariant Reads(Run(commentPrefix, false, inputs[..i]), sb, multiline, prevMultiline, line, multilineStart)
        invariant Passes(old(calls), old(echoed), Run(commentPrefix, false, inputs[..i]).1)
      {
        var p := lines[i];
        ghost var st, done := Run(commentPrefix, false, inputs[..i]).0, Run(commentPrefix, false, inputs[..i]).1;
        RunNext(commentPrefix, false, inputs, i);
        StepIs(commentPrefix, false, st, p, i + 1);
        assert done + [] == done;
        line := line + 1;
        if !multiline {
          var pt := TrimSpace(p);
          if pt == "" {
            continue;
          }
          if commentPrefix != "" && HasPrefix(pt, commentPrefix) {
            continue;
          }
        }
        var text, end := endLine.Call(p, multiline);
        sb := sb + text;
        prevMultiline := multiline;
        multiline := !end;
        if !prevMultiline && multiline {
          multilineStart := line;
        }
        if end {
          var failed := Pass(sb, if prevMultiline then multilineStart else line, old(calls), old(echoed), done);
          if failed {
            RunPrefix(commentPrefix, false, inputs, i + 1);
            OneshotIs(commentPrefix, lines);
            StoppedAt(Stops(), old(calls), Run(commentPrefix, false, inputs[..i + 1]).1, Statements(lines));
            return true;
          }
          sb := "";
        }
      }
      assert inputs[..|lines|] == inputs;
      ghost var done := Run(commentPrefix, false, inputs).1;
      err := false;
      PassedAll(Stops(), old(calls), done);
      if sb != "" {
        err := Pass(sb, if prevMultiline then multilineStart else line, old(calls), old(echoed), done);
        OneshotIs(commentPrefix, lines);
        PassedAll(Stops(), old(calls), Statements(lines));
      } else {
        OneshotIs(commentPrefix, lines);
        assert Statements(lines) == done;
      }
      assert IsPassed(Stops(), old(calls), Statements(lines), |Statements(lines)|);
    }
  }

  // ---------- the interactive shell ----------

  function NonEmpty(ss: seq<Statement>): seq<Statement> {
    if ss == [] then []
    else NonEmpty(ss[..|ss| - 1]) + if ss[|ss| - 1].text == "" then [] else [ss[|ss| - 1]]
  }

  lemma NonEmptyAppend(ss: seq<Statement>, s: Statement)
    ensures NonEmpty(ss + [s]) == NonEmpty(ss) + if s.text == "" then [] else [s]
  {
    assert (ss + [s])[..|ss|] == ss;
  }

  lemma {:induction false} NonEmptyPrefix(ss: seq<Statement>, all: seq<Statement>)
    requires ss <= all
    ensures NonEmpty(ss) <= NonEmpty(all)
  {
    if |ss| < |all| {
      NonEmptyPrefix(ss, all[..|all| - 1]);
    } else {
      assert ss == all;
    }
  }

  datatype Reading = Text(text: string) | Eof | Interrupted

  class Shell {
    const endLine: EndLine
    const commentPrefix: string
    const textFn: TextFn
    var calls: seq<string>

    constructor (endLine: EndLine, commentPrefix: string, textFn: TextFn)
      ensures this.endLine == endLine && this.commentPrefix == commentPrefix && this.textFn == textFn && calls == []
    {
      this.endLine := endLine;
      this.commentPrefix := commentPrefix;
      this.textFn := textFn;
      calls := [];
    }

    ghost function RunOf(input: seq<Input>): (State, seq<Statement>) {
      Run(commentPrefix, true, input)
    }

    /** Reads from the position on, up to the end of a statement; an interrupt drops what was typed. */
    method ReadTextReadline(input: seq<Input>, pos: nat) returns (r: Reading, next: nat)
      requires pos <= |input| && RunOf(input[..pos]).0 == START
      modifies endLine
      ensures pos <= next <= |input| && (r.Eof? ==> next == |input|) && (!r.Eof? ==> pos < next)
      ensures !r.Eof? ==> RunOf(input[..next]).0 == START
      ensures var before, after := RunOf(input[..pos]).1, RunOf(input[..next]).1;
              if r.Text? then exists s: Statement :: s.text == r.text && after == before + [s] else after == before
    {
      hide Run, Step, Take, Skipped, TrimSpace, HasPrefix;
      var multiline, sb := false, "";
      next := pos;
      while true
        invariant pos <= next <= |input|
        invariant Holds(RunOf(input[..next]).0, sb, multiline)
        invariant RunOf(input[..next]).1 == RunOf(input[..pos]).1
        invariant endLine.Agrees(RunOf(input[..next]).0.mode)
        decreases |input| - next
      {
        if next == |input| {
          return Eof, next;
        }
        ghost var st, done := RunOf(input[..next]).0, RunOf(input[..next]).1;
        RunNext(commentPrefix, true, input, next);
        assert done + [] == done;
        if input[next].Interrupt? {
          InterruptIs(commentPrefix, true, st, next + 1);
          return Interrupted, next + 1;
        }
        var p := input[next].line;
        StepIs(commentPrefix, true, st, p, next + 1);
        next := next + 1;
        if !multiline {
          p := TrimSpace(p);
          if p == "" {
            continue;
          }
          if commentPrefix != "" && HasPrefix(p, commentPrefix) {
            continue;
          }
        }
        var text, end := endLine.Call(p, multiline);
        sb := sb + text;
        multiline := !end;
        if end {
          assert RunOf(input[..next]).1 == done + [Statement(sb, if st.mode == Fresh then next else st.at)];
          return Text(sb), next;
        }
      }
    }

    ghost function Stops(): seq<string> -> bool {
      calls => textFn(calls) == Exit
    }

    method Start(input: seq<Input>)
      modifies this, endLine
      ensures exists n: nat ::
                && IsPassed(Stops(), old(calls), NonEmpty(RunOf(input).1), n)
                && calls == old(calls) + Texts(NonEmpty(RunOf(input).1)[..n])
    {
      hide Run, GoesOn, IsPassed, Texts, NonEmpty;
      var pos := 0;
      RunNone(commentPrefix, true);
      NothingYet(Stops(), calls);
      NonEmptyNone();
      while true
        invariant pos <= |input| && RunOf(input[..pos]).0 == START
        invariant calls == old(calls) + Texts(NonEmpty(RunOf(input[..pos]).1))
        invariant GoesOn(Stops(), old(calls), NonEmpty(RunOf(input[..pos]).1), |NonEmpty(RunOf(input[..pos]).1)|)
        decreases |input| - pos
      {
        ghost var done := RunOf(input[..pos]).1;
        var r, next := ReadTextReadline(input, pos);
        pos := next;
        if r.Eof? {
          assert input[..pos] == input;
          PassedAll(Stops(), old(calls), NonEmpty(done));
          return;
        }
        if r.Interrupted? {
          continue;
        }
        ghost var s: Statement :| s.text == r.text && RunOf(input[..pos]).1 == done + [s];
        NonEmptyAppend(done, s);
        if r.text == "" {
          assert NonEmpty(done) + [] == NonEmpty(done);
          continue;
        }
        TextsAppend(NonEmpty(done), s);
        GoesOnNext(Stops(), old(calls), NonEmpty(done), s);
        calls := calls + [r.text];
        assert calls == old(calls) + Texts(NonEmpty(done + [s]));
        var outcome := textFn(calls);
        if outcome == Exit {
          RunPrefix(commentPrefix, true, input, pos);
          NonEmptyPrefix(done + [s], RunOf(input).1);
          StoppedAt(Stops(), old(calls), NonEmpty(done + [s]), NonEmpty(RunOf(input).1));
          return;
        }
      }
    }
  }

  lemma InterruptIs(comment: string, trim: bool, st: State, no: nat)
    ensures Step(comment, trim, st, Interrupt, no) == (START, [])
  {
  }

  lemma NonEmptyNone()
    ensures NonEmpty([]) == []
  {
  }

  // ---------- scripts compose ----------

  function Shift(ss: seq<Statement>, k: nat): seq<Statement> {
    seq(|ss|, i requires 0 <= i < |ss| => ss[i].(at := ss[i].at + k))
  }

  lemma NothingShifted(k: nat)
    ensures Shift([], k) == []
  {
  }

  lemma ShiftBoth(a: seq<Statement>, b: seq<Statement>, k: nat)
    ensures Shift(a + b, k) == Shift(a, k) + Shift(b, k)
  {
  }

  function ShiftState(st: State, k: nat): State {
    if st == START then st else st.(at := st.at + k)
  }

  lemma {:induction false} FreshIsStart(comment: string, trim: bool, inputs: seq<Input>)
    requires Run(comment, trim, inputs).0.mode == Fresh
    ensures Run(comment, trim, inputs).0 == START
  {
    if inputs != [] {
      var st := Run(comment, trim, inputs[..|inputs| - 1]).0;
      if st.mode == Fresh { FreshIsStart(comment, trim, inputs[..|inputs| - 1]); }
    }
  }

  lemma StepShift(comment: string, trim: bool, st: State, input: Input, no: nat, k: nat)
    requires st.mode == Fresh ==> st == START
    ensures var (st', now) := Step(comment, trim, st, input, no);
            && Step(comment, trim, ShiftState(st, k), input, no + k).0 == ShiftState(st', k)
            && Step(comment, trim, ShiftState(st, k), input, no + k).1 == Shift(now, k)
  {
    hide Take, Skipped;
  }

  /**
   After an input that ends between statements, a shell reads on as if it had just been started:
   nothing an earlier statement leaves behind leaks into a later one.
   */
  lemma {:induction false} ScriptsCompose(comment: string, trim: bool, a: seq<Input>, b: seq<Input>)
    requires Run(comment, trim, a).0.mode == Fresh
    ensures var (st, done) := Run(comment, trim, b);
            && Run(comment, trim, a + b).0 == ShiftState(st, |a|)
            && Run(comment, trim, a + b).1 == Run(comment, trim, a).1 + Shift(done, |a|)
    decreases |b|
  {
    hide Step, Shift;
    FreshIsStart(comment, trim, a);
    if b == [] {
      NothingShifted(|a|);
      assert a + b == a;
      assert Run(comment, trim, a).1 + Shift([], |a|) == Run(comment, trim, a).1;
    } else {
      var n := |b| - 1;
      assert (a + b)[..|a + b| - 1] == a + b[..n];
      ScriptsCompose(comment, trim, a, b[..n]);
      var (st, done) := Run(comment, trim, b[..n]);
      var (st', now) := Step(comment, trim, st, b[n], n + 1);
      if st.mode == Fresh { FreshIsStart(comment, trim, b[..n]); }
      StepShift(comment, trim, st, b[n], n + 1, |a|);
      ShiftBoth(done, now, |a|);
      assert Run(comment, trim, a).1 + Shift(done, |a|) + Shift(now, |a|)
          == Run(comment, trim, a).1 + (Shift(done, |a|) + Shift(now, |a|));
    }
  }

  /** The interrupt key drops the unfinished statement and nothing else. */
  lemma InterruptDrops(comment: string, a: seq<Input>, b: seq<Input>)
    ensures Run(comment, true, a + [Interrupt] + b).1
         == Run(comment, true, a).1 + Shift(Run(comment, true, b).1, |a| + 1)
  {
    hide Run;
    var c := a + [Interrupt];
    RunNext(comment, true, c, |a|);
    assert c[..|a|] == a && c[..|a| + 1] == c;
    InterruptIs(comment, true, Run(comment, true, a).0, |a| + 1);
    assert Run(comment, true, a).1 + [] == Run(comment, true, a).1;
    ScriptsCompose(comment, true, c, b);
  }

  // ---------- what is printed is read back ----------

  /** The lines of a query: only the last one ends it, and none is a command. */
  predicate IsQuery(comment: string, lines: seq<string>) {
    && lines != [] && !Skipped(comment, lines[0])
    && (forall i :: 0 <= i < |lines| ==> !IsCommand(lines[i]))
    && (forall i :: 0 <= i < |lines| ==> (EndsStatement(lines[i]) <==> i == |lines| - 1))
  }

  lemma QueryLine(comment: string, st: State, line: string, no: nat)
    requires st.mode != Command && !IsCommand(line) && (st.mode == Fresh ==> st == START && !Skipped(comment, line))
    ensures Step(comment, false, st, Line(line), no)
         == if EndsStatement(line) then (START, [Statement(st.text + line, if st.mode == Fresh then no else st.at)])
            else (State(Query, st.text + line + "\n", if st.mode == Fresh then no else st.at), [])
  {
    hide IsCommand, EndsStatement, Skipped;
    assert st.text + (line + "\n") == st.text + line + "\n";
  }

  lemma {:induction false} UnfinishedQuery(comment: string, lines: seq<string>, k: nat)
    requires IsQuery(comment, lines) && 0 < k < |lines|
    ensures Run(comment, false, Typed(lines)[..k]).0 == State(Query, Terminated(lines[..k]), 1)
    ensures Run(comment, false, Typed(lines)[..k]).1 == []
  {
    hide IsCommand, EndsStatement, Skipped;
    hide Run, Step;
    var inputs := Typed(lines);
    RunNone(comment, false);
    TerminatedNone();
    if k == 1 {
      assert inputs[..0] == [] && lines[..0] == [];
    } else {
      UnfinishedQuery(comment, lines, k - 1);
    }
    assert lines[..k] == lines[..k - 1] + [lines[k - 1]];
    TerminatedAppend(lines[..k - 1], lines[k - 1]);
    assert Terminated(lines[..k]) == Terminated(lines[..k - 1]) + lines[k - 1] + "\n";
    RunNext(comment, false, inputs, k - 1);
    QueryLine(comment, Run(comment, false, inputs[..k - 1]).0, lines[k - 1], k);
    assert Run(comment, false, inputs[..k - 1]).1 == [];
  }

  /** A query written over several lines is read as one statement with its line breaks. */
  lemma QueryRoundTrip(comment: string, lines: seq<string>)
    requires IsQuery(comment, lines)
    ensures Run(comment, false, Typed(lines)).0 == START
    ensures Run(comment, false, Typed(lines)).1 == [Statement(Join(lines, '\n'), 1)]
  {
    hide IsCommand, EndsStatement, Skipped, Join, Terminated, Run, Step;
    var n := |lines| - 1;
    var inputs := Typed(lines);
    RunNone(comment, false);
    if n > 0 {
      UnfinishedQuery(comment, lines, n);
    } else {
      assert inputs[..0] == [];
      TerminatedNone();
      assert lines[..0] == [];
    }
    TerminatedIsJoin(lines[..n], lines[n]);
    assert lines == lines[..n] + [lines[n]];
    RunNext(comment, false, inputs, n);
    QueryLine(comment, Run(comment, false, inputs[..n]).0, lines[n], n + 1);
    assert inputs[..n + 1] == inputs;
  }

  /** The lines of a command: every one but the last ends with a backslash. */
  predicate IsLongCommand(comment: string, lines: seq<string>) {
    && lines != [] && !Skipped(comment, lines[0]) && IsCommand(lines[0])
    && forall i :: 0 <= i < |lines| ==> (HasSuffix(lines[i], "\\") <==> i < |lines| - 1)
  }

  function Unbroken(lines: seq<string>): string {
    if lines == [] then ""
    else
      var last := lines[|lines| - 1];
      Unbroken(lines[..|lines| - 1]) + if HasSuffix(last, "\\") then last[..|last| - 1] else last
  }

  lemma CommandLine(comment: string, st: State, line: string, no: nat)
    requires st.mode == Command || (st == START && !Skipped(comment, line) && IsCommand(line))
    ensures Step(comment, false, st, Line(line), no)
         == if HasSuffix(line, "\\")
            then (State(Command, st.text + line[..|line| - 1], if st.mode == Fresh then no else st.at), [])
            else (START, [Statement(st.text + line, if st.mode == Fresh then no else st.at)])
  {
    hide IsCommand, EndsStatement, Skipped;
  }

  lemma UnbrokenNone()
    ensures Unbroken([]) == ""
  {
  }

  lemma UnbrokenNext(lines: seq<string>, k: nat)
    requires k < |lines|
    ensures Unbroken(lines[..k + 1])
         == Unbroken(lines[..k]) + if HasSuffix(lines[k], "\\") then lines[k][..|lines[k]| - 1] else lines[k]
  {
    assert lines[..k + 1][..k] == lines[..k];
  }

  lemma {:induction false} UnfinishedCommand(comment: string, lines: seq<string>, k: nat)
    requires IsLongCommand(comment, lines) && 0 < k < |lines|
    ensures Run(comment, false, Typed(lines)[..k]).0 == State(Command, Unbroken(lines[..k]), 1)
    ensures Run(comment, false, Typed(lines)[..k]).1 == []
  {
    hide IsCommand, Skipped, HasSuffix, Run, Step, Unbroken;
    var inputs := Typed(lines);
    RunNone(comment, false);
    UnbrokenNone();
    if k == 1 {
      assert inputs[..0] == [] && lines[..0] == [];
    } else {
      UnfinishedCommand(comment, lines, k - 1);
    }
    RunNext(comment, false, inputs, k - 1);
    UnbrokenNext(lines, k - 1);
    CommandLine(comment, Run(comment, false, inputs[..k - 1]).0, lines[k - 1], k);
  }

  /** A command continued with backslashes is read as one line. */
  lemma CommandRoundTrip(comment: string, lines: seq<string>)
    requires IsLongCommand(comment, lines)
    ensures Run(comment, false, Typed(lines)).0 == START
    ensures Run(comment, false, Typed(lines)).1 == [Statement(Unbroken(lines), 1)]
  {
    hide IsCommand, Skipped, HasSuffix, Run, Step, Unbroken;
    var n := |lines| - 1;
    var inputs := Typed(lines);
    RunNone(comment, false);
    UnbrokenNone();
    if n > 0 {
      UnfinishedCommand(comment, lines, n);
    } else {
      assert inputs[..0] == [] && lines[..0] == [];
    }
    RunNext(comment, false, inputs, n);
    UnbrokenNext(lines, n);
    CommandLine(comment, Run(comment, false, inputs[..n]).0, lines[n], n + 1);
    assert inputs[..n + 1] == inputs && lines[..n + 1] == lines;
  }
}
