/**
 The lines of the shells by their characters: which of them end a statement, start a command or
 are skipped. A line is described by its first and its last rune that is not space.
 */
module ShellLines {
  import opened Sequences
  import opened Shells
  import opened Text

  /** Of the first 128 characters these are the spaces. */
  lemma AsciiSpaces(c: char)
    requires c < 128 as char
    ensures IsSpace(c) <==> c in {' ', '\t', '\n', '\r', 11 as char, 12 as char}
  {
  }

  predicate AllSpace(s: string) {
    forall c :: c in s ==> IsSpace(c)
  }

  /** The runes outside first..last are spaces, and the two at the ends are not. */
  predicate Ink(line: string, first: nat, last: nat) {
    && first <= last < |line| && !IsSpace(line[first]) && !IsSpace(line[last])
    && (forall i :: 0 <= i < first ==> IsSpace(line[i]))
    && (forall i :: last < i < |line| ==> IsSpace(line[i]))
  }

  lemma {:induction false} FirstInk(line: string) returns (first: nat)
    requires !AllSpace(line)
    ensures first < |line| && !IsSpace(line[first]) && forall i :: 0 <= i < first ==> IsSpace(line[i])
  {
    hide IsSpace;
    if IsSpace(line[0]) {
      assert line == [line[0]] + line[1..];
      var k := FirstInk(line[1..]);
      first := k + 1;
      assert forall i :: 0 < i < first ==> line[i] == line[1..][i - 1];
    } else {
      first := 0;
    }
  }

  lemma {:induction false} LastInk(line: string) returns (last: nat)
    requires !AllSpace(line)
    ensures last < |line| && !IsSpace(line[last]) && forall i :: last < i < |line| ==> IsSpace(line[i])
  {
    hide IsSpace;
    last := |line| - 1;
    if IsSpace(line[last]) {
      assert line == line[..last] + [line[last]];
      last := LastInk(line[..last]);
    }
  }

  /** Every line that is not all space has such ends. */
  lemma HasInk(line: string) returns (first: nat, last: nat)
    requires !AllSpace(line)
    ensures Ink(line, first, last)
  {
    hide IsSpace;
    first := FirstInk(line);
    last := LastInk(line);
  }

  lemma {:induction false} TrimLeftTo(line: string, first: nat)
    requires first < |line| && !IsSpace(line[first]) && forall i :: 0 <= i < first ==> IsSpace(line[i])
    ensures TrimLeft(line) == line[first..]
  {
    hide IsSpace;
    if first > 0 {
      assert forall i :: 0 <= i < first - 1 ==> line[1..][i] == line[i + 1];
      TrimLeftTo(line[1..], first - 1);
    }
  }

  lemma {:induction false} TrimRightTo(line: string, last: nat)
    requires last < |line| && !IsSpace(line[last]) && forall i :: last < i < |line| ==> IsSpace(line[i])
    ensures TrimRight(line) == line[..last + 1]
  {
    hide IsSpace;
    var n := |line| - 1;
    if last < n { TrimRightTo(line[..n], last); }
  }

  lemma TrimmedTo(line: string, first: nat, last: nat)
    requires Ink(line, first, last)
    ensures TrimSpace(line) == line[first..last + 1]
  {
    hide IsSpace, TrimLeft, TrimRight;
    TrimLeftTo(line, first);
    TrimRightTo(line[first..], last - first);
  }

  lemma {:induction false} TrimmedAway(line: string)
    requires AllSpace(line)
    ensures TrimSpace(line) == ""
  {
    hide IsSpace;
    if line != "" {
      assert line[0] in line;
      TrimmedAway(line[1..]);
    }
  }

  /** A text without space at its end starts the trimmed line exactly when it starts the line behind its space. */
  lemma PrefixStays(line: string, first: nat, last: nat, p: string)
    requires Ink(line, first, last) && p != "" && !IsSpace(Last(p))
    ensures HasPrefix(TrimSpace(line), p) <==> p <= line[first..]
  {
    hide IsSpace, TrimSpace;
    TrimmedTo(line, first, last);
    var t, n := line[first..last + 1], |p| - 1;
    if p <= line[first..] {
      assert p[n] == line[first..][n] == line[first + n];
      assert p == line[first..][..|p|] == line[first..first + |p|];
      assert p == t[..|p|];
    }
    if p <= t {
      assert p == t[..|p|] == line[first..][..|p|];
    }
  }

  // ---------- what a line does ----------

  /** A line is a command exactly when its first rune that is not space is a backslash. */
  lemma CommandExactly(line: string, first: nat, last: nat)
    requires Ink(line, first, last)
    ensures IsCommand(line) <==> line[first] == '\\'
  {
    hide TrimSpace;
    PrefixStays(line, first, last, "\\");
  }

  /** Outside commands, a semicolon at the end or the word help at the start ends the statement. */
  lemma EndsExactly(line: string, first: nat, last: nat)
    requires Ink(line, first, last)
    ensures EndsStatement(line) <==> line[last] == ';' || "help" <= line[first..]
  {
    hide TrimSpace;
    TrimmedTo(line, first, last);
    PrefixStays(line, first, last, "help");
    var t := line[first..last + 1];
    assert t[|t| - 1..] == [line[last]];
  }

  /** Lines of space and comments are skipped between statements, and nothing else. */
  lemma SkippedExactly(comment: string, line: string, first: nat, last: nat)
    requires Ink(line, first, last) && (comment != "" ==> !IsSpace(Last(comment)))
    ensures Skipped(comment, line) <==> comment != "" && comment <= line[first..]
  {
    hide IsSpace, TrimSpace;
    TrimmedTo(line, first, last);
    if comment != "" { PrefixStays(line, first, last, comment); }
  }

  lemma SpaceIsSkipped(comment: string, line: string)
    requires AllSpace(line)
    ensures Skipped(comment, line) && !IsCommand(line) && !EndsStatement(line)
  {
    hide TrimSpace;
    TrimmedAway(line);
  }

  /** What a line adds and where it leaves the shell, outside a command. */
  lemma TakeExactly(mode: Mode, line: string, first: nat, last: nat)
    requires Ink(line, first, last) && mode != Command
    ensures line[first] != '\\' && (line[last] == ';' || "help" <= line[first..]) ==> Take(mode, line) == (line, Fresh)
    ensures line[first] != '\\' && line[last] != ';' && !("help" <= line[first..]) ==>
              Take(mode, line) == (line + "\n", Query)
    ensures line[first] == '\\' && Last(line) != '\\' ==> Take(mode, line) == (line, Fresh)
    ensures line[first] == '\\' && Last(line) == '\\' ==> Take(mode, line) == (line[..|line| - 1], Command)
  {
    hide IsCommand, EndsStatement;
    CommandExactly(line, first, last);
    EndsExactly(line, first, last);
    assert HasSuffix(line, "\\") <==> Last(line) == '\\';
  }

  // ---------- queries ----------

  /** A line inside a query: space, or neither a command nor an end. */
  ghost predicate Inner(line: string) {
    || AllSpace(line)
    || exists first: nat, last: nat :: Ink(line, first, last) && line[first] != '\\' && line[last] != ';'
                             && !("help" <= line[first..])
  }

  /** The last line of a query: a body, a semicolon and space. */
  ghost predicate Final(line: string) {
    && (exists body, space :: line == body + ";" + space && AllSpace(space))
    && exists first: nat, last: nat :: Ink(line, first, last) && line[first] != '\\'
  }

  ghost predicate WrittenQuery(comment: string, lines: seq<string>) {
    && lines != [] && Final(lines[|lines| - 1]) && (forall i :: 0 <= i < |lines| - 1 ==> Inner(lines[i]))
    && exists first: nat, last: nat :: Ink(lines[0], first, last) && !(comment != "" && comment <= lines[0][first..])
  }

  lemma InnerGoesOn(line: string)
    requires Inner(line)
    ensures !IsCommand(line) && !EndsStatement(line)
  {
    hide IsCommand, EndsStatement, IsSpace, AllSpace;
    if AllSpace(line) {
      SpaceIsSkipped("", line);
    } else {
      var first: nat, last: nat :| Ink(line, first, last) && line[first] != '\\' && line[last] != ';'
                         && !("help" <= line[first..]);
      CommandExactly(line, first, last);
      EndsExactly(line, first, last);
    }
  }

  lemma FinalEnds(line: string)
    requires Final(line)
    ensures !IsCommand(line) && EndsStatement(line)
  {
    hide IsCommand, EndsStatement, IsSpace;
    var body, space :| line == body + ";" + space && AllSpace(space);
    var first: nat, last: nat :| Ink(line, first, last) && line[first] != '\\';
    CommandExactly(line, first, last);
    EndsExactly(line, first, last);
    SemicolonIsInk();
    assert line[|body|] == ';';
    assert forall i :: |body| < i < |line| ==> line[i] == space[i - |body| - 1] && line[i] in space;
    assert last == |body|;
  }

  lemma SemicolonIsInk()
    ensures !IsSpace(';')
  {
  }

  /**
   Lines of which only the last ends with a semicolon, and none is a command, are one statement
   with its line breaks.
   */
  lemma WrittenQueryIsRead(comment: string, lines: seq<string>)
    requires WrittenQuery(comment, lines) && (comment != "" ==> !IsSpace(Last(comment)))
    ensures Run(comment, false, Typed(lines)).0 == START
    ensures Run(comment, false, Typed(lines)).1 == [Statement(Join(lines, '\n'), 1)]
  {
    hide IsCommand, EndsStatement, IsSpace, Inner, Final, Skipped;
    var n := |lines| - 1;
    forall i | 0 <= i < |lines|
      ensures !IsCommand(lines[i]) && (EndsStatement(lines[i]) <==> i == n)
    {
      if i < n { InnerGoesOn(lines[i]); } else { FinalEnds(lines[i]); }
    }
    var first: nat, last: nat :| Ink(lines[0], first, last) && !(comment != "" && comment <= lines[0][first..]);
    SkippedExactly(comment, lines[0], first, last);
    QueryRoundTrip(comment, lines);
  }
}
