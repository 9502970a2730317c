/**
 The log stream of base/commands/viridian/viridian_log_stream.go: logFixer reassembles lines
 from arbitrary chunks, turns JSON records into text by a template, and after a reconnect
 skips what was shown before by the time of the records.

 JSON, time parsing and templates are libraries; they come in as functions.
 */
module LogFixer {
  import opened Sequences
  import opened Text
  import opened Wrappers

  datatype Json = Str(s: string) | NotStr(raw: string)

  type Fields = map<string, Json>

  /** json.Unmarshal of a line into a map: an error, the literal null, or an object. */
  datatype Record = Invalid | Null | Object(fields: Fields)

  /** A time is a number after the zero time, which is 0. */
  datatype Env = Env(parse: string -> Record, parseTime: string -> Option<int>, render: Fields -> string)

  const PLACEHOLDERS: set<string> := {"msg", "level", "time", "thread", "logger"}

  // ---------- one line ----------

  /** The map shared by the lines of one Write (None is a nil map), the time to advance to, and the output. */
  datatype State = State(kvs: Option<Fields>, next: int, out: string)

  function Strip(line: string): string {
    if HasPrefix(line, "data:") then line[5..] else line
  }

  function FallbackFields(line: string): Fields {
    map["msg" := Str(line), "level" := Str("DEBUG"),
        "time" := Str("N/A"), "thread" := Str("N/A"), "logger" := Str("N/A")]
  }

  function ToMap(kvs: Option<Fields>): Fields {
    kvs.GetOr(map[])
  }

  /** The map after reading the line and the time of the line; None is a panic. */
  function Absorb(env: Env, kvs: Option<Fields>, line: string): Option<(Option<Fields>, int)> {
    match env.parse(line)
    case Invalid =>
      // assigning to a nil map panics
      if kvs.None? then None else Some((Some(kvs.value + FallbackFields(line)), 0))
    case Null =>
      Some((None, 0))
    case Object(fields) =>
      var m := ToMap(kvs) + fields;
      if "time" !in m then Some((Some(m), 0))
      // the assertion that the time is a string panics
      else if !m["time"].Str? then None
      else Some((Some(m), env.parseTime(m["time"].s).GetOr(0)))
  }

  /** A complete line, without its line break. */
  function Step(env: Env, last: int, st: State, raw: string): Option<State> {
    var line := Strip(raw);
    if line == "" then Some(st)
    else
      var (kvs, time) :- Absorb(env, st.kvs, line);
      if time > 0 && time <= last then Some(st.(kvs := kvs))
      else if time <= 0 && last > 0 then Some(st.(kvs := kvs))
      else Some(State(kvs, if time > 0 then time else st.next, st.out + env.render(ToMap(kvs)) + "\n"))
  }

  function Steps(env: Env, last: int, st: State, lines: seq<string>): Option<State>
    decreases |lines|
  {
    if lines == [] then Some(st)
    else
      var st' :- Step(env, last, st, lines[0]);
      Steps(env, last, st', lines[1..])
  }

  lemma StepsNone(env: Env, last: int, st: State)
    ensures Steps(env, last, st, []) == Some(st)
  {
  }

  lemma StepsCons(env: Env, last: int, st: State, line: string, rest: seq<string>)
    ensures Steps(env, last, st, [line] + rest)
         == match Step(env, last, st, line) case None => None case Some(st') => Steps(env, last, st', rest)
  {
    assert ([line] + rest)[1..] == rest;
  }

  lemma {:induction false} StepsAppend(env: Env, last: int, st: State, a: seq<string>, b: seq<string>)
    ensures Steps(env, last, st, a + b)
         == match Steps(env, last, st, a) case None => None case Some(st') => Steps(env, last, st', b)
    decreases |a|
  {
    if a == [] {
      assert a + b == b;
    } else {
      assert (a + b)[1..] == a[1..] + b;
      var st' := Step(env, last, st, a[0]);
      if st'.Some? { StepsAppend(env, last, st'.value, a[1..], b); }
    }
  }

  // ---------- writing ----------

  datatype Writer = Writer(buf: string, out: string, last: int, next: int)

  /** The complete lines of the data, without their line breaks. */
  function Lines(data: string): seq<string>
    decreases |data|
  {
    var i := IndexOf(data, '\n');
    if i < 0 then [] else [data[..i]] + Lines(data[i + 1..])
  }

  /** What follows the last line break. */
  function Partial(data: string): string
    decreases |data|
  {
    var i := IndexOf(data, '\n');
    if i < 0 then data else Partial(data[i + 1..])
  }

  /** One Write; the map starts empty in each. */
  function Written(env: Env, w: Writer, p: string): Option<Writer> {
    var st :- Steps(env, w.last, State(Some(map[]), w.next, w.out), Lines(w.buf + p));
    Some(Writer(Partial(w.buf + p), st.out, w.last, st.next))
  }

  function Advanced(w: Writer): Writer {
    w.(last := w.next)
  }

  class Fixer {
    var buf: string
    var inner: string
    var lastTime: int
    var nextLastTime: int
    const env: Env

    constructor (env: Env)
      ensures Value() == Writer("", "", 0, 0) && this.env == env
    {
      buf, inner, lastTime, nextLastTime := "", "", 0, 0;
      this.env := env;
    }

    function Value(): Writer
      reads this
    {
      Writer(buf, inner, lastTime, nextLastTime)
    }

    method Advance()
      modifies this
      ensures Value() == Advanced(old(Value()))
    {
      lastTime := nextLastTime;
    }

    /** The body of the scan loop for a line that ends in a line break. */
    method Observe(text: string, ghost raw: string, kvs: Option<Fields>) returns (ok: bool, kvs': Option<Fields>)
      requires text == raw + "\n"
      modifies `inner, `nextLastTime
      ensures var r := Step(env, lastTime, State(kvs, old(nextLastTime), old(inner)), raw);
              && (ok <==> r.Some?)
              && (ok ==> State(kvs', nextLastTime, inner) == r.value)
    {
      kvs' := kvs;
      ok := true;
      var line := text;
      assert text[|text| - 1] == '\n' && (HasPrefix(text, "data:") ==> text[4] == ':');
      if HasPrefix(line, "data:") {
        line := line[5..];
      }
      line := line[..|line| - 1];
      assert line == Strip(raw);
      if line == "" {
        return;
      }
      var logTime := 0;
      match env.parse(line) {
        case Invalid =>
          if kvs.None? {
            return false, kvs;
          }
          kvs' := Some(kvs.value + FallbackFields(line));
        case Null =>
          kvs' := None;
        case Object(fields) =>
          kvs' := Some(ToMap(kvs) + fields);
          if "time" in kvs'.value {
            if !kvs'.value["time"].Str? {
              return false, kvs;
            }
            logTime := env.parseTime(kvs'.value["time"].s).GetOr(0);
          }
      }
      if logTime > 0 {
        if logTime <= lastTime {
          return;
        }
        nextLastTime := logTime;
      } else if lastTime > 0 {
        return;
      }
      inner := inner + env.render(ToMap(kvs')) + "\n";
    }

    /** The scan loop; ok is false when the call panics. */
    method Write(p: string) returns (ok: bool)
      modifies this
      ensures ok <==> Written(env, old(Value()), p).Some?
      ensures ok ==> Value() == Written(env, old(Value()), p).value
    {
      hide Step, Steps, Lines, Partial;
      var data := buf + p;
      var kvs: Option<Fields> := Some(map[]);
      ghost var whole := Steps(env, lastTime, State(kvs, nextLastTime, inner), Lines(data));
      while true
        invariant lastTime == old(lastTime)
        invariant Partial(data) == Partial(old(buf) + p)
        invariant Steps(env, lastTime, State(kvs, nextLastTime, inner), Lines(data)) == whole
        decreases |data|
      {
        var i := IndexOf(data, '\n');
        if i < 0 {
          break;
        }
        ghost var raw := data[..i];
        FirstLine(data, i);
        assert data[..i + 1] == raw + "\n";
        StepsCons(env, lastTime, State(kvs, nextLastTime, inner), raw, Lines(data[i + 1..]));
        ok, kvs := Observe(data[..i + 1], raw, kvs);
        if !ok {
          return;
        }
        data := data[i + 1..];
      }
      NoLines(data);
      StepsNone(env, lastTime, State(kvs, nextLastTime, inner));
      buf := data;
      ok := true;
    }
  }

  // ---------- independence of chunks ----------

  lemma NoLines(data: string)
    requires '\n' !in data
    ensures Lines(data) == [] && Partial(data) == data
  {
  }

  lemma FirstLine(data: string, i: nat)
    requires i == IndexOf(data, '\n')
    ensures Lines(data) == [data[..i]] + Lines(data[i + 1..]) && Partial(data) == Partial(data[i + 1..])
  {
    hide IndexOf;
  }

  lemma LinesAt(head: string, tail: string)
    requires '\n' !in head
    ensures Lines(head + ['\n'] + tail) == [head] + Lines(tail) && Partial(head + ['\n'] + tail) == Partial(tail)
  {
    IndexOfAt(head, '\n', tail);
    var data := head + ['\n'] + tail;
    assert data[..|head|] == head && data[|head| + 1..] == tail;
  }

  lemma {:induction false} SplitAppend(a: string, b: string)
    ensures Lines(a + b) == Lines(a) + Lines(Partial(a) + b)
    ensures Partial(a + b) == Partial(Partial(a) + b)
    decreases |a|
  {
    hide Lines, Partial;
    var i := IndexOf(a, '\n');
    if i < 0 {
      NoLines(a);
    } else {
      var head, tail := a[..i], a[i + 1..];
      assert a == head + ['\n'] + tail && a + b == head + ['\n'] + (tail + b);
      SplitAppend(tail, b);
      LinesAt(head, tail);
      LinesAt(head, tail + b);
    }
  }

  /** The template looks at the five placeholders only. */
  ghost predicate UsesPlaceholders(env: Env) {
    forall a: Fields, b: Fields :: AgreeOn(a, b, PLACEHOLDERS) ==> env.render(a) == env.render(b)
  }

  ghost predicate AgreeOn(a: Fields, b: Fields, names: set<string>) {
    forall f :: f in names ==> (f in a <==> f in b) && (f in a ==> a[f] == b[f])
  }

  /** A blank line, a line that is not JSON, or an object with all five fields, the time a string. */
  ghost predicate SelfContained(env: Env, raw: string) {
    var line := Strip(raw);
    || line == ""
    || env.parse(line).Invalid?
    || (env.parse(line).Object? && PLACEHOLDERS <= env.parse(line).fields.Keys && env.parse(line).fields["time"].Str?)
  }

  /** What a self-contained line does, whatever map it finds. */
  function Alone(env: Env, last: int, next: int, out: string, raw: string): (int, string) {
    match Step(env, last, State(Some(map[]), next, out), raw)
    case None => (next, out)
    case Some(st) => (st.next, st.out)
  }

  lemma StepAlone(env: Env, last: int, st: State, raw: string)
    requires UsesPlaceholders(env) && SelfContained(env, raw) && st.kvs.Some?
    ensures var r := Step(env, last, st, raw);
            r.Some? && r.value.kvs.Some? && (r.value.next, r.value.out) == Alone(env, last, st.next, st.out, raw)
  {
    var line := Strip(raw);
    if line != "" {
      var m := if env.parse(line).Invalid? then FallbackFields(line) else env.parse(line).fields;
      assert AgreeOn(st.kvs.value + m, map[] + m, PLACEHOLDERS);
    }
  }

  lemma {:induction false} StepsAlone(env: Env, last: int, a: State, b: State, lines: seq<string>)
    requires UsesPlaceholders(env) && forall i :: 0 <= i < |lines| ==> SelfContained(env, lines[i])
    requires a.kvs.Some? && b.kvs.Some? && a.next == b.next && a.out == b.out
    ensures var ra, rb := Steps(env, last, a, lines), Steps(env, last, b, lines);
            && ra.Some? && rb.Some? && ra.value.kvs.Some?
            && ra.value.next == rb.value.next && ra.value.out == rb.value.out
    decreases |lines|
  {
    if lines != [] {
      hide Step, UsesPlaceholders, SelfContained;
      StepAlone(env, last, a, lines[0]);
      StepAlone(env, last, b, lines[0]);
      StepsAlone(env, last, Step(env, last, a, lines[0]).value, Step(env, last, b, lines[0]).value, lines[1..]);
    }
  }

  ghost predicate AllSelfContained(env: Env, data: string) {
    forall i :: 0 <= i < |Lines(data)| ==> SelfContained(env, Lines(data)[i])
  }

  /** Two writes are one write of both chunks. */
  lemma TwoWrites(env: Env, w: Writer, p: string, q: string)
    requires UsesPlaceholders(env) && AllSelfContained(env, w.buf + (p + q))
    ensures var one := Written(env, w, p);
            && one.Some? && Written(env, one.value, q).Some?
            && Written(env, one.value, q) == Written(env, w, p + q)
            && AllSelfContained(env, one.value.buf + q)
  {
    var a, data := w.buf + p, w.buf + (p + q);
    assert data == a + q;
    SplitAppend(a, q);
    hide Lines, Partial, SelfContained, Steps, UsesPlaceholders;
    var first, second := Lines(a), Lines(Partial(a) + q);
    PartsSelfContained(env, first, second);
    var st := State(Some(map[]), w.next, w.out);
    StepsAlone(env, w.last, st, st, first);
    var mid := Steps(env, w.last, st, first).value;
    StepsAppend(env, w.last, st, first, second);
    StepsAlone(env, w.last, mid, mid.(kvs := Some(map[])), second);
  }

  lemma PartsSelfContained(env: Env, a: seq<string>, b: seq<string>)
    requires forall i :: 0 <= i < |a + b| ==> SelfContained(env, (a + b)[i])
    ensures forall i :: 0 <= i < |a| ==> SelfContained(env, a[i])
    ensures forall i :: 0 <= i < |b| ==> SelfContained(env, b[i])
  {
    hide SelfContained;
    forall i | 0 <= i < |a| ensures SelfContained(env, a[i]) { assert (a + b)[i] == a[i]; }
    forall i | 0 <= i < |b| ensures SelfContained(env, b[i]) { assert (a + b)[|a| + i] == b[i]; }
  }

  function WrittenAll(env: Env, w: Writer, chunks: seq<string>): Option<Writer>
    decreases |chunks|
  {
    if chunks == [] then Some(w)
    else
      var w' :- Written(env, w, chunks[0]);
      WrittenAll(env, w', chunks[1..])
  }

  /**
   Any split of the stream into writes gives the output, the retained partial line and the
   times of a single write, if every line is self-contained.
   */
  lemma {:induction false} ChunksDoNotMatter(env: Env, w: Writer, chunks: seq<string>)
    requires UsesPlaceholders(env) && AllSelfContained(env, w.buf + Concat(chunks)) && chunks != []
    ensures WrittenAll(env, w, chunks).Some? && WrittenAll(env, w, chunks) == Written(env, w, Concat(chunks))
    decreases |chunks|
  {
    hide Written, AllSelfContained, UsesPlaceholders;
    var p, rest := chunks[0], chunks[1..];
    if rest == [] {
      assert Concat(chunks) == p + "" == p;
      TwoWrites(env, w, p, "");
    } else {
      TwoWrites(env, w, p, Concat(rest));
      ChunksDoNotMatter(env, Written(env, w, p).value, rest);
    }
  }

  /** The environment with the template that only shows whether f is set. */
  function Showing(env: Env, f: string): Env {
    env.(render := (m: Fields) => if f in m then "set" else "unset")
  }

  lemma JunkStep(env: Env, f: string, st: State, junk: string)
    requires junk != "" && !HasPrefix(junk, "data:") && env.parse(junk).Invalid? && f in PLACEHOLDERS && st.kvs.Some?
    ensures Step(Showing(env, f), 0, st, junk)
         == Some(State(Some(st.kvs.value + FallbackFields(junk)), st.next, st.out + "set\n"))
  {
    assert FallbackFields(junk).Keys == PLACEHOLDERS;
    assert f in st.kvs.value + FallbackFields(junk);
    assert st.out + "set" + "\n" == st.out + "set\n";
  }

  /** An object without f, and with a readable time or none. */
  ghost predicate Lacks(env: Env, raw: string, f: string) {
    var r := env.parse(Strip(raw));
    && f in PLACEHOLDERS && Strip(raw) != "" && r.Object? && f !in r.fields
    && ("time" in r.fields ==> r.fields["time"].Str?)
  }

  lemma LackingStep(env: Env, f: string, st: State, raw: string)
    requires Lacks(env, raw, f) && st.kvs.Some? && ("time" in st.kvs.value ==> st.kvs.value["time"].Str?)
    ensures var r := Step(Showing(env, f), 0, st, raw);
            r.Some? && r.value.out == st.out + if f in st.kvs.value then "set\n" else "unset\n"
  {
    var m := st.kvs.value + env.parse(Strip(raw)).fields;
    assert f in m <==> f in st.kvs.value;
    assert st.out + "set" + "\n" == st.out + "set\n" && st.out + "unset" + "\n" == st.out + "unset\n";
  }

  /**
   The condition is needed: an object that lacks one of the fields shows the field of an
   earlier line in the same write. After any line that is not JSON, the two lines written
   together and one by one give different outputs under a template that shows the field.
   */
  lemma MissingFieldLeaks(env: Env, w: Writer, junk: string, raw: string, f: string)
    requires w.buf == "" && w.last == 0 && '\n' !in junk && '\n' !in raw
    requires junk != "" && !HasPrefix(junk, "data:") && env.parse(junk).Invalid? && Lacks(env, raw, f)
    ensures UsesPlaceholders(Showing(env, f))
    ensures OutputOf(WrittenAll(Showing(env, f), w, [junk + "\n", raw + "\n"])) == Some(w.out + "set\n" + "unset\n")
    ensures OutputOf(Written(Showing(env, f), w, junk + "\n" + (raw + "\n"))) == Some(w.out + "set\n" + "set\n")
  {
    var shows := Showing(env, f);
    ShowingUses(env, f);
    var st := State(Some(map[]), w.next, w.out);
    JunkStep(env, f, st, junk);
    var st1 := Step(shows, 0, st, junk).value;
    assert "time" in FallbackFields(junk) && f in FallbackFields(junk);
    LackingStep(env, f, st1, raw);
    LackingStep(env, f, st1.(kvs := Some(map[])), raw);
    hide Step, Showing, Lacks, Written, WrittenAll, FallbackFields, UsesPlaceholders;
    WriteOneLine(shows, w, junk);
    WriteOneLine(shows, w.(out := st1.out, next := st1.next), raw);
    WriteTwoLines(shows, w, junk, raw);
    TwoChunks(shows, w, junk + "\n", raw + "\n");
  }

  lemma TwoChunks(env: Env, w: Writer, a: string, b: string)
    ensures WrittenAll(env, w, [a, b]) ==
              match Written(env, w, a) case None => None case Some(w') => Written(env, w', b)
  {
    assert [a, b][1..] == [b] && [b][1..] == [];
    var first := Written(env, w, a);
    if first.Some? {
      assert WrittenAll(env, first.value, [b]) == Written(env, first.value, b);
    }
  }

  function OutputOf(w: Option<Writer>): Option<string> {
    match w case None => None case Some(x) => Some(x.out)
  }

  lemma WriteOneLine(env: Env, w: Writer, line: string)
    requires w.buf == "" && '\n' !in line
    ensures var st := Step(env, w.last, State(Some(map[]), w.next, w.out), line);
            Written(env, w, line + "\n") ==
              match st case None => None case Some(x) => Some(Writer("", x.out, w.last, x.next))
  {
    LinesAt(line, "");
    NoLines("");
    assert w.buf + (line + "\n") == line + ['\n'] + "";
    assert Lines(w.buf + (line + "\n")) == [line];
    hide Lines, Partial, Step, Steps;
    StepsOne(env, w.last, State(Some(map[]), w.next, w.out), line);
  }

  lemma TwoLines(a: string, b: string)
    requires '\n' !in a && '\n' !in b
    ensures Lines(a + "\n" + (b + "\n")) == [a] + [b] && Partial(a + "\n" + (b + "\n")) == ""
  {
    hide Lines, Partial;
    NoLines("");
    LinesAt(b, "");
    LinesAt(a, b + ['\n'] + "");
    assert a + "\n" + (b + "\n") == a + ['\n'] + (b + ['\n'] + "");
  }

  lemma WriteTwoLines(env: Env, w: Writer, a: string, b: string)
    requires w.buf == "" && '\n' !in a && '\n' !in b
    requires Step(env, w.last, State(Some(map[]), w.next, w.out), a).Some?
    ensures var st := Step(env, w.last, Step(env, w.last, State(Some(map[]), w.next, w.out), a).value, b);
            Written(env, w, a + "\n" + (b + "\n")) ==
              match st case None => None case Some(x) => Some(Writer("", x.out, w.last, x.next))
  {
    hide Lines, Partial, Step, Steps;
    var st := State(Some(map[]), w.next, w.out);
    TwoLines(a, b);
    assert w.buf + (a + "\n" + (b + "\n")) == a + "\n" + (b + "\n");
    StepsCons(env, w.last, st, a, [b]);
    StepsOne(env, w.last, Step(env, w.last, st, a).value, b);
  }

  lemma ShowingUses(env: Env, f: string)
    requires f in PLACEHOLDERS
    ensures UsesPlaceholders(Showing(env, f))
  {
  }

  lemma StepsOne(env: Env, last: int, st: State, line: string)
    ensures Steps(env, last, st, [line]) == Step(env, last, st, line)
  {
    assert [line][1..] == [];
  }

  // ---------- reconnecting ----------

  /** A record of the log: self-contained JSON on one line, with a time. */
  ghost predicate Entry(env: Env, raw: string) {
    && SelfContained(env, raw) && '\n' !in raw && Strip(raw) != "" && env.parse(Strip(raw)).Object?
    && TimeOf(env, raw) > 0
  }

  function TimeOf(env: Env, raw: string): int {
    match env.parse(Strip(raw))
    case Object(fields) =>
      if "time" in fields && fields["time"].Str? then env.parseTime(fields["time"].s).GetOr(0) else 0
    case _ => 0
  }

  function Shown(env: Env, raw: string): string {
    match env.parse(Strip(raw))
    case Object(fields) => env.render(fields) + "\n"
    case _ => ""
  }

  function ShownAll(env: Env, log: seq<string>): string {
    if log == [] then "" else ShownAll(env, log[..|log| - 1]) + Shown(env, log[|log| - 1])
  }

  ghost predicate GoodLog(env: Env, log: seq<string>) {
    && (forall i :: 0 <= i < |log| ==> Entry(env, log[i]))
    && (forall i, j :: 0 <= i < j < |log| ==> TimeOf(env, log[i]) < TimeOf(env, log[j]))
  }

  lemma {:induction false} LinesOfTerminated(lines: seq<string>)
    requires forall i :: 0 <= i < |lines| ==> '\n' !in lines[i]
    ensures Lines(Terminated(lines)) == lines && Partial(Terminated(lines)) == ""
  {
    if lines != [] {
      LinesOfTerminated(lines[1..]);
      LinesAt(lines[0], Terminated(lines[1..]));
    }
  }

  /** An entry is shown if it is later than everything shown before the reconnect; its time is kept. */
  lemma EntryStep(env: Env, last: int, st: State, raw: string)
    requires UsesPlaceholders(env) && Entry(env, raw) && st.kvs.Some?
    ensures var r := Step(env, last, st, raw);
            && r.Some? && r.value.kvs.Some?
            && (TimeOf(env, raw) <= last ==> r.value.next == st.next && r.value.out == st.out)
            && (TimeOf(env, raw) > last ==> r.value.next == TimeOf(env, raw) && r.value.out == st.out + Shown(env, raw))
  {
    var fields := env.parse(Strip(raw)).fields;
    var m := st.kvs.value + fields;
    assert "time" in PLACEHOLDERS && m["time"] == fields["time"];
    assert AgreeOn(m, fields, PLACEHOLDERS);
  }

  /** The entries of the log before position n. */
  function TimeAt(env: Env, log: seq<string>, n: nat): int
    requires n <= |log|
  {
    if n == 0 then 0 else TimeOf(env, log[n - 1])
  }

  lemma {:induction false} ShownAppend(env: Env, a: seq<string>, b: seq<string>)
    ensures ShownAll(env, a + b) == ShownAll(env, a) + ShownAll(env, b)
  {
    hide Shown;
    if b == [] {
      assert a + b == a;
    } else {
      assert (a + b)[..|a + b| - 1] == a + b[..|b| - 1];
      ShownAppend(env, a, b[..|b| - 1]);
    }
  }

  lemma TimesOrdered(env: Env, log: seq<string>, a: nat, n: nat)
    requires GoodLog(env, log) && a < |log| && n <= |log|
    ensures TimeOf(env, log[a]) <= TimeAt(env, log, n) <==> a < n
  {
    hide TimeOf;
    assert Entry(env, log[a]);
  }

  lemma LaterTime(env: Env, log: seq<string>, n: nat, m: nat)
    requires GoodLog(env, log) && n <= m <= |log|
    ensures TimeAt(env, log, n) <= TimeAt(env, log, m)
  {
    if m > 0 { assert Entry(env, log[m - 1]); }
  }

  lemma ShownOne(env: Env, log: seq<string>, a: nat, b: nat)
    requires a < b <= |log|
    ensures ShownAll(env, log[a..b]) == Shown(env, log[a]) + ShownAll(env, log[a + 1..b])
  {
    assert log[a..b] == [log[a]] + log[a + 1..b];
    ShownAppend(env, [log[a]], log[a + 1..b]);
    assert [log[a]][..0] == [];
  }

  /**
   Reading the entries from a on, when everything before n was shown: those before n are
   skipped, those from n on are shown, and the time of the last one is kept.
   */
  lemma {:induction false} ReplaySteps(env: Env, log: seq<string>, a: nat, b: nat, n: nat, m: nat, st: State)
    requires UsesPlaceholders(env) && GoodLog(env, log)
    requires a <= b <= |log| && n <= m <= |log| && st.kvs.Some? && (a <= n == m || a == m)
    ensures Replayed(env, log, Steps(env, TimeAt(env, log, n), st, log[a..b]), st, m, if b > m then b else m)
    decreases b - a
  {
    hide Step, GoodLog, UsesPlaceholders, TimeOf, TimeAt, Shown, Entry, Steps, ShownAll;
    var last := TimeAt(env, log, n);
    if a == b {
      assert log[a..b] == [] && log[m..m] == [];
      StepsNone(env, last, st);
      ShownNone(env);
    } else {
      assert log[a..b] == [log[a]] + log[a + 1..b];
      ReplayStep(env, log, a, n, st);
      StepsCons(env, last, st, log[a], log[a + 1..b]);
      var st' := Step(env, last, st, log[a]).value;
      if a < n {
        ReplaySteps(env, log, a + 1, b, n, m, st');
      } else {
        ReplaySteps(env, log, a + 1, b, n, a + 1, st');
        ShownOne(env, log, a, b);
      }
    }
  }

  lemma ReplayStep(env: Env, log: seq<string>, a: nat, n: nat, st: State)
    requires UsesPlaceholders(env) && GoodLog(env, log) && a < |log| && n <= |log| && st.kvs.Some?
    ensures var r := Step(env, TimeAt(env, log, n), st, log[a]);
            && r.Some? && r.value.kvs.Some?
            && (a < n ==> r.value.next == st.next && r.value.out == st.out)
            && (a >= n ==> r.value.next == TimeAt(env, log, a + 1) && r.value.out == st.out + Shown(env, log[a]))
  {
    assert Entry(env, log[a]);
    TimesOrdered(env, log, a, n);
    EntryStep(env, TimeAt(env, log, n), st, log[a]);
  }

  lemma ShownNone(env: Env)
    ensures ShownAll(env, []) == ""
  {
  }

  /** From st on the entries from m to m' were shown, and the time of the last one is kept. */
  ghost predicate Replayed(env: Env, log: seq<string>, r: Option<State>, st: State, m: nat, m': nat)
    requires m <= m' <= |log|
  {
    && r.Some?
    && r.value.next == (if m == m' then st.next else TimeAt(env, log, m'))
    && r.value.out == st.out + ShownAll(env, log[m..m'])
  }

  datatype Ending = Lost | Closed | Failed

  /** A session delivers the entries from start to end, in any chunks, and then it ends. */
  datatype Session = Session(start: nat, end: nat, chunks: seq<string>, ending: Ending)

  ghost predicate Delivers(log: seq<string>, s: Session) {
    s.start <= s.end <= |log| && s.chunks != [] && Concat(s.chunks) == Terminated(log[s.start..s.end])
  }

  /** A session that is lost: the time is advanced before the next one. */
  function SessionRun(env: Env, w: Writer, s: Session): Option<Writer> {
    var w' :- WrittenAll(env, w, s.chunks);
    Some(Advanced(w'))
  }

  function SessionsRun(env: Env, w: Writer, ss: seq<Session>): Option<Writer>
    decreases |ss|
  {
    if ss == [] then Some(w)
    else
      var w' :- SessionRun(env, w, ss[0]);
      SessionsRun(env, w', ss[1..])
  }

  /** How far the log has been shown after the sessions. */
  function ShownTo(n: nat, ss: seq<Session>): nat
    decreases |ss|
  {
    if ss == [] then n else ShownTo(if ss[0].end > n then ss[0].end else n, ss[1..])
  }

  /** Every session starts no later than the first entry not yet shown. */
  predicate NoGap(n: nat, ss: seq<Session>)
    decreases |ss|
  {
    ss != [] ==> ss[0].start <= n && NoGap(if ss[0].end > n then ss[0].end else n, ss[1..])
  }

  /** The writer when the entries from n to m have been shown after out, at the start of a session. */
  function UpTo(env: Env, log: seq<string>, out: string, n: nat, m: nat): Writer
    requires n <= m <= |log|
  {
    Writer("", out + ShownAll(env, log[n..m]), TimeAt(env, log, m), TimeAt(env, log, m))
  }

  lemma UpToTwice(env: Env, log: seq<string>, out: string, n: nat, n': nat, m: nat)
    requires n <= n' <= m <= |log|
    ensures UpTo(env, log, UpTo(env, log, out, n, n').out, n', m) == UpTo(env, log, out, n, m)
  {
    hide ShownAll;
    assert log[n..m] == log[n..n'] + log[n'..m];
    ShownAppend(env, log[n..n'], log[n'..m]);
  }

  lemma OneSession(env: Env, log: seq<string>, w: Writer, n: nat, s: Session)
    requires UsesPlaceholders(env) && GoodLog(env, log) && Delivers(log, s) && n <= |log| && s.start <= n
    requires w.buf == "" && w.last == w.next == TimeAt(env, log, n)
    ensures SessionRun(env, w, s) == Some(UpTo(env, log, w.out, n, if s.end > n then s.end else n))
  {
    var lines := log[s.start..s.end];
    EntriesPlain(env, log, s.start, s.end);
    LinesOfTerminated(lines);
    assert w.buf + Concat(s.chunks) == Terminated(lines);
    hide SelfContained, UsesPlaceholders, GoodLog, Steps, Lines, Terminated, Concat, Partial;
    ChunksDoNotMatter(env, w, s.chunks);
    ReplaySteps(env, log, s.start, s.end, n, n, State(Some(map[]), w.next, w.out));
  }

  /**
   Over any number of reconnects the entries shown are a run of the log without gap or
   duplicate, from the first unshown entry to the furthest one delivered; nothing is left in
   the buffer, and the time to resume from is that of the last entry shown.
   */
  lemma {:induction false} NoGapNoDuplicate(env: Env, log: seq<string>, w: Writer, n: nat, ss: seq<Session>)
    requires UsesPlaceholders(env) && GoodLog(env, log) && n <= |log|
    requires w.buf == "" && w.last == w.next == TimeAt(env, log, n)
    requires NoGap(n, ss) && forall i :: 0 <= i < |ss| ==> Delivers(log, ss[i])
    ensures n <= ShownTo(n, ss) <= |log|
    ensures SessionsRun(env, w, ss) == Some(UpTo(env, log, w.out, n, ShownTo(n, ss)))
    ensures TimeAt(env, log, ShownTo(n, ss)) >= w.last
    decreases |ss|
  {
    assert ss != [] ==> Delivers(log, ss[0]);
    hide UsesPlaceholders, GoodLog, SessionRun, ShownAll, TimeAt;
    if ss == [] {
      assert log[n..n] == [];
      ShownNone(env);
      assert w.out + "" == w.out;
    } else {
      var n' := if ss[0].end > n then ss[0].end else n;
      OneSession(env, log, w, n, ss[0]);
      var w' := SessionRun(env, w, ss[0]).value;
      NoGapNoDuplicate(env, log, w', n', ss[1..]);
      UpToTwice(env, log, w.out, n, n', ShownTo(n', ss[1..]));
      LaterTime(env, log, n, n');
    }
  }

  /**
   A connection lost in the middle of a line leaves a partial line, to which the first line of
   the next session is glued. If the result is not JSON, it is dropped; that costs nothing when
   the session repeats an entry, but when it resumes at the first unshown entry, that one is lost.
   Inside the very first line, before any time is known, the result is shown as it is instead.
   */
  lemma CutLine(env: Env, log: seq<string>, w: Writer, n: nat, s: Session)
    requires UsesPlaceholders(env) && GoodLog(env, log) && Delivers(log, s)
    requires n <= |log| && s.start <= n && s.start < s.end && w.last == w.next == TimeAt(env, log, n)
    requires '\n' !in w.buf
    requires var glued := Strip(w.buf + log[s.start]); glued != "" && env.parse(glued).Invalid?
    ensures s.start < n ==> SessionRun(env, w, s) == Some(UpTo(env, log, w.out, n, if s.end > n then s.end else n))
    ensures s.start == n > 0 ==> OutputOf(SessionRun(env, w, s)) == Some(w.out + ShownAll(env, log[n + 1..s.end]))
    ensures n == 0 ==>
              OutputOf(SessionRun(env, w, s)) ==
              Some(w.out + env.render(FallbackFields(Strip(w.buf + log[0]))) + "\n" + ShownAll(env, log[1..s.end]))
  {
    var a, glued, rest := s.start, w.buf + log[s.start], log[s.start + 1..s.end];
    CutData(env, log, w.buf, s);
    if n > 0 { LastTimePositive(env, log, n); }
    var st := State(Some(map[]), w.next, w.out);
    GluedStep(env, w.last, st, glued);
    assert map[] + FallbackFields(Strip(glued)) == FallbackFields(Strip(glued));
    hide FallbackFields;
    hide SelfContained, UsesPlaceholders, GoodLog, Delivers, Steps, Lines, Concat, Partial, Step, TimeAt;
    hide AllSelfContained;
    ChunksDoNotMatter(env, w, s.chunks);
    StepsCons(env, w.last, st, glued, rest);
    ReplaySteps(env, log, a + 1, s.end, n, if a < n then n else a + 1, Step(env, w.last, st, glued).value);
  }

  lemma LastTimePositive(env: Env, log: seq<string>, n: nat)
    requires GoodLog(env, log) && 0 < n <= |log|
    ensures TimeAt(env, log, n) > 0
  {
    assert Entry(env, log[n - 1]);
  }

  lemma GluedStep(env: Env, last: int, st: State, glued: string)
    requires Strip(glued) != "" && env.parse(Strip(glued)).Invalid? && last >= 0 && st.kvs.Some?
    ensures var r := Step(env, last, st, glued);
            && r.Some? && r.value.kvs.Some? && r.value.next == st.next
            && r.value.out
            == if last > 0 then st.out
               else st.out + env.render(st.kvs.value + FallbackFields(Strip(glued))) + "\n"
  {
  }

  lemma CutData(env: Env, log: seq<string>, buf: string, s: Session)
    requires GoodLog(env, log) && Delivers(log, s) && s.start < s.end && '\n' !in buf
    requires env.parse(Strip(buf + log[s.start])).Invalid?
    ensures var data := buf + Concat(s.chunks);
            && Lines(data) == [buf + log[s.start]] + log[s.start + 1..s.end] && Partial(data) == ""
            && AllSelfContained(env, data)
  {
    hide GoodLog, Terminated, Concat, Lines, Partial, SelfContained;
    var glued, rest := buf + log[s.start], log[s.start + 1..s.end];
    EntriesPlain(env, log, s.start, s.end);
    EntriesPlain(env, log, s.start + 1, s.end);
    assert '\n' !in log[s.start..s.end][0];
    TerminatedFirst(log, s.start, s.end);
    assert buf + Concat(s.chunks) == glued + ['\n'] + Terminated(rest);
    LinesAt(glued, Terminated(rest));
    LinesOfTerminated(rest);
    InvalidIsSelfContained(env, glued);
  }

  lemma EntriesPlain(env: Env, log: seq<string>, a: nat, b: nat)
    requires GoodLog(env, log) && a <= b <= |log|
    ensures forall i :: 0 <= i < b - a ==> '\n' !in log[a..b][i] && SelfContained(env, log[a..b][i])
  {
    hide SelfContained;
    forall i | 0 <= i < b - a ensures '\n' !in log[a..b][i] && SelfContained(env, log[a..b][i]) {
      assert Entry(env, log[a + i]);
    }
  }

  lemma TerminatedFirst(log: seq<string>, a: nat, b: nat)
    requires a < b <= |log|
    ensures Terminated(log[a..b]) == log[a] + ['\n'] + Terminated(log[a + 1..b])
  {
    assert log[a..b][0] == log[a] && log[a..b][1..] == log[a + 1..b];
  }

  lemma InvalidIsSelfContained(env: Env, raw: string)
    requires env.parse(Strip(raw)).Invalid?
    ensures SelfContained(env, raw)
  {
  }

  // ---------- the reconnect loop ----------

  /** The sessions up to the first one that is not lost. */
  function Tried(ss: seq<Session>): seq<Session> {
    if ss == [] then [] else [ss[0]] + if ss[0].ending.Lost? then Tried(ss[1..]) else []
  }

  /** None is a panic. Behind a session that is not lost the time is not advanced. */
  function StreamRun(env: Env, w: Writer, ss: seq<Session>): Option<(Writer, Ending)>
    decreases |ss|
  {
    if ss == [] then Some((w, Lost))
    else
      var w' :- WrittenAll(env, w, ss[0].chunks);
      if ss[0].ending.Lost? then StreamRun(env, Advanced(w'), ss[1..]) else Some((w', ss[0].ending))
  }

  /** The last session differs only in the time that is not advanced. */
  lemma {:induction false} StreamIsSessions(env: Env, w: Writer, ss: seq<Session>)
    ensures StreamRun(env, w, ss).Some? <==> SessionsRun(env, w, Tried(ss)).Some?
    ensures StreamRun(env, w, ss).Some? ==>
              var (r, ending) := StreamRun(env, w, ss).value;
              && SessionsRun(env, w, Tried(ss)).value == (if ending.Lost? then r else Advanced(r))
              && (ending.Lost? <==> |Tried(ss)| == |ss| && forall i :: 0 <= i < |ss| ==> ss[i].ending.Lost?)
    decreases |ss|
  {
    hide WrittenAll;
    if ss != [] {
      var w' := WrittenAll(env, w, ss[0].chunks);
      assert Tried(ss)[0] == ss[0] && Tried(ss)[1..] == if ss[0].ending.Lost? then Tried(ss[1..]) else [];
      if w'.Some? && ss[0].ending.Lost? { StreamIsSessions(env, Advanced(w'.value), ss[1..]); }
    }
  }

  lemma {:induction false} TriedAreSessions(n: nat, ss: seq<Session>)
    requires NoGap(n, ss)
    ensures NoGap(n, Tried(ss))
    ensures Tried(ss) <= ss
    decreases |ss|
  {
    if ss != [] {
      TriedAreSessions(if ss[0].end > n then ss[0].end else n, ss[1..]);
      assert ss == [ss[0]] + ss[1..];
    }
  }

  /** The reconnect loop shows a run of the log without gap or duplicate, however its last session ends. */
  lemma StreamShows(env: Env, log: seq<string>, w: Writer, n: nat, ss: seq<Session>)
    requires UsesPlaceholders(env) && GoodLog(env, log) && n <= |log|
    requires w.buf == "" && w.last == w.next == TimeAt(env, log, n)
    requires NoGap(n, ss) && forall i :: 0 <= i < |ss| ==> Delivers(log, ss[i])
    ensures n <= ShownTo(n, Tried(ss)) <= |log|
    ensures StreamRun(env, w, ss).Some?
    ensures StreamRun(env, w, ss).value.0.out == w.out + ShownAll(env, log[n..ShownTo(n, Tried(ss))])
  {
    hide UsesPlaceholders, GoodLog, NoGap, Delivers, ShownAll, TimeAt, StreamRun, SessionsRun, Tried, ShownTo;
    TriedAreSessions(n, ss);
    NoGapNoDuplicate(env, log, w, n, Tried(ss));
    StreamIsSessions(env, w, ss);
  }

  /** A lost session is followed by the next one; any other ends the loop. */
  method Stream(lf: Fixer, ss: seq<Session>) returns (r: Option<Ending>)
    modifies lf
    ensures r.Some? <==> StreamRun(lf.env, old(lf.Value()), ss).Some?
    ensures r.Some? ==> StreamRun(lf.env, old(lf.Value()), ss) == Some((lf.Value(), r.value))
  {
    hide Written, WrittenAll;
    var i := 0;
    while i < |ss|
      invariant 0 <= i <= |ss|
      invariant StreamRun(lf.env, lf.Value(), ss[i..]) == StreamRun(lf.env, old(lf.Value()), ss)
    {
      assert ss[i..][0] == ss[i] && ss[i..][1..] == ss[i + 1..];
      var ok := StreamSession(lf, ss[i]);
      if !ok {
        return None;
      }
      if !ss[i].ending.Lost? {
        return Some(ss[i].ending);
      }
      lf.Advance();
      i := i + 1;
    }
    return Some(Lost);
  }

  method StreamSession(lf: Fixer, s: Session) returns (ok: bool)
    modifies lf
    ensures ok <==> WrittenAll(lf.env, old(lf.Value()), s.chunks).Some?
    ensures ok ==> lf.Value() == WrittenAll(lf.env, old(lf.Value()), s.chunks).value
  {
    hide Written;
    var i := 0;
    while i < |s.chunks|
      invariant 0 <= i <= |s.chunks|
      invariant WrittenAll(lf.env, lf.Value(), s.chunks[i..]) == WrittenAll(lf.env, old(lf.Value()), s.chunks)
    {
      assert s.chunks[i..][0] == s.chunks[i] && s.chunks[i..][1..] == s.chunks[i + 1..];
      ok := lf.Write(s.chunks[i]);
      if !ok {
        return;
      }
      i := i + 1;
    }
    ok := true;
  }
}
