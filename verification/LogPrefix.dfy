/**
 The prefix "data:" of the log stream, which is that of server-sent events: it is cut off, and a
 log shows the same with and without it.
 */
module LogPrefix {
  import opened LogFixer
  import opened Text
  import opened Wrappers

  const PREFIX := "data:"

  lemma StripsPrefix(x: string)
    ensures Strip(PREFIX + x) == x
    ensures !HasPrefix(x, PREFIX) ==> Strip(x) == x
  {
    assert (PREFIX + x)[..5] == PREFIX && (PREFIX + x)[5..] == x;
  }

  /** One line: the prefix makes no difference, whatever behind it is. */
  lemma PrefixMakesNoDifference(env: Env, last: int, st: State, x: string)
    requires !HasPrefix(x, PREFIX)
    ensures Step(env, last, st, PREFIX + x) == Step(env, last, st, x)
  {
    StripsPrefix(x);
  }

  /** A line with just the prefix, like an empty one, is skipped. */
  lemma BlankLines(env: Env, last: int, st: State)
    ensures Step(env, last, st, "") == Some(st) && Step(env, last, st, PREFIX) == Some(st)
  {
    StripsPrefix("");
    assert PREFIX + "" == PREFIX;
  }

  /** Before any time is known, a line that is not JSON is shown as a message without a time. */
  lemma OtherTextIsShown(env: Env, st: State, x: string)
    requires x != "" && !HasPrefix(x, PREFIX) && env.parse(x).Invalid? && st.kvs == Some(map[])
    ensures Step(env, 0, st, x).Some? && Step(env, 0, st, PREFIX + x) == Step(env, 0, st, x)
    ensures exists m: Fields ::
              && m.Keys == {"msg", "level", "time", "thread", "logger"}
              && m["msg"] == Str(x) && m["level"] == Str("DEBUG")
              && m["time"] == m["thread"] == m["logger"] == Str("N/A")
              && Step(env, 0, st, x).value == State(Some(m), st.next, st.out + env.render(m) + "\n")
  {
    StripsPrefix(x);
    var m: Fields := map["msg" := Str(x), "level" := Str("DEBUG"), "time" := Str("N/A"),
                         "thread" := Str("N/A"), "logger" := Str("N/A")];
    assert map[] + m == m;
  }

  /** The time of a shown record is the one to resume from, and a record that is not later is not shown. */
  lemma RecordIsShown(env: Env, last: int, st: State, x: string, fields: Fields, t: int)
    requires x != "" && !HasPrefix(x, PREFIX) && env.parse(x) == Object(fields) && st.kvs == Some(map[])
    requires "time" in fields && fields["time"].Str? && env.parseTime(fields["time"].s) == Some(t) && t > 0
    ensures Step(env, last, st, PREFIX + x) == Step(env, last, st, x)
    ensures Step(env, last, st, x) ==
            Some(if t <= last then State(Some(fields), st.next, st.out)
                 else State(Some(fields), t, st.out + env.render(fields) + "\n"))
  {
    StripsPrefix(x);
    assert map[] + fields == fields;
  }

  /** A line without a time that can be read is shown before any time is known and skipped after that. */
  lemma UntimedLine(env: Env, last: int, st: State, x: string)
    requires x != "" && !HasPrefix(x, PREFIX) && st.kvs == Some(map[])
    requires match env.parse(x)
             case Invalid => true
             case Null => true
             case Object(fields) =>
               "time" in fields ==> fields["time"].Str? && env.parseTime(fields["time"].s).None?
    ensures Step(env, last, st, x).Some?
    ensures var after := Step(env, last, st, x).value;
            && after.next == st.next
            && after.out == if last > 0 then st.out else st.out + env.render(ToMap(after.kvs)) + "\n"
    ensures env.parse(x).Null? ==> Step(env, last, st, x).value.kvs == None
    ensures env.parse(x).Object? ==> Step(env, last, st, x).value.kvs == Some(env.parse(x).fields)
  {
    StripsPrefix(x);
    if env.parse(x).Object? { assert map[] + env.parse(x).fields == env.parse(x).fields; }
  }

  /** What panics: text behind a JSON null, and a time that is not a string. */
  lemma LinePanics(env: Env, last: int, st: State, x: string)
    requires x != "" && !HasPrefix(x, PREFIX)
    ensures Step(env, last, st, x).None? <==>
              || (st.kvs.None? && env.parse(x).Invalid?)
              || (&& env.parse(x).Object?
                  && var m := ToMap(st.kvs) + env.parse(x).fields;
                     "time" in m && !m["time"].Str?)
  {
    StripsPrefix(x);
  }

  // ---------- the whole stream ----------

  function Prefixed(log: seq<string>): seq<string> {
    seq(|log|, i requires 0 <= i < |log| => PREFIX + log[i])
  }

  predicate Plain(log: seq<string>) {
    forall i :: 0 <= i < |log| ==> !HasPrefix(log[i], PREFIX)
  }

  lemma SameEntry(env: Env, x: string)
    requires !HasPrefix(x, PREFIX)
    ensures Entry(env, PREFIX + x) <==> Entry(env, x)
    ensures TimeOf(env, PREFIX + x) == TimeOf(env, x) && Shown(env, PREFIX + x) == Shown(env, x)
  {
    StripsPrefix(x);
    assert '\n' !in PREFIX;
  }

  lemma SameLog(env: Env, log: seq<string>)
    requires Plain(log)
    ensures GoodLog(env, Prefixed(log)) <==> GoodLog(env, log)
    ensures forall n: nat :: n <= |log| ==> TimeAt(env, Prefixed(log), n) == TimeAt(env, log, n)
  {
    hide HasPrefix, Entry, TimeOf, Shown;
    var all := Prefixed(log);
    forall i | 0 <= i < |log|
      ensures (Entry(env, all[i]) <==> Entry(env, log[i])) && TimeOf(env, all[i]) == TimeOf(env, log[i])
    {
      SameEntry(env, log[i]);
    }
  }

  lemma {:induction false} SameShown(env: Env, log: seq<string>)
    requires Plain(log)
    ensures ShownAll(env, Prefixed(log)) == ShownAll(env, log)
  {
    hide HasPrefix, Shown;
    if log != [] {
      var n := |log| - 1;
      SameShown(env, log[..n]);
      SameEntry(env, log[n]);
      assert Prefixed(log)[..n] == Prefixed(log[..n]);
    }
  }

  /** The reconnect loop shows of a log with the prefix on every entry what it shows of the log without it. */
  lemma PrefixedStreamShows(env: Env, log: seq<string>, w: Writer, n: nat, ss: seq<Session>)
    requires UsesPlaceholders(env) && GoodLog(env, log) && Plain(log) && n <= |log|
    requires w.buf == "" && w.last == w.next == TimeAt(env, log, n)
    requires NoGap(n, ss) && forall i :: 0 <= i < |ss| ==> Delivers(Prefixed(log), ss[i])
    ensures n <= ShownTo(n, Tried(ss)) <= |log|
    ensures StreamRun(env, w, ss).Some?
    ensures StreamRun(env, w, ss).value.0.out == w.out + ShownAll(env, log[n..ShownTo(n, Tried(ss))])
  {
    hide UsesPlaceholders, GoodLog, NoGap, Delivers, ShownAll, TimeAt, StreamRun, Tried, ShownTo, Prefixed, Plain;
    SameLog(env, log);
    SameLength(log);
    StreamShows(env, Prefixed(log), w, n, ss);
    SameSlice(env, log, n, ShownTo(n, Tried(ss)));
  }

  lemma SameLength(log: seq<string>)
    ensures |Prefixed(log)| == |log|
  {
  }

  lemma SameSlice(env: Env, log: seq<string>, n: nat, m: nat)
    requires Plain(log) && n <= m <= |log|
    ensures |Prefixed(log)| == |log| && ShownAll(env, Prefixed(log)[n..m]) == ShownAll(env, log[n..m])
  {
    hide ShownAll, HasPrefix;
    SameShown(env, log[n..m]);
    assert Prefixed(log)[n..m] == Prefixed(log[n..m]);
  }
}
