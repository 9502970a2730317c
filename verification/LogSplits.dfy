/**
 Exactly when splitting a write of the log stream in two changes nothing. The lines of one write
 share a map; after a split the map starts empty again, so a line may miss a field that an
 earlier line of the same write had set.
 */
module LogSplits {
  import opened LogFixer
  import opened Wrappers

  // ---------- what lines do to the map, the output and the time ----------

  predicate Shows(last: int, time: int) {
    !(time > 0 && time <= last) && !(time <= 0 && last > 0)
  }

  /** The map after the lines; None is a panic. */
  function MapAfter(env: Env, kvs: Option<Fields>, lines: seq<string>): Option<Option<Fields>>
    decreases |lines|
  {
    if lines == [] then Some(kvs)
    else if Strip(lines[0]) == "" then MapAfter(env, kvs, lines[1..])
    else
      var (kvs', _) :- Absorb(env, kvs, Strip(lines[0]));
      MapAfter(env, kvs', lines[1..])
  }

  /** What the lines add to the output; None is a panic. */
  function Emitted(env: Env, last: int, kvs: Option<Fields>, lines: seq<string>): Option<string>
    decreases |lines|
  {
    if lines == [] then Some("")
    else if Strip(lines[0]) == "" then Emitted(env, last, kvs, lines[1..])
    else
      var (kvs', time) :- Absorb(env, kvs, Strip(lines[0]));
      var rest :- Emitted(env, last, kvs', lines[1..]);
      Some((if Shows(last, time) then env.render(ToMap(kvs')) + "\n" else "") + rest)
  }

  /** The time to advance to after the lines. */
  function Ahead(env: Env, last: int, kvs: Option<Fields>, next: int, lines: seq<string>): int
    decreases |lines|
  {
    if lines == [] then next
    else if Strip(lines[0]) == "" then Ahead(env, last, kvs, next, lines[1..])
    else
      match Absorb(env, kvs, Strip(lines[0]))
      case None => next
      case Some((kvs', time)) =>
        Ahead(env, last, kvs', if Shows(last, time) && time > 0 then time else next, lines[1..])
  }

  lemma {:induction false} StepsEmit(env: Env, last: int, st: State, lines: seq<string>)
    ensures Steps(env, last, st, lines).Some? <==> Emitted(env, last, st.kvs, lines).Some?
    ensures Steps(env, last, st, lines).Some? <==> MapAfter(env, st.kvs, lines).Some?
    ensures Steps(env, last, st, lines).Some? ==>
              var r := Steps(env, last, st, lines).value;
              && r.kvs == MapAfter(env, st.kvs, lines).value
              && r.next == Ahead(env, last, st.kvs, st.next, lines)
              && r.out == st.out + Emitted(env, last, st.kvs, lines).value
    decreases |lines|
  {
    hide Absorb, Strip;
    if lines != [] {
      var r := Step(env, last, st, lines[0]);
      if r.Some? {
        StepsEmit(env, last, r.value, lines[1..]);
        if r.value.out != st.out && Emitted(env, last, r.value.kvs, lines[1..]).Some? {
          var shown := env.render(ToMap(r.value.kvs)) + "\n";
          var rest := Emitted(env, last, r.value.kvs, lines[1..]).value;
          assert r.value.out == st.out + shown;
          assert st.out + shown + rest == st.out + (shown + rest);
        }
      }
    }
  }

  // ---------- the condition ----------

  /** The map of the one write has a field of the template that the map of the second write lacks. */
  ghost predicate Misses(whole: Option<Fields>, part: Option<Fields>) {
    exists f :: f in PLACEHOLDERS && f in ToMap(whole) && f !in ToMap(part)
  }

  /**
   No line that the one write shows lacks a field that was set before the split and not again
   since, and the one write does not panic where the two do not: on a line that is not JSON,
   when a JSON null has left it without a map.
   */
  ghost predicate SafeFrom(env: Env, last: int, whole: Option<Fields>, part: Option<Fields>, lines: seq<string>)
    decreases |lines|
  {
    lines == [] ||
    if Strip(lines[0]) == "" then SafeFrom(env, last, whole, part, lines[1..])
    else
      match (Absorb(env, whole, Strip(lines[0])), Absorb(env, part, Strip(lines[0])))
      case (_, None) => true
      case (None, Some(_)) => false
      case (Some((whole', time)), Some((part', _))) =>
        (Shows(last, time) ==> !Misses(whole', part')) && SafeFrom(env, last, whole', part', lines[1..])
  }

  /** The split between the two pieces is safe; a panic in the first one is the same either way. */
  ghost predicate SafeSplit(env: Env, w: Writer, p: string, q: string) {
    var second := Lines(Partial(w.buf + p) + q);
    match MapAfter(env, Some(map[]), Lines(w.buf + p))
    case None => true
    case Some(kvs) =>
      MapAfter(env, Some(map[]), second).None? || SafeFrom(env, w.last, kvs, Some(map[]), second)
  }

  function With(env: Env, template: Fields -> string): Env {
    env.(render := template)
  }

  ghost predicate SameWritten(env: Env, w: Writer, p: string, q: string) {
    Written(env, w, p + q) == match Written(env, w, p) case None => None case Some(w') => Written(env, w', q)
  }

  // ---------- both writes line by line ----------

  /** What the second write knows, the one write knows as well; the time it knows is a string. */
  ghost predicate Carries(whole: Option<Fields>, part: Option<Fields>) {
    && (part.None? ==> whole.None?)
    && ("time" in ToMap(whole) ==> ToMap(whole)["time"].Str?)
    && forall f :: f in PLACEHOLDERS && f in ToMap(part) ==> f in ToMap(whole) && ToMap(whole)[f] == ToMap(part)[f]
  }

  lemma LineCarries(env: Env, last: int, whole: Option<Fields>, part: Option<Fields>, line: string)
    requires Carries(whole, part)
    ensures var w, p := Absorb(env, whole, line), Absorb(env, part, line);
            && (p.None? ==> w.None?)
            && (w.Some? && p.Some? ==>
                  && Carries(w.value.0, p.value.0)
                  && (Shows(last, p.value.1) ==> Shows(last, w.value.1))
                  && (!Misses(w.value.0, p.value.0) ==> w.value.1 == p.value.1))
  {
    match env.parse(line) {
      case Invalid => assert "time" in PLACEHOLDERS;
      case Null =>
      case Object(fields) =>
        assert "time" in PLACEHOLDERS;
    }
  }

  lemma SameShown(env: Env, whole: Option<Fields>, part: Option<Fields>)
    requires Carries(whole, part) && !Misses(whole, part) && UsesPlaceholders(env)
    ensures env.render(ToMap(whole)) == env.render(ToMap(part))
  {
    assert AgreeOn(ToMap(whole), ToMap(part), PLACEHOLDERS);
  }

  /** Under the condition both writes do the same, whatever the template. */
  lemma {:induction false} SafeIsSame(env: Env, last: int, whole: Option<Fields>, part: Option<Fields>, next: int,
                                      lines: seq<string>)
    requires UsesPlaceholders(env) && Carries(whole, part) && SafeFrom(env, last, whole, part, lines)
    ensures Emitted(env, last, whole, lines) == Emitted(env, last, part, lines)
    ensures Emitted(env, last, whole, lines).Some? ==>
              Ahead(env, last, whole, next, lines) == Ahead(env, last, part, next, lines)
    decreases |lines|
  {
    hide UsesPlaceholders, Carries, Misses, Absorb, Strip;
    if lines != [] {
      if Strip(lines[0]) == "" {
        SafeIsSame(env, last, whole, part, next, lines[1..]);
      } else {
        var line := Strip(lines[0]);
        LineCarries(env, last, whole, part, line);
        var w, p := Absorb(env, whole, line), Absorb(env, part, line);
        if w.Some? && p.Some? {
          var (whole', time) := w.value;
          if Shows(last, time) { SameShown(env, whole', p.value.0); }
          SafeIsSame(env, last, whole', p.value.0, if Shows(last, time) && time > 0 then time else next, lines[1..]);
        }
      }
    }
  }

  /** Whether lines panic does not depend on the template. */
  lemma {:induction false} PanicsAlike(env: Env, template: Fields -> string, last: int, kvs: Option<Fields>,
                                       lines: seq<string>)
    ensures MapAfter(With(env, template), kvs, lines) == MapAfter(env, kvs, lines)
    ensures Emitted(With(env, template), last, kvs, lines).Some? <==> MapAfter(env, kvs, lines).Some?
    decreases |lines|
  {
    hide Strip;
    if lines != [] {
      if Strip(lines[0]) == "" {
        PanicsAlike(env, template, last, kvs, lines[1..]);
      } else {
        var r := Absorb(env, kvs, Strip(lines[0]));
        assert r == Absorb(With(env, template), kvs, Strip(lines[0]));
        if r.Some? { PanicsAlike(env, template, last, r.value.0, lines[1..]); }
      }
    }
  }

  const BLANK: Fields -> string := (_: Fields) => ""

  /** With the empty template the one write gives at least as many line breaks. */
  lemma {:induction false} ShowsAtLeast(env: Env, last: int, whole: Option<Fields>, part: Option<Fields>,
                                        lines: seq<string>)
    requires Carries(whole, part)
    ensures var e := With(env, BLANK);
            Emitted(e, last, whole, lines).Some? && Emitted(e, last, part, lines).Some? ==>
              |Emitted(e, last, whole, lines).value| >= |Emitted(e, last, part, lines).value|
    decreases |lines|
  {
    hide Carries, Misses, Absorb, Strip;
    var e := With(env, BLANK);
    if lines != [] {
      if Strip(lines[0]) == "" {
        ShowsAtLeast(env, last, whole, part, lines[1..]);
      } else {
        var line := Strip(lines[0]);
        LineCarries(e, last, whole, part, line);
        var w, p := Absorb(e, whole, line), Absorb(e, part, line);
        if w.Some? && p.Some? { ShowsAtLeast(env, last, w.value.0, p.value.0, lines[1..]); }
      }
    }
  }

  // ---------- a template that tells the difference ----------

  function ShowsField(f: string): Fields -> string {
    (m: Fields) => if f in m then "set" else "unset"
  }

  lemma FieldTemplate(env: Env, f: string)
    requires f in PLACEHOLDERS
    ensures UsesPlaceholders(With(env, ShowsField(f))) && UsesPlaceholders(With(env, BLANK))
  {
  }

  lemma FirstDiffers(a: string, b: string, x: string, y: string)
    requires a != "" && b != "" && a[0] != b[0]
    ensures a + x != b + y
  {
    assert (a + x)[0] == a[0] && (b + y)[0] == b[0];
  }

  /** The line that breaks the condition, in the one write and in the second write. */
  lemma LineTells(env: Env, last: int, whole: Option<Fields>, part: Option<Fields>, lines: seq<string>)
      returns (template: Fields -> string)
    requires lines != [] && Strip(lines[0]) != "" && Carries(whole, part)
    requires Absorb(env, part, Strip(lines[0])).Some? && MapAfter(env, part, lines).Some?
    requires Absorb(env, whole, Strip(lines[0])).Some? ==>
               var (whole', time) := Absorb(env, whole, Strip(lines[0])).value;
               Shows(last, time) && Misses(whole', Absorb(env, part, Strip(lines[0])).value.0)
    ensures UsesPlaceholders(With(env, template))
    ensures Emitted(With(env, template), last, whole, lines) != Emitted(With(env, template), last, part, lines)
  {
    hide UsesPlaceholders, Carries, Absorb, Strip, Showing;
    var line := Strip(lines[0]);
    LineCarries(env, last, whole, part, line);
    var w, p := Absorb(env, whole, line), Absorb(env, part, line);
    FieldTemplate(env, "msg");
    template := BLANK;
    if w.None? {
      AbsorbAlike(env, template, whole, line);
      PanicsAlike(env, template, last, part, lines);
    } else {
      var f :| f in PLACEHOLDERS && f in ToMap(w.value.0) && f !in ToMap(p.value.0);
      FieldTemplate(env, f);
      if Shows(last, p.value.1) { template := ShowsField(f); }
      var e := With(env, template);
      AbsorbAlike(env, template, whole, line);
      AbsorbAlike(env, template, part, line);
      PanicsAlike(env, template, last, part, lines);
      if Emitted(e, last, whole, lines).Some? {
        var x := Emitted(e, last, w.value.0, lines[1..]).value;
        var y := Emitted(e, last, p.value.0, lines[1..]).value;
        if Shows(last, p.value.1) {
          assert e.render(ToMap(w.value.0)) == "set" && e.render(ToMap(p.value.0)) == "unset";
          FirstDiffers("set" + "\n", "unset" + "\n", x, y);
        } else {
          ShowsAtLeast(env, last, w.value.0, p.value.0, lines[1..]);
          assert Emitted(e, last, whole, lines).value == "" + "\n" + x;
          assert Emitted(e, last, part, lines).value == "" + y;
        }
      }
    }
  }

  lemma AbsorbAlike(env: Env, template: Fields -> string, kvs: Option<Fields>, line: string)
    ensures Absorb(With(env, template), kvs, line) == Absorb(env, kvs, line)
  {
  }

  /** Without the condition some template of the placeholders shows a difference. */
  lemma {:induction false} UnsafeIsSeen(env: Env, last: int, whole: Option<Fields>, part: Option<Fields>,
                                        lines: seq<string>)
    returns (template: Fields -> string)
    requires Carries(whole, part) && !SafeFrom(env, last, whole, part, lines) && MapAfter(env, part, lines).Some?
    ensures UsesPlaceholders(With(env, template))
    ensures Emitted(With(env, template), last, whole, lines) != Emitted(With(env, template), last, part, lines)
    decreases |lines|
  {
    hide UsesPlaceholders, Carries, Misses, Absorb, Strip;
    var line := Strip(lines[0]);
    if line == "" {
      template := UnsafeIsSeen(env, last, whole, part, lines[1..]);
    } else {
      LineCarries(env, last, whole, part, line);
      var w, p := Absorb(env, whole, line), Absorb(env, part, line);
      if w.None? || (Shows(last, w.value.1) && Misses(w.value.0, p.value.0)) {
        template := LineTells(env, last, whole, part, lines);
      } else {
        template := UnsafeIsSeen(env, last, w.value.0, p.value.0, lines[1..]);
        AbsorbAlike(env, template, whole, line);
        AbsorbAlike(env, template, part, line);
        if Shows(last, w.value.1) { SameShown(With(env, template), w.value.0, p.value.0); }
        SameHead(env, template, last, whole, part, lines, w.value.0, w.value.1, p.value.0, p.value.1);
      }
    }
  }

  lemma SameHead(env: Env, template: Fields -> string, last: int, whole: Option<Fields>, part: Option<Fields>,
                 lines: seq<string>, w: Option<Fields>, t: int, p: Option<Fields>, u: int)
    requires lines != [] && Strip(lines[0]) != ""
    requires Absorb(env, whole, Strip(lines[0])) == Some((w, t))
    requires Absorb(env, part, Strip(lines[0])) == Some((p, u))
    requires Shows(last, t) <==> Shows(last, u)
    requires Shows(last, t) ==> template(ToMap(w)) == template(ToMap(p))
    requires Emitted(With(env, template), last, w, lines[1..]) != Emitted(With(env, template), last, p, lines[1..])
    ensures Emitted(With(env, template), last, whole, lines) != Emitted(With(env, template), last, part, lines)
  {
    hide Absorb, Strip;
    AbsorbAlike(env, template, whole, Strip(lines[0]));
    AbsorbAlike(env, template, part, Strip(lines[0]));
    var x := Emitted(With(env, template), last, w, lines[1..]);
    var y := Emitted(With(env, template), last, p, lines[1..]);
    if x.Some? && y.Some? {
      var head := if Shows(last, t) then template(ToMap(w)) + "\n" else "";
      assert (head + x.value)[|head|..] == x.value && (head + y.value)[|head|..] == y.value;
    }
  }

  // ---------- the theorem ----------

  lemma {:induction false} TimeIsString(env: Env, kvs: Option<Fields>, lines: seq<string>)
    requires "time" in ToMap(kvs) ==> ToMap(kvs)["time"].Str?
    ensures var r := MapAfter(env, kvs, lines);
            r.Some? && "time" in ToMap(r.value) ==> ToMap(r.value)["time"].Str?
    decreases |lines|
  {
    if lines != [] {
      var line := Strip(lines[0]);
      if line == "" {
        TimeIsString(env, kvs, lines[1..]);
      } else {
        var r := Absorb(env, kvs, line);
        if r.Some? { TimeIsString(env, r.value.0, lines[1..]); }
      }
    }
  }

  /** What one write and two writes do, on the lines before and after the split. */
  lemma WrittenBoth(env: Env, w: Writer, p: string, q: string)
    ensures var first, second := Lines(w.buf + p), Lines(Partial(w.buf + p) + q);
            match MapAfter(env, Some(map[]), first)
            case None => Written(env, w, p + q) == None && Written(env, w, p) == None
            case Some(kvs) =>
              && Written(env, w, p).Some?
              && (SameWritten(env, w, p, q) <==>
                    && Emitted(env, w.last, kvs, second) == Emitted(env, w.last, Some(map[]), second)
                    && (Emitted(env, w.last, kvs, second).Some? ==>
                          var next := Ahead(env, w.last, Some(map[]), w.next, first);
                          Ahead(env, w.last, kvs, next, second) == Ahead(env, w.last, Some(map[]), next, second)))
  {
    hide Lines, Partial, Steps, Emitted, Ahead, MapAfter;
    assert w.buf + (p + q) == w.buf + p + q;
    SplitAppend(w.buf + p, q);
    var first, second := Lines(w.buf + p), Lines(Partial(w.buf + p) + q);
    var st := State(Some(map[]), w.next, w.out);
    StepsAppend(env, w.last, st, first, second);
    StepsEmit(env, w.last, st, first);
    if MapAfter(env, Some(map[]), first).Some? {
      var mid := Steps(env, w.last, st, first).value;
      StepsEmit(env, w.last, mid, second);
      StepsEmit(env, w.last, mid.(kvs := Some(map[])), second);
      if Emitted(env, w.last, mid.kvs, second).Some? && Emitted(env, w.last, Some(map[]), second).Some? {
        SameTail(mid.out, Emitted(env, w.last, mid.kvs, second).value, Emitted(env, w.last, Some(map[]), second).value);
      }
    }
  }

  lemma SameTail(a: string, x: string, y: string)
    ensures a + x == a + y <==> x == y
  {
    assert (a + x)[|a|..] == x && (a + y)[|a|..] == y;
  }

  /**
   For any stream, any writer and any two pieces: writing them one by one is writing them at once,
   under every template of the placeholders, exactly when the split is safe.
   */
  lemma SplitIsSafeExactly(env: Env, w: Writer, p: string, q: string)
    ensures (forall template: Fields -> string :: UsesPlaceholders(With(env, template)) ==>
               SameWritten(With(env, template), w, p, q))
       <==> SafeSplit(env, w, p, q)
  {
    hide UsesPlaceholders, SameWritten, Written, Lines, Partial, SafeFrom, Carries, Emitted, MapAfter, Ahead;
    var first, second := Lines(w.buf + p), Lines(Partial(w.buf + p) + q);
    PanicsAlike(env, BLANK, w.last, Some(map[]), first);
    TimeIsString(env, Some(map[]), first);
    if SafeSplit(env, w, p, q) {
      forall template: Fields -> string | UsesPlaceholders(With(env, template))
        ensures SameWritten(With(env, template), w, p, q)
      {
        SafeWrites(env, template, w, p, q);
      }
    } else {
      var kvs := MapAfter(env, Some(map[]), first).value;
      StartsCarried(kvs);
      var template := UnsafeIsSeen(env, w.last, kvs, Some(map[]), second);
      PanicsAlike(env, template, w.last, Some(map[]), first);
      WrittenBoth(With(env, template), w, p, q);
      assert !SameWritten(With(env, template), w, p, q);
    }
  }

  lemma StartsCarried(kvs: Option<Fields>)
    requires "time" in ToMap(kvs) ==> ToMap(kvs)["time"].Str?
    ensures Carries(kvs, Some(map[]))
  {
  }

  lemma SafeWrites(env: Env, template: Fields -> string, w: Writer, p: string, q: string)
    requires UsesPlaceholders(With(env, template)) && SafeSplit(env, w, p, q)
    ensures SameWritten(With(env, template), w, p, q)
  {
    hide UsesPlaceholders, Written, Lines, Partial, SafeFrom, Carries, Emitted, MapAfter, Ahead;
    var e := With(env, template);
    var first, second := Lines(w.buf + p), Lines(Partial(w.buf + p) + q);
    PanicsAlike(env, template, w.last, Some(map[]), first);
    WrittenBoth(e, w, p, q);
    var after := MapAfter(env, Some(map[]), first);
    if after.Some? {
      TimeIsString(env, Some(map[]), first);
      StartsCarried(after.value);
      PanicsAlike(env, template, w.last, after.value, second);
      PanicsAlike(env, template, w.last, Some(map[]), second);
      if MapAfter(env, Some(map[]), second).None? {
        PanicsTogether(e, w.last, after.value, Some(map[]), second);
      } else {
        SafeAlike(env, template, w.last, after.value, Some(map[]), second);
        SafeIsSame(e, w.last, after.value, Some(map[]), Ahead(e, w.last, Some(map[]), w.next, first), second);
      }
    }
  }

  /** Where the second write panics, the one write does so too, if not before. */
  lemma {:induction false} PanicsTogether(env: Env, last: int, whole: Option<Fields>, part: Option<Fields>,
                                          lines: seq<string>)
    requires Carries(whole, part) && MapAfter(env, part, lines).None?
    ensures MapAfter(env, whole, lines).None?
    decreases |lines|
  {
    hide Carries, Absorb, Strip;
    if Strip(lines[0]) == "" {
      PanicsTogether(env, last, whole, part, lines[1..]);
    } else {
      var line := Strip(lines[0]);
      LineCarries(env, last, whole, part, line);
      var w, p := Absorb(env, whole, line), Absorb(env, part, line);
      if w.Some? && p.Some? { PanicsTogether(env, last, w.value.0, p.value.0, lines[1..]); }
    }
  }

  lemma {:induction false} SafeAlike(env: Env, template: Fields -> string, last: int, whole: Option<Fields>,
                                     part: Option<Fields>, lines: seq<string>)
    ensures SafeFrom(With(env, template), last, whole, part, lines) <==> SafeFrom(env, last, whole, part, lines)
    decreases |lines|
  {
    hide Absorb, Strip, Misses;
    if lines != [] {
      var line := Strip(lines[0]);
      AbsorbAlike(env, template, whole, line);
      AbsorbAlike(env, template, part, line);
      if line == "" {
        SafeAlike(env, template, last, whole, part, lines[1..]);
      } else {
        var w, p := Absorb(env, whole, line), Absorb(env, part, line);
        if w.Some? && p.Some? { SafeAlike(env, template, last, w.value.0, p.value.0, lines[1..]); }
      }
    }
  }

  /** At the start of a stream, after a line that is not JSON, an object is safe exactly with all five fields. */
  lemma SafeExactly(env: Env, w: Writer, junk: string, raw: string)
    requires w.buf == "" && w.last == 0 && '\n' !in junk && '\n' !in raw
    requires Strip(junk) != "" && env.parse(Strip(junk)).Invalid?
    requires Strip(raw) != "" && env.parse(Strip(raw)).Object?
    requires "time" in env.parse(Strip(raw)).fields ==> env.parse(Strip(raw)).fields["time"].Str?
    ensures (forall template: Fields -> string :: UsesPlaceholders(With(env, template)) ==>
               SameWritten(With(env, template), w, junk + "\n", raw + "\n"))
       <==> PLACEHOLDERS <= env.parse(Strip(raw)).fields.Keys
  {
    hide UsesPlaceholders, SameWritten, Lines, Partial, Strip, Misses;
    SplitIsSafeExactly(env, w, junk + "\n", raw + "\n");
    OneLine(junk);
    OneLine(raw);
    assert w.buf + (junk + "\n") == junk + "\n" && "" + (raw + "\n") == raw + "\n";
    var fields := env.parse(Strip(raw)).fields;
    var five := FallbackFields(Strip(junk));
    assert map[] + five == five && [junk][1..] == [] && [raw][1..] == [];
    assert MapAfter(env, Some(map[]), [junk]) == Some(Some(five));
    MissesExactly(five, fields);
    assert MapAfter(env, Some(map[]), [raw]).Some?;
    assert SafeFrom(env, 0, Some(five), Some(map[]), [raw]) <==> !Misses(Some(five + fields), Some(map[] + fields));
  }

  lemma OneLine(line: string)
    requires '\n' !in line
    ensures Lines(line + "\n") == [line] && Partial(line + "\n") == ""
  {
    LinesAt(line, "");
    NoLines("");
    assert line + ['\n'] + "" == line + "\n";
  }

  lemma MissesExactly(all: Fields, fields: Fields)
    requires all.Keys == PLACEHOLDERS
    ensures Misses(Some(all + fields), Some(map[] + fields)) <==> !(PLACEHOLDERS <= fields.Keys)
  {
    if f :| f in PLACEHOLDERS && f !in fields {
      assert f in all + fields && f !in map[] + fields;
    }
  }
}
