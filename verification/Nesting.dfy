/**
 Nested structures by their grammar, without counting frames: what skipping passes over, and that
 everything the encoders write is nested in this sense.
 */
module Nesting {
  import opened Codec
  import opened Frames
  import opened JobCodec
  import opened Sequences

  /** A list of frames: none; a plain frame and more; or a structure within its two frames and more. */
  datatype Nested =
    | Nothing
    | Plain(frame: Frame, more: Nested)
    | Within(begin: Frame, inner: Nested, end: Frame, more: Nested)
  {
    function Frames(): seq<Frame> {
      match this
      case Nothing => []
      case Plain(frame, more) => [frame] + more.Frames()
      case Within(begin, inner, end, more) => [begin] + inner.Frames() + [end] + more.Frames()
    }

    /** To the reader a frame with both flags is an end. */
    predicate Valid() {
      match this
      case Nothing => true
      case Plain(frame, more) => EndDataStructure !in frame.flags && BeginDataStructure !in frame.flags && more.Valid()
      case Within(begin, inner, end, more) =>
        && BeginDataStructure in begin.flags && EndDataStructure !in begin.flags
        && EndDataStructure in end.flags && inner.Valid() && more.Valid()
    }

    function Then(other: Nested): Nested {
      match this
      case Nothing => other
      case Plain(frame, more) => Plain(frame, more.Then(other))
      case Within(begin, inner, end, more) => Within(begin, inner, end, more.Then(other))
    }
  }

  ghost predicate IsNested(fs: seq<Frame>) {
    exists t: Nested :: t.Valid() && t.Frames() == fs
  }

  // ---------- skipping ----------

  /** Nested frames leave the number of open structures as it was. */
  lemma {:induction false} PassesOver(t: Nested, depth: nat, after: seq<Frame>)
    requires t.Valid() && depth > 0
    ensures FastForward(t.Frames() + after, depth) == FastForward(after, depth)
    decreases t
  {
    match t {
      case Nothing =>
        assert [] + after == after;
      case Plain(frame, more) =>
        assert t.Frames() + after == [frame] + (more.Frames() + after);
        OneFrame(frame, more.Frames() + after, depth);
        PassesOver(more, depth, after);
      case Within(begin, inner, end, more) =>
        var behind := more.Frames() + after;
        assert t.Frames() + after == [begin] + (inner.Frames() + ([end] + behind));
        OneFrame(begin, inner.Frames() + ([end] + behind), depth);
        PassesOver(inner, depth + 1, [end] + behind);
        OneFrame(end, behind, depth + 1);
        PassesOver(more, depth, after);
    }
  }

  lemma OneFrame(frame: Frame, after: seq<Frame>, depth: nat)
    requires depth > 0
    ensures FastForward([frame] + after, depth) ==
            FastForward(after, if EndDataStructure in frame.flags then depth - 1
                               else if BeginDataStructure in frame.flags then depth + 1 else depth)
  {
    assert ([frame] + after)[1..] == after;
  }

  /** Whatever nested frames a newer peer adds, skipping stops just behind the end frame of the structure. */
  lemma SkipsNested(t: Nested, rest: seq<Frame>)
    requires t.Valid()
    ensures FastForward(t.Frames() + [END_FRAME] + rest, 1) == Parsed((), rest)
  {
    assert t.Frames() + [END_FRAME] + rest == t.Frames() + ([END_FRAME] + rest);
    PassesOver(t, 1, [END_FRAME] + rest);
    OneFrame(END_FRAME, rest, 1);
  }

  // ---------- the grammar and the count ----------

  lemma NetOfOne(frame: Frame)
    ensures Net([frame]) == if EndDataStructure in frame.flags then -1
                            else if BeginDataStructure in frame.flags then 1 else 0
  {
    assert [frame][..0] == [];
  }

  lemma NetOfPrefix(a: seq<Frame>, b: seq<Frame>, m: nat)
    requires m <= |a + b|
    ensures Net((a + b)[..m]) == if m <= |a| then Net(a[..m]) else Net(a) + Net(b[..m - |a|])
  {
    if m <= |a| {
      assert (a + b)[..m] == a[..m];
    } else {
      assert (a + b)[..m] == a + b[..m - |a|];
      NetAppend(a, b[..m - |a|]);
    }
  }

  lemma BothWellNested(a: seq<Frame>, b: seq<Frame>)
    requires WellNested(a) && WellNested(b)
    ensures WellNested(a + b)
  {
    hide Net;
    NetAppend(a, b);
    forall m | 0 <= m <= |a + b| ensures Net((a + b)[..m]) >= 0 { NetOfPrefix(a, b, m); }
  }

  lemma WithinWellNested(begin: Frame, fs: seq<Frame>, end: Frame)
    requires BeginDataStructure in begin.flags && EndDataStructure !in begin.flags && EndDataStructure in end.flags
    requires WellNested(fs)
    ensures WellNested([begin] + fs + [end])
  {
    hide Net;
    NetOfOne(begin);
    NetOfOne(end);
    NetOfNone();
    NetAppend([begin], fs);
    NetAppend([begin] + fs, [end]);
    forall m | 0 <= m <= |fs| + 2 ensures Net(([begin] + fs + [end])[..m]) >= 0 {
      NetOfPrefix([begin] + fs, [end], m);
      if m <= |fs| + 1 {
        NetOfPrefix([begin], fs, m);
        if m <= 1 { assert m == 0 ==> [begin][..m] == []; assert m == 1 ==> [begin][..m] == [begin]; }
      } else {
        assert [end][..1] == [end];
      }
    }
  }

  lemma NetOfNone()
    ensures Net([]) == 0
  {
  }

  lemma PlainWellNested(frame: Frame)
    requires EndDataStructure !in frame.flags && BeginDataStructure !in frame.flags
    ensures WellNested([frame])
  {
    NetOfOne(frame);
    assert [frame][..0] == [] && [frame][..1] == [frame];
  }

  lemma {:induction false} NestedIsWellNested(t: Nested)
    requires t.Valid()
    ensures WellNested(t.Frames())
  {
    hide Net, WellNested;
    match t {
      case Nothing =>
        NothingWellNested();
      case Plain(frame, more) =>
        PlainWellNested(frame);
        NestedIsWellNested(more);
        BothWellNested([frame], more.Frames());
      case Within(begin, inner, end, more) =>
        NestedIsWellNested(inner);
        WithinWellNested(begin, inner.Frames(), end);
        NestedIsWellNested(more);
        BothWellNested([begin] + inner.Frames() + [end], more.Frames());
    }
  }

  lemma NothingWellNested()
    ensures WellNested([])
  {
  }

  /** The end frame that closes the first frame. */
  lemma {:induction false} ClosingFrame(fs: seq<Frame>, m: nat) returns (n: nat)
    requires 1 <= m < |fs| && Net(fs) == 0 && forall i :: 1 <= i <= m ==> Net(fs[..i]) > 0
    ensures m <= n < |fs| && Net(fs[..n + 1]) == 0 && forall i :: 1 <= i <= n ==> Net(fs[..i]) > 0
    decreases |fs| - m
  {
    NetStep(fs, m);
    assert fs[..|fs|] == fs;
    if Net(fs[..m + 1]) == 0 {
      n := m;
    } else {
      n := ClosingFrame(fs, m + 1);
    }
  }

  lemma NetStep(fs: seq<Frame>, m: nat)
    requires m < |fs|
    ensures Net(fs[..m + 1]) - Net(fs[..m]) == if EndDataStructure in fs[m].flags then -1
                                              else if BeginDataStructure in fs[m].flags then 1 else 0
  {
    assert fs[..m + 1][..m] == fs[..m];
  }

  lemma SliceWellNested(fs: seq<Frame>, a: nat, b: nat)
    requires a <= b <= |fs| && Net(fs[..a]) == Net(fs[..b])
    requires forall i :: a <= i <= b ==> Net(fs[..i]) >= Net(fs[..a])
    ensures WellNested(fs[a..b])
  {
    hide Net;
    forall m | 0 <= m <= b - a
      ensures Net(fs[..a + m]) == Net(fs[..a]) + Net(fs[a..b][..m])
    {
      assert fs[..a + m] == fs[..a] + fs[a..b][..m];
      NetAppend(fs[..a], fs[a..b][..m]);
    }
    assert fs[a..b][..b - a] == fs[a..b];
  }

  /** Well-nested frames are the nested ones: reads their structure off the frames. */
  lemma {:induction false} WellNestedIsNested(fs: seq<Frame>) returns (t: Nested)
    requires WellNested(fs)
    ensures t.Valid() && t.Frames() == fs
    decreases |fs|
  {
    hide Net;
    NetOfNone();
    if fs == [] {
      t := Nothing;
    } else {
      assert fs[..0] == [] && fs[..|fs|] == fs;
      NetStep(fs, 0);
      if BeginDataStructure in fs[0].flags {
        var n := ClosingFrame(fs, 1);
        NetStep(fs, n);
        SliceWellNested(fs, 1, n);
        SliceWellNested(fs, n + 1, |fs|);
        var inner := WellNestedIsNested(fs[1..n]);
        var more := WellNestedIsNested(fs[n + 1..|fs|]);
        t := Within(fs[0], inner, fs[n], more);
        assert fs == [fs[0]] + fs[1..n] + [fs[n]] + fs[n + 1..|fs|];
      } else {
        SliceWellNested(fs, 1, |fs|);
        var more := WellNestedIsNested(fs[1..|fs|]);
        t := Plain(fs[0], more);
        assert fs == [fs[0]] + fs[1..|fs|];
      }
    }
  }

  /** Counting frames and the grammar agree. */
  lemma NestedExactly(fs: seq<Frame>)
    ensures WellNested(fs) <==> IsNested(fs)
  {
    hide WellNested;
    if WellNested(fs) {
      var t := WellNestedIsNested(fs);
    }
    if t: Nested :| t.Valid() && t.Frames() == fs { NestedIsWellNested(t); }
  }

  // ---------- what the encoders write ----------

  lemma {:induction false} ThenIs(a: Nested, b: Nested)
    requires a.Valid() && b.Valid()
    ensures a.Then(b).Valid() && a.Then(b).Frames() == a.Frames() + b.Frames()
  {
    match a {
      case Nothing => assert [] + b.Frames() == b.Frames();
      case Plain(_, more) => ThenIs(more, b);
      case Within(_, _, _, more) => ThenIs(more, b);
    }
  }

  lemma BothNested(a: seq<Frame>, b: seq<Frame>)
    requires IsNested(a) && IsNested(b)
    ensures IsNested(a + b)
  {
    var s: Nested, t: Nested :| s.Valid() && s.Frames() == a && t.Valid() && t.Frames() == b;
    ThenIs(s, t);
  }

  lemma OneNested(frame: Frame)
    requires EndDataStructure !in frame.flags && BeginDataStructure !in frame.flags
    ensures IsNested([frame])
  {
    var t := Plain(frame, Nothing);
    assert t.Frames() == [frame] + [] == [frame];
    IsOne(t);
  }

  lemma NoneNested()
    ensures IsNested([])
  {
    assert Nothing.Valid() && Nothing.Frames() == [];
  }

  /** A structure is nested when its parts are. */
  lemma StructureNested(fs: seq<Frame>)
    requires IsNested(fs)
    ensures IsNested([BEGIN_FRAME] + fs + [END_FRAME])
  {
    var t: Nested :| t.Valid() && t.Frames() == fs;
    WithinIs(t);
    IsOne(Within(BEGIN_FRAME, t, END_FRAME, Nothing));
  }

  lemma WithinIs(t: Nested)
    requires t.Valid()
    ensures var whole := Within(BEGIN_FRAME, t, END_FRAME, Nothing);
            whole.Valid() && whole.Frames() == [BEGIN_FRAME] + t.Frames() + [END_FRAME]
  {
    assert Nothing.Frames() == [];
  }

  lemma NullableNested(value: Text)
    ensures IsNested([StringFrame(value)]) && IsNested([NullableStringFrame(value)])
  {
    hide Blank;
    OneNested(StringFrame(value));
    OneNested(NullableStringFrame(value));
  }

  lemma {:induction false} StringsNested(values: seq<Text>)
    ensures IsNested(StringFrames(values))
  {
    hide IsNested;
    if values == [] {
      NoneNested();
    } else {
      var n := |values| - 1;
      StringsNested(values[..n]);
      NullableNested(values[n]);
      BothNested(StringFrames(values[..n]), [StringFrame(values[n])]);
      assert StringFrames(values) == StringFrames(values[..n]) + [StringFrame(values[n])];
    }
  }

  lemma {:induction false} ConcatNested(parts: seq<seq<Frame>>)
    requires forall i :: 0 <= i < |parts| ==> IsNested(parts[i])
    ensures IsNested(Concat(parts))
  {
    hide IsNested;
    if parts == [] {
      NoneNested();
    } else {
      ConcatNested(parts[1..]);
      BothNested(parts[0], Concat(parts[1..]));
    }
  }

  /** Lists and maps of strings, and lists of nested parts. */
  lemma ListsNested(values: seq<Text>, keys: seq<Text>, m: map<Text, Text>, parts: seq<seq<Frame>>)
    requires (forall k :: k in keys ==> k in m) && forall i :: 0 <= i < |parts| ==> IsNested(parts[i])
    ensures IsNested([BEGIN_FRAME] + StringFrames(values) + [END_FRAME])
    ensures IsNested(MapFrames(keys, m))
    ensures IsNested([BEGIN_FRAME] + Concat(parts) + [END_FRAME])
  {
    hide IsNested;
    StringsNested(values);
    StructureNested(StringFrames(values));
    StringsNested(PairList(keys, m));
    StructureNested(StringFrames(PairList(keys, m)));
    ConcatNested(parts);
    StructureNested(Concat(parts));
  }

  lemma SqlSummaryNested(s: SqlSummary)
    ensures IsNested(SqlSummaryFrames(s))
  {
    hide IsNested;
    OneNested(NewFrame(BooleanBytes(s.unbounded)));
    NullableNested(s.query);
    BothNested([NewFrame(BooleanBytes(s.unbounded))], [StringFrame(s.query)]);
    StructureNested([NewFrame(BooleanBytes(s.unbounded))] + [StringFrame(s.query)]);
    assert SqlSummaryFrames(s)
        == [BEGIN_FRAME] + ([NewFrame(BooleanBytes(s.unbounded))] + [StringFrame(s.query)]) + [END_FRAME];
  }

  /** A job is one nested structure, so a newer peer may put whole jobs where this reader skips. */
  lemma JobNested(j: JobAndSqlSummary)
    ensures IsNested(JobFrames(j)) && WellNested(JobFrames(j))
  {
    hide IsNested, WellNested, FixedBytes, SqlSummaryFrames, NullableStringFrame;
    var initial := NewFrame(FixedBytes(j) + BooleanBytes(j.userCancelled));
    OneNested(initial);
    NullableNested(j.nameOrId);
    NullableNested(j.failureText);
    NullableNested(j.suspensionCause);
    SqlSummaryNested(j.sqlSummary);
    var a := [initial] + [StringFrame(j.nameOrId)];
    var b := a + [NullableStringFrame(j.failureText)];
    var c := b + SqlSummaryFrames(j.sqlSummary);
    var d := c + [NullableStringFrame(j.suspensionCause)];
    BothNested([initial], [StringFrame(j.nameOrId)]);
    BothNested(a, [NullableStringFrame(j.failureText)]);
    BothNested(b, SqlSummaryFrames(j.sqlSummary));
    BothNested(c, [NullableStringFrame(j.suspensionCause)]);
    StructureNested(d);
    assert JobFrames(j) == [BEGIN_FRAME] + d + [END_FRAME];
    NestedExactly(JobFrames(j));
  }

  /** Jobs of a newer peer, with any nested frames added, are passed over as a whole. */
  lemma SkipsWhatEncodersWrite(j: JobAndSqlSummary, t: Nested, rest: seq<Frame>)
    requires t.Valid()
    ensures FastForward(JobFrames(j) + t.Frames() + [END_FRAME] + rest, 1) == Parsed((), rest)
  {
    hide IsNested, FastForward;
    JobNested(j);
    IsOne(t);
    BothNested(JobFrames(j), t.Frames());
    NestedExactly(JobFrames(j) + t.Frames());
    SkipsUnknownFrames(JobFrames(j) + t.Frames(), rest);
  }

  lemma IsOne(t: Nested)
    requires t.Valid()
    ensures IsNested(t.Frames())
  {
  }
}
