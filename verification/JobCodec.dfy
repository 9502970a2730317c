/**
 The job summary codecs: internal/proto/codec/job_and_sql_summary_codec.go,
 sql_summary_codec.go and the list decoder of builtin.go. Encoding fills a frame buffer in
 place at chained offsets; decoding tolerates peers that send less or more than it knows.
 */
module JobCodec {
  import opened Bytes
  import opened Codec
  import opened Frames
  import opened Sequences
  import opened Wrappers

  const LIGHT_JOB_OFFSET := 0
  const JOB_ID_OFFSET := LIGHT_JOB_OFFSET + 1
  const EXECUTION_ID_OFFSET := JOB_ID_OFFSET + 8
  const STATUS_OFFSET := EXECUTION_ID_OFFSET + 8
  const SUBMISSION_TIME_OFFSET := STATUS_OFFSET + 4
  const COMPLETION_TIME_OFFSET := SUBMISSION_TIME_OFFSET + 8
  const USER_CANCELLED_OFFSET := COMPLETION_TIME_OFFSET + 8
  const INITIAL_FRAME_SIZE := USER_CANCELLED_OFFSET + 1

  datatype SqlSummary = SqlSummary(query: Text, unbounded: bool)

  datatype JobAndSqlSummary = JobAndSqlSummary(
    lightJob: bool,
    jobId: int64,
    executionId: int64,
    nameOrId: Text,
    status: int32,
    submissionTime: int64,
    completionTime: int64,
    failureText: Text,
    sqlSummary: SqlSummary,
    suspensionCause: Text,
    userCancelled: bool)

  // ---------- encoding ----------

  function SqlSummaryFrames(s: SqlSummary): seq<Frame> {
    [BEGIN_FRAME, NewFrame(BooleanBytes(s.unbounded)), StringFrame(s.query), END_FRAME]
  }

  method EncodeSqlSummary(message: ClientMessage, s: SqlSummary)
    modifies message
    ensures message.frames == old(message.frames) + SqlSummaryFrames(s)
  {
    message.AddFrame(BEGIN_FRAME);
    var content := new byte[1](_ => 0);
    EncodeBoolean(content, 0, s.unbounded);
    assert content[..] == BooleanBytes(s.unbounded);
    message.AddFrame(NewFrame(content[..]));
    EncodeString(message, s.query);
    message.AddFrame(END_FRAME);
  }

  /** The fields every peer sends, in order. */
  function FixedBytes(j: JobAndSqlSummary): (s: seq<byte>)
    ensures |s| == USER_CANCELLED_OFFSET
  {
    BooleanBytes(j.lightJob) + LongBytes(j.jobId) + LongBytes(j.executionId) + IntBytes(j.status)
    + LongBytes(j.submissionTime) + LongBytes(j.completionTime)
  }

  function JobFrames(j: JobAndSqlSummary): seq<Frame> {
    [BEGIN_FRAME, NewFrame(FixedBytes(j) + BooleanBytes(j.userCancelled)),
     StringFrame(j.nameOrId), NullableStringFrame(j.failureText)]
    + SqlSummaryFrames(j.sqlSummary)
    + [NullableStringFrame(j.suspensionCause), END_FRAME]
  }

  lemma Filled(buffer: seq<byte>, before: seq<byte>, s: seq<byte>)
    requires |before| + |s| <= |buffer| && buffer[..|before|] == before
    ensures Overwrite(buffer, |before|, s)[..|before| + |s|] == before + s
  {
  }

  method EncodeInitialFrame(j: JobAndSqlSummary) returns (content: array<byte>)
    ensures fresh(content) && content[..] == FixedBytes(j) + BooleanBytes(j.userCancelled)
  {
    content := new byte[INITIAL_FRAME_SIZE](_ => 0);
    ghost var b := content[..];
    EncodeBoolean(content, LIGHT_JOB_OFFSET, j.lightJob);
    ghost var done := BooleanBytes(j.lightJob);
    Filled(b, [], done);
    b := content[..];
    EncodeLong(content, JOB_ID_OFFSET, j.jobId);
    Filled(b, done, LongBytes(j.jobId));
    b, done := content[..], done + LongBytes(j.jobId);
    EncodeLong(content, EXECUTION_ID_OFFSET, j.executionId);
    Filled(b, done, LongBytes(j.executionId));
    b, done := content[..], done + LongBytes(j.executionId);
    EncodeInt(content, STATUS_OFFSET, j.status);
    Filled(b, done, IntBytes(j.status));
    b, done := content[..], done + IntBytes(j.status);
    EncodeLong(content, SUBMISSION_TIME_OFFSET, j.submissionTime);
    Filled(b, done, LongBytes(j.submissionTime));
    b, done := content[..], done + LongBytes(j.submissionTime);
    EncodeLong(content, COMPLETION_TIME_OFFSET, j.completionTime);
    Filled(b, done, LongBytes(j.completionTime));
    b, done := content[..], done + LongBytes(j.completionTime);
    EncodeBoolean(content, USER_CANCELLED_OFFSET, j.userCancelled);
    Filled(b, done, BooleanBytes(j.userCancelled));
    assert content[..][..INITIAL_FRAME_SIZE] == content[..];
  }

  method EncodeJobAndSqlSummary(message: ClientMessage, j: JobAndSqlSummary)
    modifies message
    ensures message.frames == old(message.frames) + JobFrames(j)
  {
    message.AddFrame(BEGIN_FRAME);
    var content := EncodeInitialFrame(j);
    message.AddFrame(NewFrame(content[..]));
    EncodeString(message, j.nameOrId);
    EncodeNullableForString(message, j.failureText);
    EncodeSqlSummary(message, j.sqlSummary);
    EncodeNullableForString(message, j.suspensionCause);
    message.AddFrame(END_FRAME);
  }

  // ---------- decoding ----------

  /** The initial frame, with the user-cancelled flag false when the frame is too short for it. */
  datatype Header = Header(
    lightJob: bool, jobId: int64, executionId: int64, status: int32,
    submissionTime: int64, completionTime: int64, userCancelled: bool)

  function HeaderOf(content: seq<byte>): Option<Header> {
    var lightJob :- DecodeBoolean(content, LIGHT_JOB_OFFSET);
    var jobId :- DecodeLong(content, JOB_ID_OFFSET);
    var executionId :- DecodeLong(content, EXECUTION_ID_OFFSET);
    var status :- DecodeInt(content, STATUS_OFFSET);
    var submissionTime :- DecodeLong(content, SUBMISSION_TIME_OFFSET);
    var completionTime :- DecodeLong(content, COMPLETION_TIME_OFFSET);
    var userCancelled := |content| >= INITIAL_FRAME_SIZE && DecodeBoolean(content, USER_CANCELLED_OFFSET).value;
    Some(Header(lightJob, jobId, executionId, status, submissionTime, completionTime, userCancelled))
  }

  function SqlSummaryIn(fs: seq<Frame>): (p: Parse<SqlSummary>)
    ensures p.Parsed? ==> |p.rest| < |fs|
  {
    var (_, fs1) :- NextFrame(fs);
    var (initial, fs2) :- NextFrame(fs1);
    var unbounded := DecodeBoolean(initial.content, 0);
    if unbounded.None? then Panic else
    var (query, fs3) :- StringIn(fs2);
    var (_, fs4) :- FastForward(fs3, 1);
    Parsed(SqlSummary(query, unbounded.value), fs4)
  }

  function NullableSqlSummaryIn(fs: seq<Frame>): (p: Parse<Option<SqlSummary>>)
    ensures p.Parsed? ==> |p.rest| < |fs|
  {
    var (isNull, fs1) :- NullFrameIn(fs);
    if isNull then Parsed(None, fs1)
    else
      var (s, fs2) :- SqlSummaryIn(fs1);
      Parsed(Some(s), fs2)
  }

  function SuspensionCauseIn(fs: seq<Frame>): Parse<Text> {
    var (frame, _) :- PeekFrame(fs);
    if frame.IsEndFrame() then Parsed([], fs) else NullableStringIn(fs)
  }

  /** The part of a summary that every version sends first. */
  datatype Start = Start(header: Header, nameOrId: Text, failureText: Text)

  function StartIn(fs: seq<Frame>): (p: Parse<Start>)
    ensures p.Parsed? ==> |p.rest| < |fs|
  {
    var (_, fs1) :- NextFrame(fs);
    var (initial, fs2) :- NextFrame(fs1);
    var header := HeaderOf(initial.content);
    if header.None? then Panic else
    var (nameOrId, fs3) :- StringIn(fs2);
    var (failureText, fs4) :- NullableStringIn(fs3);
    Parsed(Start(header.value, nameOrId, failureText), fs4)
  }

  function JobIn(fs: seq<Frame>): (p: Parse<JobAndSqlSummary>)
    ensures p.Parsed? ==> |p.rest| < |fs|
  {
    var (start, fs4) :- StartIn(fs);
    var (sqlSummary, fs5) :- NullableSqlSummaryIn(fs4);
    var (suspensionCause, fs6) :- SuspensionCauseIn(fs5);
    var (_, fs7) :- FastForward(fs6, 1);
    var h := start.header;
    Parsed(JobAndSqlSummary(h.lightJob, h.jobId, h.executionId, start.nameOrId, h.status, h.submissionTime,
                            h.completionTime, start.failureText, sqlSummary.GetOr(SqlSummary([], false)),
                            suspensionCause, h.userCancelled), fs7)
  }

  method DecodeSqlSummary(it: ForwardFrameIterator) returns (r: Option<SqlSummary>)
    requires it.Valid()
    modifies it
    ensures it.Valid() && it.Follows(r, SqlSummaryIn(old(it.Rest())))
  {
    var _ :- it.Next();
    var initialFrame :- it.Next();
    var unbounded :- DecodeBoolean(initialFrame.content, 0);
    var query :- DecodeString(it);
    var _ :- FastForwardToEndFrame(it);
    r := Some(SqlSummary(query, unbounded));
  }

  method DecodeNullableForSqlSummary(it: ForwardFrameIterator) returns (r: Option<Option<SqlSummary>>)
    requires it.Valid()
    modifies it
    ensures it.Valid() && it.Follows(r, NullableSqlSummaryIn(old(it.Rest())))
  {
    var isNull :- NextFrameIsNullFrame(it);
    if isNull {
      return Some(None);
    }
    var ss :- DecodeSqlSummary(it);
    r := Some(Some(ss));
  }

  lemma AlwaysRead(fs: seq<Frame>)
    requires fs != []
    ensures NullableStringIn(fs).Parsed?
  {
  }

  method DecodeJobAndSqlSummary(it: ForwardFrameIterator) returns (r: Option<JobAndSqlSummary>)
    requires it.Valid()
    modifies it
    ensures it.Valid() && it.Follows(r, JobIn(old(it.Rest())))
  {
    hide DecodeLong, DecodeInt, FastForward, SqlSummaryIn, NullableSqlSummaryIn, StringIn, NullableStringIn;
    var _ :- it.Next();
    var initialFrame :- it.Next();
    var content := initialFrame.content;
    var lightJob :- DecodeBoolean(content, LIGHT_JOB_OFFSET);
    var jobId :- DecodeLong(content, JOB_ID_OFFSET);
    var executionId :- DecodeLong(content, EXECUTION_ID_OFFSET);
    var status :- DecodeInt(content, STATUS_OFFSET);
    var submissionTime :- DecodeLong(content, SUBMISSION_TIME_OFFSET);
    var completionTime :- DecodeLong(content, COMPLETION_TIME_OFFSET);
    var userCancelled := false;
    if |content| >= USER_CANCELLED_OFFSET + 1 {
      userCancelled := DecodeBoolean(content, USER_CANCELLED_OFFSET).value;
    }
    var nameOrId :- DecodeString(it);
    var failureText :- DecodeNullableForString(it);
    var sqlSummary :- DecodeNullableForSqlSummary(it);
    var suspensionCause: Text := [];
    var frame :- it.PeekNext();
    if !frame.IsEndFrame() {
      AlwaysRead(it.Rest());
      var cause := DecodeNullableForString(it);
      suspensionCause := cause.value;
    }
    var _ :- FastForwardToEndFrame(it);
    r := Some(JobAndSqlSummary(lightJob, jobId, executionId, nameOrId, status, submissionTime, completionTime,
                               failureText, sqlSummary.GetOr(SqlSummary([], false)), suspensionCause, userCancelled));
  }

  method DecodeListMultiFrameForJobAndSqlSummary(it: ForwardFrameIterator) returns (r: Option<seq<JobAndSqlSummary>>)
    requires it.Valid()
    modifies it
    ensures it.Valid() && it.Follows(r, ListIn(JobIn, old(it.Rest())))
  {
    hide JobIn;
    var result := [];
    var _ :- it.Next();
    ghost var start := it.Rest();
    assert ListProgress(JobIn, start, [], start);
    while true
      invariant it.Valid() && ListProgress(JobIn, start, result, it.Rest())
      decreases |it.Rest()|
    {
      var frame :- it.PeekNext();
      if frame.IsEndFrame() {
        break;
      }
      ListStep(JobIn, start, result, it.Rest());
      var job :- DecodeJobAndSqlSummary(it);
      result := result + [job];
    }
    assert result + [] == result;
    var _ := it.Next();
    r := Some(result);
  }

  // ---------- what peers of other versions send ----------

  /**
   A summary as some peer sends it. An older peer leaves out the user-cancelled byte or the
   suspension cause; a newer one adds bytes after the fixed fields and well-nested frames
   before the end frames; any peer may send a null frame for the SQL summary.
   */
  datatype Wire = Wire(
    job: JobAndSqlSummary,
    userCancelledSent: bool,
    newerBytes: seq<byte>,
    sqlSent: bool,
    newerSqlBytes: seq<byte>,
    newerSqlFrames: seq<Frame>,
    suspensionSent: bool,
    newerFrames: seq<Frame>)
  {
    ghost predicate Valid() {
      && (!userCancelledSent ==> newerBytes == [])
      && (!suspensionSent ==> newerFrames == [])
      && WellNested(newerSqlFrames)
      && WellNested(newerFrames)
    }

    function InitialBytes(): seq<byte> {
      FixedBytes(job) + if userCancelledSent then BooleanBytes(job.userCancelled) + newerBytes else []
    }

    function SqlFrames(): seq<Frame> {
      if sqlSent then
        [BEGIN_FRAME,
         NewFrame(BooleanBytes(job.sqlSummary.unbounded) + newerSqlBytes),
         StringFrame(job.sqlSummary.query)]
        + newerSqlFrames + [END_FRAME]
      else [NULL_FRAME]
    }

    function TailFrames(): seq<Frame> {
      (if suspensionSent then [NullableStringFrame(job.suspensionCause)] else []) + newerFrames + [END_FRAME]
    }

    function StartFrames(): seq<Frame> {
      [BEGIN_FRAME, NewFrame(InitialBytes()), StringFrame(job.nameOrId), NullableStringFrame(job.failureText)]
    }

    function AllFrames(): seq<Frame> {
      StartFrames() + SqlFrames() + TailFrames()
    }

    /** What a reader should make of it: every field that was sent, and Go's zero value for the others. */
    function View(): JobAndSqlSummary {
      job.(failureText := Normalized(job.failureText),
           sqlSummary := if sqlSent then job.sqlSummary else SqlSummary([], false),
           suspensionCause := if suspensionSent then Normalized(job.suspensionCause) else [],
           userCancelled := userCancelledSent && job.userCancelled)
    }
  }

  /** Every field stands at its offset, whatever follows the last one. */
  lemma FixedSlices(j: JobAndSqlSummary, more: seq<byte>)
    ensures var b := FixedBytes(j) + more;
            && DecodeBoolean(b, LIGHT_JOB_OFFSET) == Some(j.lightJob)
            && b[JOB_ID_OFFSET..JOB_ID_OFFSET + 8] == LongBytes(j.jobId)
            && b[EXECUTION_ID_OFFSET..EXECUTION_ID_OFFSET + 8] == LongBytes(j.executionId)
            && b[STATUS_OFFSET..STATUS_OFFSET + 4] == IntBytes(j.status)
            && b[SUBMISSION_TIME_OFFSET..SUBMISSION_TIME_OFFSET + 8] == LongBytes(j.submissionTime)
            && b[COMPLETION_TIME_OFFSET..COMPLETION_TIME_OFFSET + 8] == LongBytes(j.completionTime)
            && b[..USER_CANCELLED_OFFSET] == FixedBytes(j) && b[USER_CANCELLED_OFFSET..] == more
  {
    hide LongBytes, IntBytes;
  }

  lemma HeaderRoundTrip(w: Wire)
    requires w.Valid()
    ensures HeaderOf(w.InitialBytes())
         == Some(Header(w.job.lightJob, w.job.jobId, w.job.executionId, w.job.status, w.job.submissionTime,
                        w.job.completionTime, w.userCancelledSent && w.job.userCancelled))
  {
    hide FixedBytes, LongBytes, IntBytes, DecodeLong, DecodeInt;
    var b := w.InitialBytes();
    FixedSlices(w.job, if w.userCancelledSent then BooleanBytes(w.job.userCancelled) + w.newerBytes else []);
    assert w.userCancelledSent ==> b == FixedBytes(w.job) + (BooleanBytes(w.job.userCancelled) + w.newerBytes);
    LongRoundTrip(b, JOB_ID_OFFSET, w.job.jobId);
    LongRoundTrip(b, EXECUTION_ID_OFFSET, w.job.executionId);
    IntRoundTrip(b, STATUS_OFFSET, w.job.status);
    LongRoundTrip(b, SUBMISSION_TIME_OFFSET, w.job.submissionTime);
    LongRoundTrip(b, COMPLETION_TIME_OFFSET, w.job.completionTime);
  }

  lemma StartReadBack(w: Wire, rest: seq<Frame>)
    requires w.Valid()
    ensures var p := StartIn(w.StartFrames() + rest);
            && p.Parsed? && p.rest == rest
            && Some(p.value.header) == HeaderOf(w.InitialBytes())
            && p.value.nameOrId == w.job.nameOrId && p.value.failureText == Normalized(w.job.failureText)
  {
    var fs := w.StartFrames() + rest;
    assert fs[1..][1..][1..] == [NullableStringFrame(w.job.failureText)] + rest;
    HeaderRoundTrip(w);
    NullableStringRoundTrip(w.job.failureText, rest);
  }

  lemma SqlSummaryReadBack(w: Wire, rest: seq<Frame>)
    requires w.Valid()
    ensures NullableSqlSummaryIn(w.SqlFrames() + rest)
         == Parsed(if w.sqlSent then Some(w.job.sqlSummary) else None, rest)
  {
    hide SqlSummaryIn, FastForward;
    var fs := w.SqlFrames() + rest;
    if w.sqlSent {
      var sql := w.job.sqlSummary;
      assert fs == [BEGIN_FRAME, NewFrame(BooleanBytes(sql.unbounded) + w.newerSqlBytes), StringFrame(sql.query)]
                   + (w.newerSqlFrames + [END_FRAME] + rest);
      SummaryAhead(sql, w.newerSqlBytes, w.newerSqlFrames, rest);
    } else {
      assert fs[1..] == rest;
    }
  }

  lemma SummaryAhead(sql: SqlSummary, newerBytes: seq<byte>, newerFrames: seq<Frame>, rest: seq<Frame>)
    requires WellNested(newerFrames)
    ensures SqlSummaryIn([BEGIN_FRAME, NewFrame(BooleanBytes(sql.unbounded) + newerBytes), StringFrame(sql.query)]
                         + (newerFrames + [END_FRAME] + rest)) == Parsed(sql, rest)
  {
    hide FastForward, WellNested;
    var initial, after := NewFrame(BooleanBytes(sql.unbounded) + newerBytes), newerFrames + [END_FRAME] + rest;
    var fs := [BEGIN_FRAME, initial, StringFrame(sql.query)] + after;
    SkipsUnknownFrames(newerFrames, rest);
    assert fs[1..] == [initial, StringFrame(sql.query)] + after && fs[1..][1..] == [StringFrame(sql.query)] + after;
    assert fs[1..][1..][1..] == after;
    assert DecodeBoolean(initial.content, 0) == Some(sql.unbounded);
  }

  lemma TailReadBack(w: Wire, rest: seq<Frame>)
    requires w.Valid()
    ensures SuspensionCauseIn(w.TailFrames() + rest).Parsed?
    ensures var p := SuspensionCauseIn(w.TailFrames() + rest);
            p.value == w.View().suspensionCause && FastForward(p.rest, 1) == Parsed((), rest)
  {
    var fs := w.TailFrames() + rest;
    if w.suspensionSent {
      var after := w.newerFrames + [END_FRAME] + rest;
      assert fs == [NullableStringFrame(w.job.suspensionCause)] + after;
      NullableStringRoundTrip(w.job.suspensionCause, after);
    } else {
      assert fs == w.newerFrames + [END_FRAME] + rest;
    }
    SkipsUnknownFrames(w.newerFrames, rest);
  }

  /**
   One summary from a peer of any of these versions: the known fields are unchanged, and the
   reader stops exactly after its end frame, so whatever follows is still in place.
   */
  lemma DecodesAnyVersion(w: Wire, rest: seq<Frame>)
    requires w.Valid()
    ensures JobIn(w.AllFrames() + rest) == Parsed(w.View(), rest)
  {
    hide StartIn, NullableSqlSummaryIn, SuspensionCauseIn, HeaderOf, FastForward;
    hide Wire.StartFrames, Wire.SqlFrames, Wire.TailFrames, Wire.InitialBytes, Wire.Valid;
    var tail := w.TailFrames() + rest;
    var sql := w.SqlFrames() + tail;
    assert w.AllFrames() + rest == w.StartFrames() + sql;
    StartReadBack(w, sql);
    HeaderRoundTrip(w);
    SqlSummaryReadBack(w, tail);
    TailReadBack(w, rest);
  }

  /**
   A list may mix summaries of all of these versions: every element still decodes, and the
   reader stops just past the end frame of the list.
   */
  lemma ListDecodesAnyVersions(ws: seq<Wire>, parts: seq<seq<Frame>>, rest: seq<Frame>)
    requires |parts| == |ws| && forall i :: 0 <= i < |ws| ==> ws[i].Valid() && parts[i] == ws[i].AllFrames()
    ensures ListIn(JobIn, [BEGIN_FRAME] + Concat(parts) + [END_FRAME] + rest)
         == Parsed(seq(|ws|, i requires 0 <= i < |ws| => ws[i].View()), rest)
  {
    hide JobIn, Wire.Valid, Wire.View;
    var views := seq(|ws|, i requires 0 <= i < |ws| => ws[i].View());
    forall i | 0 <= i < |ws| ensures ReadsAs(JobIn, parts[i], views[i]) {
      forall after: seq<Frame> ensures JobIn(parts[i] + after) == Parsed(views[i], after) {
        DecodesAnyVersion(ws[i], after);
      }
      assert parts[i][0] == BEGIN_FRAME;
    }
    ListReadBack(JobIn, parts, views, rest);
  }

  // ---------- round trip ----------

  function NormalizedJob(j: JobAndSqlSummary): JobAndSqlSummary {
    j.(failureText := Normalized(j.failureText), suspensionCause := Normalized(j.suspensionCause))
  }

  function WireOf(j: JobAndSqlSummary): Wire {
    Wire(j, true, [], true, [], [], true, [])
  }

  lemma WireOfJob(j: JobAndSqlSummary)
    ensures WireOf(j).Valid() && WireOf(j).AllFrames() == JobFrames(j) && WireOf(j).View() == NormalizedJob(j)
  {
    var w := WireOf(j);
    assert WellNested([]);
    assert w.InitialBytes() == FixedBytes(j) + BooleanBytes(j.userCancelled);
    assert BooleanBytes(j.sqlSummary.unbounded) + [] == BooleanBytes(j.sqlSummary.unbounded);
    assert w.SqlFrames() == SqlSummaryFrames(j.sqlSummary);
  }

  /** Encoding any list of summaries and decoding it gives the list back, blank nullable strings as "". */
  lemma RoundTrip(js: seq<JobAndSqlSummary>, parts: seq<seq<Frame>>, rest: seq<Frame>)
    requires |parts| == |js| && forall i :: 0 <= i < |js| ==> parts[i] == JobFrames(js[i])
    ensures ListIn(JobIn, [BEGIN_FRAME] + Concat(parts) + [END_FRAME] + rest)
         == Parsed(seq(|js|, i requires 0 <= i < |js| => NormalizedJob(js[i])), rest)
  {
    hide JobIn, JobFrames, Wire.Valid, Wire.AllFrames, Wire.View;
    var ws := seq(|js|, i requires 0 <= i < |js| => WireOf(js[i]));
    forall i | 0 <= i < |js|
      ensures ws[i].Valid() && parts[i] == ws[i].AllFrames() && ws[i].View() == NormalizedJob(js[i])
    {
      WireOfJob(js[i]);
    }
    ListDecodesAnyVersions(ws, parts, rest);
    assert seq(|ws|, i requires 0 <= i < |ws| => ws[i].View())
        == seq(|js|, i requires 0 <= i < |js| => NormalizedJob(js[i]));
  }

  /** One summary survives unchanged exactly when neither nullable string is blank but non-empty. */
  lemma LosslessExactly(j: JobAndSqlSummary, rest: seq<Frame>)
    ensures JobIn(JobFrames(j) + rest) == Parsed(j, rest)
       <==> (j.failureText == [] || !Blank(j.failureText)) && (j.suspensionCause == [] || !Blank(j.suspensionCause))
  {
    WireOfJob(j);
    DecodesAnyVersion(WireOf(j), rest);
    NullableStringRoundTrip(j.failureText, rest);
    NullableStringRoundTrip(j.suspensionCause, rest);
  }
}
