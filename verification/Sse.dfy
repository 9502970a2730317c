/**
 Server-sent events: internal/sse/event.go and the loop of internal/sse/client.go. A stream
 that arrives in arbitrary chunks is cut at blank lines, and the data lines of each piece make
 up the payload of an event.

 A stream is a sequence of bytes.
 */
module Sse {
  import opened Sequences
  import opened Text
  import opened Wrappers

  const HEADER_DATA := "data"

  // ---------- one event ----------

  /** bytes.Replace of "\n\r" by "\n". */
  function Normalized(s: string): string {
    if s == "" then ""
    else if |s| >= 2 && s[0] == '\n' && s[1] == '\r' then "\n" + Normalized(s[2..])
    else [s[0]] + Normalized(s[1..])
  }

  function HeaderName(line: string): string {
    var i := IndexOf(line, ':');
    if i < 0 then line else line[..i]
  }

  function DataValue(line: string): string {
    var i := IndexOf(line, ':');
    if i < 0 || |line| == i + 1 then ""
    else if line[i + 1] == ' ' then line[i + 2..] else line[i + 1..]
  }

  /** bytes.TrimRight of line breaks. */
  function WithoutLastBreaks(s: string): string {
    if s != "" && s[|s| - 1] == '\n' then WithoutLastBreaks(s[..|s| - 1]) else s
  }

  /** The values of the data lines, each followed by a line break. */
  function DataOf(lines: seq<string>): string {
    if lines == [] then ""
    else
      var n := |lines| - 1;
      DataOf(lines[..n]) + if HeaderName(lines[n]) == HEADER_DATA then DataValue(lines[n]) + "\n" else ""
  }

  lemma DataOfNext(lines: seq<string>, i: nat)
    requires i < |lines|
    ensures DataOf(lines[..i + 1])
         == DataOf(lines[..i]) + if HeaderName(lines[i]) == HEADER_DATA then DataValue(lines[i]) + "\n" else ""
  {
    assert lines[..i + 1][..i] == lines[..i];
  }

  class Event {
    var data: string

    constructor ()
      ensures data == ""
    {
      data := "";
    }

    method Unmarshal(msg: string)
      modifies this
      ensures data == WithoutLastBreaks(DataOf(Split(Normalized(msg), '\n')))
    {
      hide Split, IndexOf, HeaderName, DataValue, Normalized, WithoutLastBreaks;
      var buffer := "";
      var lines := Split(Normalized(msg), '\n');
      for i := 0 to |lines|
        invariant buffer == DataOf(lines[..i])
      {
        DataOfNext(lines, i);
        if HeaderName(lines[i]) == HEADER_DATA {
          ghost var before := buffer;
          buffer := buffer + DataValue(lines[i]);
          buffer := buffer + "\n";
          assert buffer == before + (DataValue(lines[i]) + "\n");
        }
      }
      assert lines[..|lines|] == lines;
      data := WithoutLastBreaks(buffer);
    }
  }

  // ---------- cutting the stream ----------

  /** Where "\n\n" first occurs, or -1. */
  function IndexOfBlank(s: string): (i: int)
    ensures i == -1 || (0 <= i <= |s| - 2 && s[i] == '\n' && s[i + 1] == '\n')
  {
    if |s| < 2 then -1
    else if s[0] == '\n' && s[1] == '\n' then 0
    else
      var j := IndexOfBlank(s[1..]);
      if j < 0 then -1 else j + 1
  }

  /** The pieces of a whole stream. The last one need not be followed by a blank line. */
  function Pieces(s: string): seq<string>
    decreases |s|
  {
    var i := IndexOfBlank(s);
    if i >= 0 then [s[..i]] + Pieces(s[i + 2..])
    else if s == "" then [] else [s]
  }

  /** More bytes do not move the first blank line. */
  lemma {:induction false} IndexOfBlankStays(a: string, b: string)
    requires IndexOfBlank(a) >= 0
    ensures IndexOfBlank(a + b) == IndexOfBlank(a)
  {
    assert (a + b)[0] == a[0] && (a + b)[1] == a[1];
    if !(a[0] == '\n' && a[1] == '\n') {
      assert (a + b)[1..] == a[1..] + b;
      IndexOfBlankStays(a[1..], b);
    }
  }

  lemma FirstPiece(buffer: string, more: string)
    requires IndexOfBlank(buffer) >= 0
    ensures var i := IndexOfBlank(buffer);
            Pieces(buffer + more) == [buffer[..i]] + Pieces(buffer[i + 2..] + more)
  {
    var i := IndexOfBlank(buffer);
    IndexOfBlankStays(buffer, more);
    assert (buffer + more)[..i] == buffer[..i] && (buffer + more)[i + 2..] == buffer[i + 2..] + more;
  }

  lemma LastPiece(buffer: string)
    requires IndexOfBlank(buffer) < 0
    ensures Pieces(buffer + "") == (if buffer == "" then [] else [buffer]) && Pieces("" + "") == []
  {
    assert buffer + "" == buffer && "" + "" == "";
  }

  lemma ConcatNext(buffer: string, chunks: seq<string>)
    requires chunks != []
    ensures buffer + Concat(chunks) == buffer + chunks[0] + Concat(chunks[1..])
  {
    assert chunks == [chunks[0]] + chunks[1..];
    ConcatCons(chunks[0], chunks[1..]);
  }

  /** An event, an event without data, the end of the stream, or the error of a failed read. */
  datatype Reading = Payload(data: string) | Nothing | Eof | Failed

  function ReadingOf(piece: string): Reading {
    var data := WithoutLastBreaks(DataOf(Split(Normalized(piece), '\n')));
    if data == "" then Nothing else Payload(data)
  }

  class EventScanner {
    var buffer: string
    var chunks: seq<string>
    /** Behind the chunks reading fails; otherwise the stream ends. */
    const broken: bool

    constructor (chunks: seq<string>, broken: bool)
      ensures Rest() == Concat(chunks) && this.broken == broken
    {
      this.chunks := chunks;
      this.broken := broken;
      buffer := "";
    }

    /** What has not been given out yet. */
    ghost function Rest(): string
      reads this
    {
      buffer + Concat(chunks)
    }

    /** The split function on the data at hand. */
    static function Cut(data: string, isEof: bool): (r: (nat, Option<string>))
      ensures r.0 <= |data|
    {
      if data == "" && isEof then (0, None)
      else
        var i := IndexOfBlank(data);
        if i >= 0 then (i + 2, Some(data[..i]))
        else if isEof then (|data|, Some(data)) else (0, None)
    }

    /**
     The scanner of the library: it asks for more data as long as there is no piece. To the split
     function a failed read is the end of the stream.
     */
    method Scan() returns (piece: Option<string>)
      modifies this
      ensures if Pieces(old(Rest())) == [] then piece == None && Rest() == ""
              else piece == Some(Pieces(old(Rest()))[0]) && Pieces(Rest()) == Pieces(old(Rest()))[1..]
    {
      hide Pieces, IndexOfBlank, Concat;
      while true
        invariant Rest() == old(Rest())
        decreases |chunks|
      {
        if buffer != "" || chunks == [] {
          ghost var more := Concat(chunks);
          if chunks == [] { ConcatNone<char>(); }
          var (advance, token) := Cut(buffer, chunks == []);
          if token.Some? {
            if IndexOfBlank(buffer) >= 0 {
              FirstPiece(buffer, more);
            } else {
              LastPiece(buffer);
              assert buffer[advance..] == "" && [buffer][1..] == [];
            }
            buffer := buffer[advance..];
            return token;
          }
          if chunks == [] {
            LastPiece(buffer);
            return None;
          }
        }
        ConcatNext(buffer, chunks);
        buffer := buffer + chunks[0];
        chunks := chunks[1..];
      }
    }

    method ReadEvent() returns (r: Reading)
      modifies this
      ensures if Pieces(old(Rest())) == [] then r == (if broken then Failed else Eof) && Rest() == ""
              else r == ReadingOf(Pieces(old(Rest()))[0]) && Pieces(Rest()) == Pieces(old(Rest()))[1..]
    {
      var piece := Scan();
      if piece.None? {
        return if broken then Failed else Eof;
      }
      var ev := new Event();
      ev.Unmarshal(piece.value);
      if ev.data == "" {
        return Nothing;
      }
      return Payload(ev.data);
    }
  }

  function ReadingsOf(pieces: seq<string>): seq<Reading> {
    seq(|pieces|, i requires 0 <= i < |pieces| => ReadingOf(pieces[i]))
  }

  datatype Outcome = CallbackFailed | StreamEnded(failed: bool)

  /** The client hands on every reading until the callback fails or the stream ends. */
  method SubscribeWithCallback(reader: EventScanner, fails: seq<Reading> -> bool)
      returns (seen: seq<Reading>, outcome: Outcome)
    modifies reader
    ensures seen <= ReadingsOf(Pieces(old(reader.Rest())))
    ensures forall k :: 0 < k < |seen| ==> !fails(seen[..k])
    ensures outcome == CallbackFailed <==> seen != [] && fails(seen)
    ensures outcome != CallbackFailed ==>
              seen == ReadingsOf(Pieces(old(reader.Rest()))) && outcome == StreamEnded(reader.broken)
  {
    hide Pieces, ReadingOf;
    seen := [];
    ghost var pieces := Pieces(reader.Rest());
    while true
      invariant |seen| <= |pieces| && Pieces(reader.Rest()) == pieces[|seen|..]
      invariant seen == ReadingsOf(pieces[..|seen|])
      invariant forall k :: 0 < k <= |seen| ==> !fails(seen[..k])
      decreases |pieces| - |seen|
    {
      var r := reader.ReadEvent();
      if r == Eof || r == Failed {
        EndAfterAll(pieces[|seen|..]);
        assert pieces[..|seen|] == pieces;
        assert seen[..|seen|] == seen;
        return seen, StreamEnded(r == Failed);
      }
      ghost var before := seen;
      seen := seen + [r];
      assert forall k :: 0 < k <= |before| ==> seen[..k] == before[..k];
      assert seen[..|seen|] == seen;
      assert pieces[..|seen|] == pieces[..|before|] + [pieces[|before|]];
      if fails(seen) {
        return seen, CallbackFailed;
      }
    }
  }

  lemma EndAfterAll(pieces: seq<string>)
    ensures pieces != [] ==> ReadingOf(pieces[0]) != Eof && ReadingOf(pieces[0]) != Failed
  {
  }

  // ---------- what is printed is read back ----------

  /** A line of an event: one line of its payload, or a comment or another field. */
  datatype Part = Data(value: string) | Other(line: string)

  function LineOf(part: Part): string {
    match part
    case Data(value) => "data: " + value
    case Other(line) => line
  }

  predicate Printable(part: Part) {
    match part
    case Data(value) => '\n' !in value
    case Other(line) => line != "" && '\n' !in line && line[0] != '\r' && HeaderName(line) != HEADER_DATA
  }

  predicate PrintableEvent(parts: seq<Part>) {
    parts != [] && forall i :: 0 <= i < |parts| ==> Printable(parts[i])
  }

  function LinesOf(parts: seq<Part>): seq<string> {
    seq(|parts|, i requires 0 <= i < |parts| => LineOf(parts[i]))
  }

  function Values(parts: seq<Part>): seq<string> {
    if parts == [] then []
    else Values(parts[..|parts| - 1]) + match parts[|parts| - 1] case Data(value) => [value] case Other(_) => []
  }

  /** The lines of the event and a blank line. */
  function Printed(parts: seq<Part>): string {
    Terminated(LinesOf(parts)) + "\n"
  }

  function PayloadOf(parts: seq<Part>): string {
    Join(Values(parts), '\n')
  }

  /** What is read back: the payload without the line breaks at its end. */
  function ReadBack(parts: seq<Part>): Reading {
    var data := WithoutLastBreaks(PayloadOf(parts));
    if data == "" then Nothing else Payload(data)
  }

  lemma {:induction false} BlankAfter(line: string, tail: string)
    requires '\n' !in line
    ensures IndexOfBlank(line + "\n" + tail)
         == if tail != "" && tail[0] == '\n' then |line|
            else if IndexOfBlank(tail) < 0 then -1 else |line| + 1 + IndexOfBlank(tail)
  {
    var s := line + "\n" + tail;
    if line == "" {
      assert s[1..] == tail;
    } else {
      assert s[1..] == line[1..] + "\n" + tail;
      BlankAfter(line[1..], tail);
    }
  }

  /** A line of an event is not empty, has no line break and does not start with a carriage return. */
  lemma LineIs(part: Part)
    requires Printable(part)
    ensures LineOf(part) != "" && '\n' !in LineOf(part) && LineOf(part)[0] != '\n' && LineOf(part)[0] != '\r'
  {
  }

  predicate Lines(lines: seq<string>) {
    forall i :: 0 <= i < |lines| ==>
      lines[i] != "" && '\n' !in lines[i] && lines[i][0] != '\n' && lines[i][0] != '\r'
  }

  lemma {:induction false} BlankAfterLines(lines: seq<string>, rest: string)
    requires lines != [] && Lines(lines)
    ensures IndexOfBlank(Terminated(lines) + "\n" + rest) == |Join(lines, '\n')|
    ensures Terminated(lines) == Join(lines, '\n') + "\n"
  {
    var line, tail := lines[0], Terminated(lines[1..]) + "\n" + rest;
    assert Terminated(lines) + "\n" + rest == line + "\n" + tail;
    BlankAfter(line, tail);
    if |lines| > 1 {
      BlankAfterLines(lines[1..], rest);
      StartsWith(lines[1..]);
    }
  }

  lemma StartsWith(lines: seq<string>)
    requires lines != [] && lines[0] != ""
    ensures Terminated(lines) != "" && Terminated(lines)[0] == lines[0][0]
  {
  }

  lemma LinesOfPrintable(parts: seq<Part>)
    requires PrintableEvent(parts)
    ensures Lines(LinesOf(parts)) && LinesOf(parts) != []
    ensures forall l :: l in LinesOf(parts) ==> '\n' !in l
  {
    forall i | 0 <= i < |parts| ensures Printable(parts[i]) && LinesOf(parts)[i] == LineOf(parts[i]) {
      LineIs(parts[i]);
    }
    forall i | 0 <= i < |parts|
      ensures LinesOf(parts)[i] != "" && '\n' !in LinesOf(parts)[i] && LinesOf(parts)[i][0] != '\n'
      ensures LinesOf(parts)[i][0] != '\r'
    {
      LineIs(parts[i]);
    }
  }

  /** Nothing is replaced in the lines of an event. */
  lemma {:induction false} NormalizedLine(line: string, tail: string)
    requires '\n' !in line
    ensures Normalized(line + tail) == line + Normalized(tail)
  {
    if line == "" {
      assert line + tail == tail;
    } else {
      var s := line + tail;
      assert s[0] == line[0] && s[1..] == line[1..] + tail;
      NormalizedLine(line[1..], tail);
      assert line == [line[0]] + line[1..];
    }
  }

  lemma {:induction false} NormalizedLines(lines: seq<string>, tail: string)
    requires lines != [] && Lines(lines)
    ensures Normalized(Join(lines, '\n') + tail) == Join(lines, '\n') + Normalized(tail)
    ensures Join(lines, '\n') != "" && Join(lines, '\n')[0] == lines[0][0]
  {
    hide Normalized;
    if |lines| == 1 {
      NormalizedLine(lines[0], tail);
    } else {
      var rest := Join(lines[1..], '\n');
      NormalizedLines(lines[1..], tail);
      assert lines[0] + ['\n'] + rest + tail == lines[0] + ("\n" + (rest + tail));
      NormalizedLine(lines[0], "\n" + (rest + tail));
      NormalizedBreak(rest + tail);
    }
  }

  lemma NormalizedNone()
    ensures Normalized("") == ""
  {
  }

  lemma NormalizedBreak(tail: string)
    requires tail == "" || tail[0] != '\r'
    ensures Normalized("\n" + tail) == "\n" + Normalized(tail)
  {
    assert ("\n" + tail)[1..] == tail;
  }

  lemma HeaderOfData(value: string)
    ensures HeaderName("data: " + value) == HEADER_DATA && DataValue("data: " + value) == value
  {
    var line := "data: " + value;
    assert line == "data" + [':'] + (" " + value);
    IndexOfAt("data", ':', " " + value);
    assert line[5] == ' ' && line[6..] == value && line[..4] == "data";
  }

  lemma {:induction false} DataOfParts(parts: seq<Part>)
    requires forall i :: 0 <= i < |parts| ==> Printable(parts[i])
    ensures DataOf(LinesOf(parts)) == Terminated(Values(parts))
  {
    hide HeaderName, DataValue, Printable;
    if parts == [] {
    } else {
      var n := |parts| - 1;
      DataOfParts(parts[..n]);
      assert LinesOf(parts)[..n] == LinesOf(parts[..n]);
      match parts[n] {
        case Data(value) =>
          HeaderOfData(value);
          TerminatedAppend(Values(parts[..n]), value);
        case Other(line) =>
          OtherIsNoData(line);
          assert Values(parts) == Values(parts[..n]) + [] == Values(parts[..n]);
          assert DataOf(LinesOf(parts)) == DataOf(LinesOf(parts[..n])) + "";
      }
    }
  }

  lemma OtherIsNoData(line: string)
    requires Printable(Other(line))
    ensures HeaderName(line) != HEADER_DATA
  {
  }

  lemma LastBreakGoes(s: string)
    ensures WithoutLastBreaks(s + "\n") == WithoutLastBreaks(s)
  {
    assert (s + "\n")[..|s|] == s;
  }

  lemma ReadsBack(parts: seq<Part>)
    requires PrintableEvent(parts)
    ensures ReadingOf(Join(LinesOf(parts), '\n')) == ReadBack(parts)
  {
    hide Normalized, Split, IndexOf, DataOf, Terminated, Values, WithoutLastBreaks, Printable, Join;
    var lines := LinesOf(parts);
    LinesOfPrintable(parts);
    NormalizedLines(lines, "");
    NormalizedNone();
    assert Join(lines, '\n') + "" == Join(lines, '\n');
    SplitJoin(lines, '\n');
    WithoutItsBreak(parts);
  }

  lemma WithoutItsBreak(parts: seq<Part>)
    requires forall i :: 0 <= i < |parts| ==> Printable(parts[i])
    ensures WithoutLastBreaks(DataOf(LinesOf(parts))) == WithoutLastBreaks(PayloadOf(parts))
  {
    hide HeaderName, DataValue, DataOf, Terminated, Values, WithoutLastBreaks, Printable, Join;
    DataOfParts(parts);
    if Values(parts) != [] {
      TerminatedIsJoin(Values(parts), "");
      LastBreakGoes(PayloadOf(parts));
    } else {
      TerminatedNone();
      JoinNone();
    }
  }

  lemma JoinNone()
    ensures Join([], '\n') == ""
  {
  }

  function Stream(events: seq<seq<Part>>): string {
    if events == [] then "" else Printed(events[0]) + Stream(events[1..])
  }

  function AllReadBack(events: seq<seq<Part>>): seq<Reading> {
    seq(|events|, i requires 0 <= i < |events| => ReadBack(events[i]))
  }

  lemma {:induction false} NoBreaksToDrop(s: string)
    ensures WithoutLastBreaks(s) == s <==> s == "" || s[|s| - 1] != '\n'
    ensures |WithoutLastBreaks(s)| <= |s|
  {
    if s != "" && s[|s| - 1] == '\n' { NoBreaksToDrop(s[..|s| - 1]); }
  }

  /** A payload comes back as it was exactly when it is not empty and does not end in a line break. */
  lemma PayloadComesBack(parts: seq<Part>, payload: string)
    requires Values(parts) == Split(payload, '\n')
    ensures ReadBack(parts) == Payload(payload) <==> payload != "" && payload[|payload| - 1] != '\n'
  {
    JoinSplit(payload, '\n');
    NoBreaksToDrop(payload);
  }

  /** The same event with a line break behind its last line, but no blank line. */
  lemma ReadsBackEnded(parts: seq<Part>)
    requires PrintableEvent(parts)
    ensures ReadingOf(Join(LinesOf(parts), '\n') + "\n") == ReadBack(parts)
  {
    hide Normalized, Split, IndexOf, DataOf, Terminated, Values, WithoutLastBreaks, Printable, Join;
    var lines := LinesOf(parts);
    LinesOfPrintable(parts);
    NormalizedLines(lines, "\n");
    NormalizedBreak("");
    NormalizedNone();
    TerminatedIsJoin(lines, "");
    assert "\n" + "" == "\n" && Terminated(lines) + "" == Terminated(lines);
    SplitJoin(lines + [""], '\n');
    DataOfBlank(lines);
    WithoutItsBreak(parts);
  }

  // ---------- the end of the stream ----------

  /** The pieces that a blank line ends. */
  function Finished(s: string): seq<string>
    decreases |s|
  {
    var i := IndexOfBlank(s);
    if i >= 0 then [s[..i]] + Finished(s[i + 2..]) else []
  }

  /** What stands behind the last blank line. */
  function Unfinished(s: string): string
    decreases |s|
  {
    var i := IndexOfBlank(s);
    if i >= 0 then Unfinished(s[i + 2..]) else s
  }

  lemma {:induction false} PiecesAre(s: string)
    ensures Pieces(s) == Finished(s) + if Unfinished(s) == "" then [] else [Unfinished(s)]
    decreases |s|
  {
    var i := IndexOfBlank(s);
    if i >= 0 { PiecesAre(s[i + 2..]); }
  }

  function Payloads(readings: seq<Reading>): seq<string> {
    if readings == [] then []
    else
      var n := |readings| - 1;
      Payloads(readings[..n]) + if readings[n].Payload? then [readings[n].data] else []
  }

  /**
   Section 9.2.6 of the HTML standard discards what the end of the stream cuts off. Here the same
   payloads are handed on exactly when nothing is cut off, or nothing with a payload.
   */
  lemma CutOffExactly(s: string)
    ensures Payloads(ReadingsOf(Pieces(s))) == Payloads(ReadingsOf(Finished(s)))
       <==> Unfinished(s) == "" || ReadingOf(Unfinished(s)) == Nothing
  {
    hide Pieces, Finished, Unfinished, ReadingOf;
    PiecesAre(s);
    var done, rest := ReadingsOf(Finished(s)), Unfinished(s);
    if rest == "" {
      assert Pieces(s) == Finished(s);
    } else {
      assert ReadingsOf(Pieces(s)) == done + [ReadingOf(rest)];
      assert (done + [ReadingOf(rest)])[..|done|] == done;
      OneOf(rest);
    }
  }

  lemma OneOf(piece: string)
    ensures ReadingOf(piece) == Nothing || ReadingOf(piece).Payload?
  {
  }

  /** Behind printed events, any rest without a blank line is one more piece. */
  lemma {:induction false} BehindEvents(events: seq<seq<Part>>, rest: string)
    requires (forall i :: 0 <= i < |events| ==> PrintableEvent(events[i])) && IndexOfBlank(rest) < 0
    ensures Unfinished(Stream(events) + rest) == rest
    ensures ReadingsOf(Finished(Stream(events) + rest)) == AllReadBack(events)
  {
    hide ReadingOf, ReadBack, PrintableEvent, IndexOfBlank, Terminated, Join, LinesOf, Finished, Unfinished;
    if events == [] {
      assert Stream(events) + rest == rest;
      NothingFinished(rest);
    } else {
      var parts, behind := events[0], Stream(events[1..]) + rest;
      var lines := LinesOf(parts);
      LinesOfPrintable(parts);
      BlankAfterLines(lines, behind);
      var piece := Join(lines, '\n');
      assert Stream(events) + rest == Terminated(lines) + "\n" + behind == piece + "\n\n" + behind;
      FinishedNext(piece, behind);
      BehindEvents(events[1..], rest);
      ReadsBack(parts);
      assert AllReadBack(events) == [ReadBack(parts)] + AllReadBack(events[1..]);
      assert ReadingsOf([piece] + Finished(behind)) == [ReadingOf(piece)] + ReadingsOf(Finished(behind));
    }
  }

  /** Printed events are read back one by one, however the stream is cut into chunks. */
  lemma StreamRoundTrip(events: seq<seq<Part>>)
    requires forall i :: 0 <= i < |events| ==> PrintableEvent(events[i])
    ensures ReadingsOf(Pieces(Stream(events))) == AllReadBack(events)
  {
    hide ReadingOf, ReadBack, Pieces, Finished, Unfinished, PrintableEvent, Stream;
    var s := Stream(events);
    assert s + "" == s;
    BehindEvents(events, "");
    PiecesAre(s);
    assert Finished(s) + [] == Finished(s);
  }

  lemma NothingFinished(s: string)
    requires IndexOfBlank(s) < 0
    ensures Finished(s) == [] && Unfinished(s) == s
  {
  }

  lemma FinishedNext(piece: string, rest: string)
    requires IndexOfBlank(piece + "\n\n" + rest) == |piece|
    ensures Finished(piece + "\n\n" + rest) == [piece] + Finished(rest)
    ensures Unfinished(piece + "\n\n" + rest) == Unfinished(rest)
  {
    var s := piece + "\n\n" + rest;
    assert s[..|piece|] == piece && s[|piece| + 2..] == rest;
  }

  /** An event cut off behind a line is handed on, with or without the break of that line. */
  lemma CutOffEventIsRead(before: seq<seq<Part>>, parts: seq<Part>)
    requires PrintableEvent(parts) && forall i :: 0 <= i < |before| ==> PrintableEvent(before[i])
    ensures ReadingsOf(Pieces(Stream(before) + Join(LinesOf(parts), '\n'))) == AllReadBack(before) + [ReadBack(parts)]
    ensures ReadingsOf(Pieces(Stream(before) + Terminated(LinesOf(parts)))) == AllReadBack(before) + [ReadBack(parts)]
  {
    hide ReadingOf, ReadBack, Pieces, IndexOfBlank, Terminated, Join, LinesOf, Finished, Unfinished, Printable, Stream;
    var lines := LinesOf(parts);
    LinesOfPrintable(parts);
    NoBlankInside(lines);
    NormalizedLines(lines, "");
    ReadsBack(parts);
    ReadsBackEnded(parts);
    TerminatedIsJoin(lines, "");
    CutOffPiece(before, Join(lines, '\n'));
    CutOffPiece(before, Join(lines, '\n') + "\n");
  }

  lemma CutOffPiece(before: seq<seq<Part>>, rest: string)
    requires (forall i :: 0 <= i < |before| ==> PrintableEvent(before[i])) && IndexOfBlank(rest) < 0 && rest != ""
    ensures ReadingsOf(Pieces(Stream(before) + rest)) == AllReadBack(before) + [ReadingOf(rest)]
  {
    hide ReadingOf, ReadBack, Pieces, IndexOfBlank, Finished, Unfinished, PrintableEvent, Stream;
    var s := Stream(before) + rest;
    BehindEvents(before, rest);
    PiecesAre(s);
    assert ReadingsOf(Finished(s) + [rest]) == ReadingsOf(Finished(s)) + [ReadingOf(rest)];
  }

  /** Cut off inside a value, the event is handed on with what there is of it. */
  lemma CutOffInsideAValue(before: seq<seq<Part>>, parts: seq<Part>, value: string, n: nat)
    requires PrintableEvent(parts + [Data(value)]) && forall i :: 0 <= i < |before| ==> PrintableEvent(before[i])
    requires n <= |value|
    ensures var all := Join(LinesOf(parts + [Data(value)]), '\n');
            && n <= |all|
            && ReadingsOf(Pieces(Stream(before) + all[..|all| - n]))
               == AllReadBack(before) + [ReadBack(parts + [Data(value[..|value| - n])])]
  {
    hide ReadBack, Pieces, Join, Stream, PrintableEvent, LinesOf;
    LessIsPrintable(parts, value, n);
    CutText(parts, value, n);
    CutOffEventIsRead(before, parts + [Data(value[..|value| - n])]);
  }

  lemma CutText(parts: seq<Part>, value: string, n: nat)
    requires n <= |value|
    ensures var all := Join(LinesOf(parts + [Data(value)]), '\n');
            && n <= |all|
            && all[..|all| - n] == Join(LinesOf(parts + [Data(value[..|value| - n])]), '\n')
  {
    hide Terminated, Join;
    var most := value[..|value| - n];
    assert LinesOf(parts + [Data(value)]) == LinesOf(parts) + ["data: " + value];
    assert LinesOf(parts + [Data(most)]) == LinesOf(parts) + ["data: " + most];
    TerminatedIsJoin(LinesOf(parts), "data: " + value);
    TerminatedIsJoin(LinesOf(parts), "data: " + most);
    var all := Terminated(LinesOf(parts)) + ("data: " + value);
    assert all[..|all| - n] == Terminated(LinesOf(parts)) + ("data: " + most);
  }

  lemma LessIsPrintable(parts: seq<Part>, value: string, n: nat)
    requires PrintableEvent(parts + [Data(value)]) && n <= |value|
    ensures PrintableEvent(parts + [Data(value[..|value| - n])])
  {
    hide HeaderName;
    var some, all := parts + [Data(value[..|value| - n])], parts + [Data(value)];
    forall i | 0 <= i < |some|
      ensures Printable(some[i])
    {
      assert Printable(all[i]);
    }
  }

  lemma NoBlankInside(lines: seq<string>)
    requires lines != [] && Lines(lines)
    ensures IndexOfBlank(Join(lines, '\n')) < 0 && IndexOfBlank(Join(lines, '\n') + "\n") < 0
  {
    hide Join, Terminated;
    var s := Join(lines, '\n');
    BlankAfterLines(lines, "");
    assert s + "\n\n" == Terminated(lines) + "\n" + "";
    if IndexOfBlank(s) >= 0 { IndexOfBlankStays(s, "\n\n"); }
    assert s + "\n" + "\n" == s + "\n\n";
    if IndexOfBlank(s + "\n") >= 0 { IndexOfBlankStays(s + "\n", "\n"); }
  }

  // ---------- line ends of two characters ----------

  /**
   A stream with the line ends "\r\n" has no "\n\n": all its events are read as one piece, at the
   end of the stream, although such line ends are allowed by section 9.2.5 of the HTML standard.
   */
  lemma CrlfStreamIsOnePiece(s: string)
    requires s != "" && forall i :: 0 <= i < |s| && s[i] == '\n' ==> i > 0 && s[i - 1] == '\r'
    ensures Pieces(s) == [s]
  {
  }

  /** The lines of an event, or the blank line behind one, which is Other(""). */
  predicate PlainLine(part: Part) {
    && '\n' !in LineOf(part) && '\r' !in LineOf(part)
    && (part.Other? ==> HeaderName(part.line) != HEADER_DATA)
  }

  predicate PlainLines(parts: seq<Part>) {
    forall i :: 0 <= i < |parts| ==> PlainLine(parts[i])
  }

  function CrlfText(parts: seq<Part>): string {
    if parts == [] then "" else LineOf(parts[0]) + "\r\n" + CrlfText(parts[1..])
  }

  /** A line as it stands behind a line break: the replacement takes the carriage return of a blank one. */
  function CrLine(line: string): string {
    if line == "" then "" else line + "\r"
  }

  function CrLines(parts: seq<Part>): seq<string> {
    seq(|parts|, i requires 0 <= i < |parts| => CrLine(LineOf(parts[i])))
  }

  function WithCr(values: seq<string>): seq<string> {
    seq(|values|, i requires 0 <= i < |values| => values[i] + "\r")
  }

  lemma CrlfTextNext(parts: seq<Part>)
    requires parts != [] && LineOf(parts[0]) != ""
    ensures CrlfText(parts) == CrLine(LineOf(parts[0])) + ("\n" + CrlfText(parts[1..]))
  {
  }

  lemma {:induction false} CrlfEnds(parts: seq<Part>)
    requires PlainLines(parts)
    ensures forall i :: 0 <= i < |CrlfText(parts)| && CrlfText(parts)[i] == '\n' ==>
              i > 0 && CrlfText(parts)[i - 1] == '\r'
  {
    hide IndexOf, HeaderName, LineOf;
    if parts != [] {
      var line, tail, s := LineOf(parts[0]), CrlfText(parts[1..]), CrlfText(parts);
      assert PlainLine(parts[0]);
      CrlfEnds(parts[1..]);
      assert s[..|line|] == line;
      forall i | 0 <= i < |s| && s[i] == '\n'
        ensures i > 0 && s[i - 1] == '\r'
      {
        if i >= |line| + 2 {
          assert s[i] == tail[i - |line| - 2];
        }
      }
    }
  }

  lemma CrLinesNext(parts: seq<Part>)
    requires parts != []
    ensures Terminated(CrLines(parts)) == CrLine(LineOf(parts[0])) + ("\n" + Terminated(CrLines(parts[1..])))
  {
    assert CrLines(parts) == [CrLine(LineOf(parts[0]))] + CrLines(parts[1..]);
  }

  /** What the replacement makes of lines behind a line break. */
  lemma {:induction false} NormalizedCrlf(parts: seq<Part>)
    requires PlainLines(parts)
    ensures Normalized("\n" + CrlfText(parts)) == "\n" + Terminated(CrLines(parts))
  {
    hide Normalized, CrLines, HeaderName, IndexOf, LineOf;
    if parts == [] {
      NormalizedNone();
      NormalizedBreak("");
      assert CrLines(parts) == [] by { NoCrLines(); }
    } else {
      var line, tail := LineOf(parts[0]), CrlfText(parts[1..]);
      assert PlainLine(parts[0]);
      NormalizedCrlf(parts[1..]);
      CrLinesNext(parts);
      if line == "" {
        assert CrlfText(parts) == "\r" + ("\n" + tail);
        BlankCrlf(tail);
      } else {
        CrlfTextNext(parts);
        NormalizedBreak(CrlfText(parts));
        NormalizedLine(CrLine(line), "\n" + tail);
      }
    }
  }

  lemma NoCrLines()
    ensures CrLines([]) == []
  {
  }

  /** A carriage return behind a line break vanishes, wherever it is. */
  lemma ReturnVanishes(tail: string)
    ensures Normalized("\n\r" + tail) == "\n" + Normalized(tail)
  {
    assert ("\n\r" + tail)[2..] == tail;
  }

  lemma BlankCrlf(tail: string)
    ensures Normalized("\n" + ("\r" + ("\n" + tail))) == "\n" + Normalized("\n" + tail)
  {
    var s := "\n" + ("\r" + ("\n" + tail));
    assert s[0] == '\n' && s[1] == '\r' && s[2..] == "\n" + tail;
  }

  lemma WithCrAppend(values: seq<string>, value: string)
    ensures WithCr(values + [value]) == WithCr(values) + [value + "\r"]
  {
  }

  lemma HeaderOfCrLine(part: Part)
    requires PlainLine(part)
    ensures HeaderName(CrLine(LineOf(part))) == HEADER_DATA <==> part.Data?
    ensures part.Data? ==> DataValue(CrLine(LineOf(part))) == part.value + "\r"
  {
    match part {
      case Data(value) =>
        assert "data: " + value + "\r" == "data: " + (value + "\r");
        HeaderOfData(value + "\r");
      case Other(line) =>
        if line != "" {
          var i := IndexOf(line, ':');
          if i >= 0 {
            NameStays(line, i);
          } else {
            NoColon(line);
            assert Last(line + "\r") == '\r' && Last(HEADER_DATA) == 'a';
          }
        }
    }
  }

  lemma NameStays(line: string, i: nat)
    requires i == IndexOf(line, ':')
    ensures HeaderName(line + "\r") == HeaderName(line)
  {
    hide IndexOf;
    assert line == line[..i] + [':'] + line[i + 1..];
    assert line + "\r" == line[..i] + [':'] + (line[i + 1..] + "\r");
    IndexOfAt(line[..i], ':', line[i + 1..] + "\r");
    assert (line + "\r")[..i] == line[..i];
  }

  lemma NoColon(line: string)
    requires IndexOf(line, ':') < 0
    ensures HeaderName(line + "\r") == line + "\r"
  {
    assert ':' !in line;
    assert ':' !in line + "\r";
  }

  lemma {:induction false} DataOfCrLines(parts: seq<Part>)
    requires PlainLines(parts)
    ensures DataOf(CrLines(parts)) == Terminated(WithCr(Values(parts)))
  {
    hide HeaderName, DataValue, PlainLine, CrLine, LineOf;
    if parts != [] {
      var n := |parts| - 1;
      DataOfCrLines(parts[..n]);
      assert CrLines(parts)[..n] == CrLines(parts[..n]);
      HeaderOfCrLine(parts[n]);
      match parts[n] {
        case Data(value) =>
          WithCrAppend(Values(parts[..n]), value);
          TerminatedAppend(WithCr(Values(parts[..n])), value + "\r");
        case Other(_) =>
          assert Values(parts) == Values(parts[..n]) + [] == Values(parts[..n]);
          assert DataOf(CrLines(parts)) == DataOf(CrLines(parts[..n])) + "";
      }
    }
  }

  /** The lines of all events, with a blank line behind each of them. */
  function Blanked(events: seq<seq<Part>>): seq<Part> {
    if events == [] then [] else events[0] + [Other("")] + Blanked(events[1..])
  }

  predicate PlainEvent(parts: seq<Part>) {
    PrintableEvent(parts) && PlainLines(parts)
  }

  lemma {:induction false} BlankedIsPlain(events: seq<seq<Part>>)
    requires forall i :: 0 <= i < |events| ==> PlainEvent(events[i])
    ensures PlainLines(Blanked(events))
    ensures events != [] ==> Blanked(events) != [] && LineOf(Blanked(events)[0]) != ""
  {
    hide Printable;
    if events != [] {
      assert PlainEvent(events[0]);
      LineIs(events[0][0]);
      BlankedIsPlain(events[1..]);
      assert PlainLine(Other("")) by { assert HeaderName("") == ""; }
    }
  }

  /** One event with all the values of the stream, each of which keeps its carriage return. */
  function CrlfReading(values: seq<string>): Reading {
    if values == [] then Nothing else Payload(Join(WithCr(values), '\n'))
  }

  /**
   A stream of events with the line ends "\r\n" is read as one event at most: the values of all
   events run together, and each keeps its carriage return.
   */
  lemma CrlfStreamReadsAs(events: seq<seq<Part>>)
    requires events != [] && forall i :: 0 <= i < |events| ==> PlainEvent(events[i])
    ensures ReadingsOf(Pieces(CrlfText(Blanked(events)))) == [CrlfReading(Values(Blanked(events)))]
  {
    hide Normalized, Split, IndexOf, Pieces, Join, Values, WithCr, CrLine, PlainEvent, ReadingOf, CrlfReading, Blanked;
    var parts := Blanked(events);
    BlankedIsPlain(events);
    CrlfEnds(parts);
    CrlfTextNext(parts);
    CrlfStreamIsOnePiece(CrlfText(parts));
    ReadCrlf(parts);
  }

  lemma ValuesOfOne(parts: seq<Part>)
    ensures Values(Blanked([parts])) == Values(parts)
  {
    assert Blanked([parts]) == parts + [Other("")];
    assert (parts + [Other("")])[..|parts|] == parts;
  }

  /** Such a stream reads as its events exactly when it is one event without a value. */
  lemma CrlfReadsWellExactly(events: seq<seq<Part>>)
    requires events != [] && forall i :: 0 <= i < |events| ==> PlainEvent(events[i])
    ensures ReadingsOf(Pieces(CrlfText(Blanked(events)))) == AllReadBack(events)
       <==> |events| == 1 && Values(events[0]) == []
  {
    hide Pieces, CrlfText, Values, PlainEvent, ReadingOf, Blanked;
    CrlfStreamReadsAs(events);
    assert |AllReadBack(events)| == |events|;
    if |events| == 1 {
      assert events == [events[0]];
      assert AllReadBack(events) == [ReadBack(events[0])];
      ValuesOfOne(events[0]);
      KeepsItsReturn(events[0]);
    }
  }

  lemma KeepsItsReturn(parts: seq<Part>)
    requires PlainEvent(parts)
    ensures CrlfReading(Values(parts)) == ReadBack(parts) <==> Values(parts) == []
  {
    hide Values, Join;
    var values := Values(parts);
    if values == [] {
      JoinNone();
    } else {
      ValuesArePlain(parts);
      JoinWithout(values, '\r');
      NoBreaksToDrop(PayloadOf(parts));
      PartOf(PayloadOf(parts));
      JoinEnds(WithCr(values));
      assert Last(WithCr(values)[|values| - 1]) == '\r';
    }
  }

  lemma {:induction false} ValuesArePlain(parts: seq<Part>)
    requires PlainLines(parts)
    ensures forall v :: v in Values(parts) ==> '\r' !in v
  {
    hide HeaderName;
    if parts != [] {
      var n := |parts| - 1;
      ValuesArePlain(parts[..n]);
      assert PlainLine(parts[n]);
      if parts[n].Data? {
        assert ("data: " + parts[n].value)[6..] == parts[n].value;
      }
    }
  }

  lemma {:induction false} JoinWithout(values: seq<string>, c: char)
    requires c != '\n' && forall v :: v in values ==> c !in v
    ensures c !in Join(values, '\n')
  {
    if |values| > 1 { JoinWithout(values[1..], c); }
  }

  lemma {:induction false} PartOf(s: string)
    ensures forall c :: c in WithoutLastBreaks(s) ==> c in s
  {
    if s != "" && s[|s| - 1] == '\n' { PartOf(s[..|s| - 1]); }
  }

  /** Without a single "\n" (bare carriage returns are line ends too) all is one line of one event. */
  lemma OneLineReadsAs(s: string)
    requires s != "" && '\n' !in s
    ensures ReadingsOf(Pieces(s))
         == [if HeaderName(s) == HEADER_DATA && DataValue(s) != "" then Payload(DataValue(s)) else Nothing]
  {
    hide Split, IndexOf, Pieces, Normalized, WithoutLastBreaks;
    CrlfStreamIsOnePiece(s);
    NormalizedLine(s, "");
    NormalizedNone();
    assert s + "" == s;
    SplitNone(s, '\n');
    assert [s][..0] == [];
    assert DataOf([s]) == if HeaderName(s) == HEADER_DATA then DataValue(s) + "\n" else "";
    ValueIsPart(s);
    LastBreakGoes(DataValue(s));
    NoBreaksToDrop(DataValue(s));
    NoBreaksToDrop("");
    assert ReadingsOf([s]) == [ReadingOf(s)];
  }

  lemma ValueIsPart(line: string)
    ensures forall c :: c in DataValue(line) ==> c in line
  {
  }

  lemma ReadCrlf(parts: seq<Part>)
    requires parts != [] && PlainLines(parts) && LineOf(parts[0]) != ""
    ensures ReadingOf(CrlfText(parts)) == CrlfReading(Values(parts))
  {
    hide Normalized, Split, IndexOf, Join, Values, CrLine, CrLines, LineOf, HeaderName, DataOf, Terminated;
    hide WithoutLastBreaks;
    var line, lines, values := LineOf(parts[0]), CrLines(parts), WithCr(Values(parts));
    assert PlainLine(parts[0]);
    assert '\n' !in CrLine(line) by { CrLineIs(line); }
    CrlfTextNext(parts);
    NormalizedLine(CrLine(line), "\n" + CrlfText(parts[1..]));
    NormalizedCrlf(parts[1..]);
    CrLinesNext(parts);
    TerminatedIsJoin(lines, "");
    assert Terminated(lines) + "" == Terminated(lines);
    CrLinesAre(parts);
    SplitJoin(lines + [""], '\n');
    DataOfBlank(lines);
    DataOfCrLines(parts);
    ValuesOnly(values);
  }

  lemma CrLineIs(line: string)
    requires '\n' !in line
    ensures '\n' !in CrLine(line)
  {
  }

  lemma CrLinesAre(parts: seq<Part>)
    requires PlainLines(parts)
    ensures forall l :: l in CrLines(parts) + [""] ==> '\n' !in l
  {
    hide CrLine, LineOf, HeaderName;
    forall i | 0 <= i < |parts|
      ensures '\n' !in CrLines(parts)[i]
    {
      assert PlainLine(parts[i]);
      CrLineIs(LineOf(parts[i]));
    }
  }

  lemma DataOfBlank(lines: seq<string>)
    ensures DataOf(lines + [""]) == DataOf(lines)
  {
    assert (lines + [""])[..|lines|] == lines;
    assert HeaderName("") == "";
  }

  /** Nothing but the last line break goes when the values end in carriage returns. */
  lemma ValuesOnly(values: seq<string>)
    requires forall i :: 0 <= i < |values| ==> values[i] != "" && values[i][|values[i]| - 1] == '\r'
    ensures values == [] ==> WithoutLastBreaks(Terminated(values)) == ""
    ensures values != [] ==>
              WithoutLastBreaks(Terminated(values)) == Join(values, '\n') && Join(values, '\n') != ""
  {
    if values != [] {
      var s := Join(values, '\n');
      TerminatedIsJoin(values, "");
      JoinEnds(values);
      LastBreakGoes(s);
      NoBreaksToDrop(s);
    }
  }

  lemma {:induction false} JoinEnds(values: seq<string>)
    requires values != [] && values[|values| - 1] != ""
    ensures Join(values, '\n') != "" && Last(Join(values, '\n')) == Last(values[|values| - 1])
  {
    if |values| > 1 { JoinEnds(values[1..]); }
  }

  // ---------- the forms of a data line ----------

  /** One space behind the colon is not part of the value, and may be missing; without a colon there is no value. */
  lemma DataLineForms(value: string)
    ensures HeaderName("data:" + value) == HEADER_DATA && HeaderName("data") == HEADER_DATA
    ensures DataValue("data:" + value) == if value != "" && value[0] == ' ' then value[1..] else value
    ensures DataValue("data") == ""
  {
    hide IndexOf;
    var line := "data" + [':'] + value;
    IndexOfAt("data", ':', value);
    assert "data:" + value == line && line[..4] == "data" && line[5..] == value;
    if value != "" { assert line[5] == value[0] && line[6..] == value[1..]; }
    assert ':' !in "data";
  }

  /** The same line, or a data line without the space behind the colon. */
  ghost predicate Tightened(line: string, line': string) {
    line' == line || exists value :: line == "data: " + value && line' == "data:" + value && !HasPrefix(value, " ")
  }

  /** Leaving out that space anywhere changes nothing. */
  lemma {:induction false} TightLines(lines: seq<string>, lines': seq<string>)
    requires |lines'| == |lines| && forall i :: 0 <= i < |lines| ==> Tightened(lines[i], lines'[i])
    ensures DataOf(lines') == DataOf(lines)
  {
    hide HeaderName, DataValue;
    if lines != [] {
      var n := |lines| - 1;
      TightLines(lines[..n], lines'[..n]);
      assert Tightened(lines[n], lines'[n]);
      if lines'[n] != lines[n] {
        var value :| lines[n] == "data: " + value && lines'[n] == "data:" + value && !HasPrefix(value, " ");
        DataLineForms(value);
        HeaderOfData(value);
      }
    }
  }
}
