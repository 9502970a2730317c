/**
 The message parts of the Hazelcast Go client that the codecs use: frames, the message they
 are appended to, and the iterator that reads them back. The client is a separate library:
 frames are modelled as content plus flags, the iterator as a cursor over a sequence, and
 reading past the last frame as a panic.
 */
module Frames {
  import opened Bytes
  import opened Wrappers

  datatype Flag = BeginDataStructure | EndDataStructure | IsNull

  datatype Frame = Frame(content: seq<byte>, flags: set<Flag>) {
    predicate IsBeginFrame() { BeginDataStructure in flags }
    predicate IsEndFrame() { EndDataStructure in flags }
    predicate IsNullFrame() { IsNull in flags }
  }

  const NULL_FRAME := Frame([], {IsNull})
  const BEGIN_FRAME := Frame([], {BeginDataStructure})
  const END_FRAME := Frame([], {EndDataStructure})

  function NewFrame(content: seq<byte>): Frame {
    Frame(content, {})
  }

  /** What a decoder makes of the frames ahead: a value and the frames it leaves, or a panic. */
  datatype Parse<+T> = Panic | Parsed(value: T, rest: seq<Frame>) {
    predicate IsFailure() {
      Panic?
    }

    function PropagateFailure<U>(): Parse<U>
      requires Panic?
    {
      Panic
    }

    function Extract(): (T, seq<Frame>)
      requires Parsed?
    {
      (value, rest)
    }
  }

  function NextFrame(fs: seq<Frame>): Parse<Frame> {
    if fs == [] then Panic else Parsed(fs[0], fs[1..])
  }

  function PeekFrame(fs: seq<Frame>): Parse<Frame> {
    if fs == [] then Panic else Parsed(fs[0], fs)
  }

  class ClientMessage {
    var frames: seq<Frame>

    constructor ()
      ensures frames == []
    {
      frames := [];
    }

    method AddFrame(frame: Frame)
      modifies this
      ensures frames == old(frames) + [frame]
    {
      frames := frames + [frame];
    }
  }

  class ForwardFrameIterator {
    const frames: seq<Frame>
    var position: nat

    ghost predicate Valid()
      reads this
    {
      position <= |frames|
    }

    ghost function Rest(): seq<Frame>
      requires Valid()
      reads this
    {
      frames[position..]
    }

    /** The outcome r and the cursor are what the parse p describes. */
    ghost predicate Follows<T>(r: Option<T>, p: Parse<T>)
      requires Valid()
      reads this
    {
      && (r.None? <==> p.Panic?)
      && (r.Some? ==> r.value == p.value && Rest() == p.rest)
    }

    constructor (fs: seq<Frame>)
      ensures Valid() && Rest() == fs
    {
      frames := fs;
      position := 0;
    }

    method Next() returns (r: Option<Frame>)
      requires Valid()
      modifies this
      ensures Valid() && Follows(r, NextFrame(old(Rest())))
    {
      if position == |frames| {
        return None;
      }
      r := Some(frames[position]);
      position := position + 1;
    }

    method PeekNext() returns (r: Option<Frame>)
      requires Valid()
      ensures Follows(r, PeekFrame(Rest()))
    {
      if position == |frames| {
        return None;
      }
      r := Some(frames[position]);
    }
  }
}
