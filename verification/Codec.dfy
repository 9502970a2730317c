/**
 The primitive codecs of internal/proto/codec/builtin.go: fixed-size fields at offsets of a
 buffer, strings and nullable strings as frames, lists and maps between a begin and an end
 frame, and the bracket matching that skips the part of a structure the reader does not know.

 Every decoding method is tied to a function on the frames ahead of the iterator; the lemmas
 are about those functions. None (or Panic) is the panic of an index out of range.
 */
module Codec {
  import opened Bytes
  import opened Frames
  import opened Sequences
  import opened Wrappers

  type Text = seq<byte>

  // ---------- fixed-size fields ----------

  method EncodeBoolean(buffer: array<byte>, offset: nat, value: bool)
    requires offset < buffer.Length
    modifies buffer
    ensures buffer[..] == Overwrite(old(buffer[..]), offset, BooleanBytes(value))
  {
    buffer[offset] := if value then 1 else 0;
    assert buffer[..] == Overwrite(old(buffer[..]), offset, BooleanBytes(value));
  }

  method EncodeInt(buffer: array<byte>, offset: nat, value: int32)
    requires offset + 4 <= buffer.Length
    modifies buffer
    ensures buffer[..] == Overwrite(old(buffer[..]), offset, IntBytes(value))
  {
    PutLittleEndian(buffer, offset, ToUnsigned(value, TWO_32), 4);
  }

  method EncodeLong(buffer: array<byte>, offset: nat, value: int64)
    requires offset + 8 <= buffer.Length
    modifies buffer
    ensures buffer[..] == Overwrite(old(buffer[..]), offset, LongBytes(value))
  {
    PutLittleEndian(buffer, offset, ToUnsigned(value, TWO_64), 8);
  }

  function BooleanBytes(value: bool): seq<byte> {
    [if value then 1 else 0]
  }

  function IntBytes(value: int32): (s: seq<byte>)
    ensures |s| == 4
  {
    LittleEndian(ToUnsigned(value, TWO_32), 4)
  }

  function LongBytes(value: int64): (s: seq<byte>)
    ensures |s| == 8
  {
    LittleEndian(ToUnsigned(value, TWO_64), 8)
  }

  function DecodeBoolean(buffer: seq<byte>, offset: nat): Option<bool> {
    if offset < |buffer| then Some(buffer[offset] == 1) else None
  }

  function DecodeInt(buffer: seq<byte>, offset: nat): Option<int32> {
    if offset + 4 <= |buffer| then
      Pow256Values();
      Some(ToSigned(FromLittleEndian(buffer[offset..offset + 4]), TWO_32))
    else None
  }

  function DecodeLong(buffer: seq<byte>, offset: nat): Option<int64> {
    if offset + 8 <= |buffer| then
      Pow256Values();
      Some(ToSigned(FromLittleEndian(buffer[offset..offset + 8]), TWO_64))
    else None
  }

  /** Every int32, negative ones included, comes back from wherever its four bytes stand. */
  lemma IntRoundTrip(buffer: seq<byte>, offset: nat, value: int32)
    requires offset + 4 <= |buffer| && buffer[offset..offset + 4] == IntBytes(value)
    ensures DecodeInt(buffer, offset) == Some(value)
  {
    Pow256Values();
    LittleEndianRoundTrip(ToUnsigned(value, TWO_32), 4);
  }

  lemma LongRoundTrip(buffer: seq<byte>, offset: nat, value: int64)
    requires offset + 8 <= |buffer| && buffer[offset..offset + 8] == LongBytes(value)
    ensures DecodeLong(buffer, offset) == Some(value)
  {
    Pow256Values();
    LittleEndianRoundTrip(ToUnsigned(value, TWO_64), 8);
  }

  // ---------- UUIDs ----------

  datatype UUID = UUID(mostSignificant: uint64, leastSignificant: uint64) {
    predicate Default() {
      mostSignificant == 0 && leastSignificant == 0
    }
  }

  function AsInt64(u: uint64): int64 { ToSigned(u, TWO_64) }

  function AsUint64(v: int64): uint64 { ToUnsigned(v, TWO_64) }

  /** The buffer after writing a UUID: only the flag byte changes for the default one. */
  function UUIDWritten(buffer: seq<byte>, offset: nat, uuid: UUID): (r: seq<byte>)
    requires offset + 17 <= |buffer|
    ensures |r| == |buffer|
  {
    var flagged := Overwrite(buffer, offset, BooleanBytes(uuid.Default()));
    if uuid.Default() then flagged
    else
      Overwrite(Overwrite(flagged, offset + 1, LongBytes(AsInt64(uuid.mostSignificant))),
                offset + 9, LongBytes(AsInt64(uuid.leastSignificant)))
  }

  method EncodeUUID(buffer: array<byte>, offset: nat, uuid: UUID)
    requires offset + 17 <= buffer.Length
    modifies buffer
    ensures buffer[..] == UUIDWritten(old(buffer[..]), offset, uuid)
  {
    var isNullEncode := uuid.Default();
    EncodeBoolean(buffer, offset, isNullEncode);
    if isNullEncode {
      return;
    }
    var bufferOffset := offset + 1;
    EncodeLong(buffer, bufferOffset, AsInt64(uuid.mostSignificant));
    EncodeLong(buffer, bufferOffset + 8, AsInt64(uuid.leastSignificant));
  }

  function DecodeUUID(buffer: seq<byte>, offset: nat): Option<UUID> {
    var isNull :- DecodeBoolean(buffer, offset);
    if isNull then Some(UUID(0, 0))
    else
      var most :- DecodeLong(buffer, offset + 1);
      var least :- DecodeLong(buffer, offset + 9);
      Some(UUID(AsUint64(most), AsUint64(least)))
  }

  /**
   Reading a UUID gives the one written, whatever the buffer held before (writing the default
   one leaves sixteen stale bytes behind), and no other byte of the buffer changes.
   */
  lemma UUIDRoundTrip(buffer: seq<byte>, offset: nat, uuid: UUID)
    requires offset + 17 <= |buffer|
    ensures DecodeUUID(UUIDWritten(buffer, offset, uuid), offset) == Some(uuid)
    ensures forall i :: 0 <= i < |buffer| && !(offset <= i < offset + 17)
              ==> UUIDWritten(buffer, offset, uuid)[i] == buffer[i]
  {
    if !uuid.Default() {
      var most, least := AsInt64(uuid.mostSignificant), AsInt64(uuid.leastSignificant);
      var flagged := Overwrite(buffer, offset, BooleanBytes(false));
      var one := Overwrite(flagged, offset + 1, LongBytes(most));
      var two := Overwrite(one, offset + 9, LongBytes(least));
      assert two[offset + 1..offset + 9] == one[offset + 1..offset + 9];
      LongRoundTrip(two, offset + 1, most);
      LongRoundTrip(two, offset + 9, least);
      assert two[offset] == 0;
    }
  }

  // ---------- strings and nullable strings ----------

  /** The length of the white-space character that s starts with in UTF-8, or 0. */
  function SpaceWidth(s: Text): nat
    ensures SpaceWidth(s) <= |s|
  {
    if |s| >= 1 && (9 <= s[0] <= 13 || s[0] == 32) then 1
    else if |s| >= 2 && s[0] == 0xC2 && (s[1] == 0x85 || s[1] == 0xA0) then 2
    else if |s| >= 3 && (s[0], s[1], s[2]) == (0xE1, 0x9A, 0x80) then 3
    else if |s| >= 3 && s[0] == 0xE2 && s[1] == 0x80
            && (0x80 <= s[2] <= 0x8A || s[2] == 0xA8 || s[2] == 0xA9 || s[2] == 0xAF) then 3
    else if |s| >= 3 && (s[0], s[1], s[2]) == (0xE2, 0x81, 0x9F) then 3
    else if |s| >= 3 && (s[0], s[1], s[2]) == (0xE3, 0x80, 0x80) then 3
    else 0
  }

  /** strings.TrimSpace(s) == "". */
  predicate Blank(s: Text) {
    s == [] || (SpaceWidth(s) > 0 && Blank(s[SpaceWidth(s)..]))
  }

  function StringFrame(value: Text): Frame {
    NewFrame(value)
  }

  function NullableStringFrame(value: Text): Frame {
    if Blank(value) then NULL_FRAME else StringFrame(value)
  }

  /** What a nullable string is after a trip over the wire. */
  function Normalized(value: Text): Text {
    if Blank(value) then [] else value
  }

  method EncodeString(message: ClientMessage, value: Text)
    modifies message
    ensures message.frames == old(message.frames) + [StringFrame(value)]
  {
    message.AddFrame(NewFrame(value));
  }

  method EncodeNullableForString(message: ClientMessage, value: Text)
    modifies message
    ensures message.frames == old(message.frames) + [NullableStringFrame(value)]
  {
    if Blank(value) {
      message.AddFrame(NULL_FRAME);
    } else {
      EncodeString(message, value);
    }
  }

  function StringIn(fs: seq<Frame>): Parse<Text> {
    var (frame, rest) :- NextFrame(fs);
    Parsed(frame.content, rest)
  }

  function NullFrameIn(fs: seq<Frame>): Parse<bool> {
    var (frame, _) :- PeekFrame(fs);
    if frame.IsNullFrame() then Parsed(true, fs[1..]) else Parsed(false, fs)
  }

  function NullableStringIn(fs: seq<Frame>): Parse<Text> {
    var (isNull, rest) :- NullFrameIn(fs);
    if isNull then Parsed([], rest) else StringIn(rest)
  }

  method DecodeString(it: ForwardFrameIterator) returns (r: Option<Text>)
    requires it.Valid()
    modifies it
    ensures it.Valid() && it.Follows(r, StringIn(old(it.Rest())))
  {
    var frame :- it.Next();
    r := Some(frame.content);
  }

  method NextFrameIsNullFrame(it: ForwardFrameIterator) returns (r: Option<bool>)
    requires it.Valid()
    modifies it
    ensures it.Valid() && it.Follows(r, NullFrameIn(old(it.Rest())))
  {
    var frame :- it.PeekNext();
    if frame.IsNullFrame() {
      var _ := it.Next();
    }
    r := Some(frame.IsNullFrame());
  }

  method DecodeNullableForString(it: ForwardFrameIterator) returns (r: Option<Text>)
    requires it.Valid()
    modifies it
    ensures it.Valid() && it.Follows(r, NullableStringIn(old(it.Rest())))
  {
    var isNull :- NextFrameIsNullFrame(it);
    if isNull {
      return Some([]);
    }
    r := DecodeString(it);
  }

  /** A nullable string comes back unless it was blank, in which case the empty string does. */
  lemma NullableStringRoundTrip(value: Text, rest: seq<Frame>)
    ensures NullableStringIn([NullableStringFrame(value)] + rest) == Parsed(Normalized(value), rest)
    ensures Normalized(value) == value <==> value == [] || !Blank(value)
  {
    assert ([NullableStringFrame(value)] + rest)[1..] == rest;
  }

  // ---------- skipping to the end of a structure ----------

  /** What one frame adds to the nesting depth; the end flag is looked at first. */
  function Delta(frame: Frame): int {
    if frame.IsEndFrame() then -1 else if frame.IsBeginFrame() then 1 else 0
  }

  function Net(fs: seq<Frame>): int {
    if fs == [] then 0 else Net(fs[..|fs| - 1]) + Delta(fs[|fs| - 1])
  }

  /** The frames left once depth structures have been closed. */
  function FastForward(fs: seq<Frame>, depth: nat): (p: Parse<()>)
    ensures p.Parsed? ==> |p.rest| <= |fs|
    ensures p.Parsed? && depth > 0 ==> |p.rest| < |fs|
    decreases |fs|
  {
    if depth == 0 then Parsed((), fs)
    else if fs == [] then Panic
    else FastForward(fs[1..], depth + Delta(fs[0]))
  }

  method FastForwardToEndFrame(it: ForwardFrameIterator) returns (r: Option<()>)
    requires it.Valid()
    modifies it
    ensures it.Valid() && it.Follows(r, FastForward(old(it.Rest()), 1))
  {
    var expectedEndFrames := 1;
    while expectedEndFrames != 0
      invariant it.Valid() && expectedEndFrames >= 0
      invariant FastForward(it.Rest(), expectedEndFrames) == FastForward(old(it.Rest()), 1)
      decreases |it.Rest()|, expectedEndFrames
    {
      var frame :- it.Next();
      if frame.IsEndFrame() {
        expectedEndFrames := expectedEndFrames - 1;
      } else if frame.IsBeginFrame() {
        expectedEndFrames := expectedEndFrames + 1;
      }
    }
    r := Some(());
  }

  /** Position n is just past the first frame that closes depth more structures than were opened. */
  ghost predicate ClosesAt(fs: seq<Frame>, depth: nat, n: nat) {
    n <= |fs| && Net(fs[..n]) + depth == 0 && forall m :: 0 <= m < n ==> Net(fs[..m]) + depth > 0
  }

  lemma {:induction false} NetAppend(a: seq<Frame>, b: seq<Frame>)
    ensures Net(a + b) == Net(a) + Net(b)
  {
    if b == [] {
      assert a + b == a;
    } else {
      assert (a + b)[..|a + b| - 1] == a + b[..|b| - 1];
      NetAppend(a, b[..|b| - 1]);
    }
  }

  lemma NetPrefix(fs: seq<Frame>, m: nat)
    requires 0 < m <= |fs|
    ensures Net(fs[..m]) == Delta(fs[0]) + Net(fs[1..][..m - 1])
  {
    assert fs[..m] == [fs[0]] + fs[1..][..m - 1];
    NetAppend([fs[0]], fs[1..][..m - 1]);
    assert [fs[0]][..0] == [];
    assert Net([fs[0]]) == Delta(fs[0]);
  }

  /**
   Skipping ends normally exactly when some prefix closes the structure, and then it stops at
   the first such place: never short of the matching end frame and never past it.
   */
  lemma {:induction false} FastForwardExact(fs: seq<Frame>, depth: nat, n: nat)
    requires n <= |fs|
    ensures FastForward(fs, depth) == Parsed((), fs[n..]) <==> ClosesAt(fs, depth, n)
    decreases |fs|
  {
    if depth == 0 {
      assert fs[..0] == [];
      if n != 0 { assert |fs[n..]| != |fs|; }
    } else if fs == [] {
      assert fs[..n] == [];
    } else if n == 0 {
      assert fs[..0] == [];
    } else {
      var tail, d := fs[1..], depth + Delta(fs[0]);
      FastForwardExact(tail, d, n - 1);
      assert fs[n..] == tail[n - 1..];
      NetPrefix(fs, n);
      forall m | 0 < m < n
        ensures Net(fs[..m]) == Delta(fs[0]) + Net(tail[..m - 1])
      {
        NetPrefix(fs, m);
      }
      assert fs[..0] == [];
      if ClosesAt(tail, d, n - 1) {
        forall m | 0 <= m < n ensures Net(fs[..m]) + depth > 0 {
          if m > 0 { assert Net(tail[..m - 1]) + d > 0; }
        }
      }
      if ClosesAt(fs, depth, n) {
        forall m | 0 <= m < n - 1 ensures Net(tail[..m]) + d > 0 {
          assert Net(fs[..m + 1]) + depth > 0;
        }
      }
    }
  }

  /** Frames in which every structure that is opened is closed again, and nothing else is. */
  ghost predicate WellNested(fs: seq<Frame>) {
    Net(fs) == 0 && forall m :: 0 <= m <= |fs| ==> Net(fs[..m]) >= 0
  }

  /** Unknown well-nested frames before the end frame are skipped, and nothing after it is. */
  lemma SkipsUnknownFrames(extra: seq<Frame>, rest: seq<Frame>)
    requires WellNested(extra)
    ensures FastForward(extra + [END_FRAME] + rest, 1) == Parsed((), rest)
  {
    var fs, n := extra + [END_FRAME] + rest, |extra| + 1;
    forall m | 0 <= m < n ensures Net(fs[..m]) + 1 > 0 {
      assert fs[..m] == extra[..m];
    }
    assert fs[..n] == extra + [END_FRAME];
    NetAppend(extra, [END_FRAME]);
    assert [END_FRAME][..0] == [];
    FastForwardExact(fs, 1, n);
    assert fs[n..] == rest;
  }

  // ---------- lists and maps of strings ----------

  function StringFrames(values: seq<Text>): (fs: seq<Frame>)
    ensures |fs| == |values|
    ensures forall i :: 0 <= i < |fs| ==> fs[i] == StringFrame(values[i])
  {
    seq(|values|, i requires 0 <= i < |values| => StringFrame(values[i]))
  }

  method EncodeListMultiFrameForString(message: ClientMessage, values: seq<Text>)
    modifies message
    ensures message.frames == old(message.frames) + [BEGIN_FRAME] + StringFrames(values) + [END_FRAME]
  {
    message.AddFrame(BEGIN_FRAME);
    for i := 0 to |values|
      invariant message.frames == old(message.frames) + [BEGIN_FRAME] + StringFrames(values)[..i]
    {
      EncodeString(message, values[i]);
    }
    message.AddFrame(END_FRAME);
  }

  /**
   The items that the decoder finds up to the next end frame, which is consumed. A decoder
   that consumes nothing would loop forever; none does, and the case is counted as a panic.
   */
  function ItemsIn<T>(decoder: seq<Frame> -> Parse<T>, fs: seq<Frame>): Parse<seq<T>>
    decreases |fs|
  {
    var (frame, _) :- PeekFrame(fs);
    if frame.IsEndFrame() then Parsed([], fs[1..])
    else
      var (item, fs1) :- decoder(fs);
      if |fs1| >= |fs| then Panic
      else
        var (items, fs2) :- ItemsIn(decoder, fs1);
        Parsed([item] + items, fs2)
  }

  function ListIn<T>(decoder: seq<Frame> -> Parse<T>, fs: seq<Frame>): Parse<seq<T>> {
    var (_, rest) :- NextFrame(fs);
    ItemsIn(decoder, rest)
  }

  /** Where a decoding loop stands: done has been read and fs is ahead. */
  ghost predicate ListProgress<T>(decoder: seq<Frame> -> Parse<T>, start: seq<Frame>, done: seq<T>, fs: seq<Frame>) {
    var whole, ahead := ItemsIn(decoder, start), ItemsIn(decoder, fs);
    && (whole.Panic? <==> ahead.Panic?)
    && (whole.Parsed? ==> whole.value == done + ahead.value && whole.rest == ahead.rest)
  }

  lemma ListStep<T>(decoder: seq<Frame> -> Parse<T>, start: seq<Frame>, done: seq<T>, fs: seq<Frame>)
    requires ListProgress(decoder, start, done, fs)
    requires fs != [] && !fs[0].IsEndFrame() && (decoder(fs).Parsed? ==> |decoder(fs).rest| < |fs|)
    ensures decoder(fs).Parsed? ==> ListProgress(decoder, start, done + [decoder(fs).value], decoder(fs).rest)
    ensures decoder(fs).Panic? ==> ItemsIn(decoder, start).Panic?
  {
    var p := decoder(fs);
    if p.Parsed? && ItemsIn(decoder, p.rest).Parsed? {
      var items := ItemsIn(decoder, p.rest).value;
      assert done + ([p.value] + items) == done + [p.value] + items;
    }
  }

  /** The decoder reads part as value wherever it stands, and part is not an end frame. */
  ghost predicate ReadsAs<T>(decoder: seq<Frame> -> Parse<T>, part: seq<Frame>, value: T) {
    && part != [] && !part[0].IsEndFrame()
    && forall after :: decoder(part + after) == Parsed(value, after)
  }

  lemma {:induction false} ItemsReadBack<T>(decoder: seq<Frame> -> Parse<T>, parts: seq<seq<Frame>>, values: seq<T>,
                                            rest: seq<Frame>)
    requires |parts| == |values| && forall i :: 0 <= i < |parts| ==> ReadsAs(decoder, parts[i], values[i])
    ensures ItemsIn(decoder, Concat(parts) + [END_FRAME] + rest) == Parsed(values, rest)
  {
    var fs := Concat(parts) + [END_FRAME] + rest;
    if parts == [] {
      assert fs[1..] == rest;
    } else {
      var after := Concat(parts[1..]) + [END_FRAME] + rest;
      assert fs == parts[0] + after;
      ItemsReadBack(decoder, parts[1..], values[1..], rest);
      assert ReadsAs(decoder, parts[0], values[0]);
      assert decoder(fs) == Parsed(values[0], after);
      assert [values[0]] + values[1..] == values;
    }
  }

  /** A list of parts that each read as a value reads as the list of the values, and nothing more is read. */
  lemma ListReadBack<T>(decoder: seq<Frame> -> Parse<T>, parts: seq<seq<Frame>>, values: seq<T>, rest: seq<Frame>)
    requires |parts| == |values| && forall i :: 0 <= i < |parts| ==> ReadsAs(decoder, parts[i], values[i])
    ensures ListIn(decoder, [BEGIN_FRAME] + Concat(parts) + [END_FRAME] + rest) == Parsed(values, rest)
  {
    ItemsReadBack(decoder, parts, values, rest);
    assert ([BEGIN_FRAME] + Concat(parts) + [END_FRAME] + rest)[1..] == Concat(parts) + [END_FRAME] + rest;
  }

  method DecodeListMultiFrameForString(it: ForwardFrameIterator) returns (r: Option<seq<Text>>)
    requires it.Valid()
    modifies it
    ensures it.Valid() && it.Follows(r, ListIn(StringIn, old(it.Rest())))
  {
    var result := [];
    var _ :- it.Next();
    ghost var start := it.Rest();
    assert ListProgress(StringIn, start, [], start);
    while true
      invariant it.Valid() && ListProgress(StringIn, start, result, it.Rest())
      decreases |it.Rest()|
    {
      var frame :- it.PeekNext();
      if frame.IsEndFrame() {
        break;
      }
      ListStep(StringIn, start, result, it.Rest());
      var s := DecodeString(it);
      result := result + [s.value];
    }
    assert result + [] == result;
    var _ := it.Next();
    r := Some(result);
  }

  lemma StringListRoundTrip(values: seq<Text>, rest: seq<Frame>)
    ensures ListIn(StringIn, [BEGIN_FRAME] + StringFrames(values) + [END_FRAME] + rest) == Parsed(values, rest)
  {
    var parts := seq(|values|, i requires 0 <= i < |values| => [StringFrame(values[i])]);
    forall i | 0 <= i < |values| ensures ReadsAs(StringIn, parts[i], values[i]) {
      forall after: seq<Frame> ensures StringIn(parts[i] + after) == Parsed(values[i], after) {
        assert (parts[i] + after)[1..] == after;
      }
    }
    ConcatSingletons(StringFrames(values), parts);
    ListReadBack(StringIn, parts, values, rest);
  }

  lemma {:induction false} ConcatSingletons(fs: seq<Frame>, parts: seq<seq<Frame>>)
    requires |fs| == |parts| && forall i :: 0 <= i < |fs| ==> parts[i] == [fs[i]]
    ensures Concat(parts) == fs
  {
    if parts != [] {
      ConcatSingletons(fs[1..], parts[1..]);
    }
  }

  /** The keys and values of a map in some order of its keys. */
  function PairList(keys: seq<Text>, m: map<Text, Text>): seq<Text>
    requires forall k :: k in keys ==> k in m
  {
    if keys == [] then [] else [keys[0], m[keys[0]]] + PairList(keys[1..], m)
  }

  ghost predicate IsOrderOf(keys: seq<Text>, m: map<Text, Text>) {
    && (forall k :: k in keys <==> k in m)
    && (forall i, j :: 0 <= i < j < |keys| ==> keys[i] != keys[j])
  }

  function MapFrames(keys: seq<Text>, m: map<Text, Text>): seq<Frame>
    requires forall k :: k in keys ==> k in m
  {
    [BEGIN_FRAME] + StringFrames(PairList(keys, m)) + [END_FRAME]
  }

  lemma {:induction false} PairListSnoc(keys: seq<Text>, k: Text, m: map<Text, Text>)
    requires k in m && forall k' :: k' in keys ==> k' in m
    ensures PairList(keys + [k], m) == PairList(keys, m) + [k, m[k]]
  {
    if keys == [] {
      assert PairList([k][1..], m) == [];
    } else {
      assert (keys + [k])[1..] == keys[1..] + [k];
      PairListSnoc(keys[1..], k, m);
    }
  }

  lemma PairsAfter(keys: seq<Text>, k: Text, m: map<Text, Text>)
    requires k in m && forall k' :: k' in keys ==> k' in m
    ensures StringFrames(PairList(keys + [k], m))
         == StringFrames(PairList(keys, m)) + [StringFrame(k), StringFrame(m[k])]
  {
    PairListSnoc(keys, k, m);
  }

  /** Go visits a map in any order, so the order is part of the outcome. */
  method EncodeMapForStringAndString(message: ClientMessage, values: map<Text, Text>) returns (ghost keys: seq<Text>)
    modifies message
    ensures IsOrderOf(keys, values)
    ensures message.frames == old(message.frames) + MapFrames(keys, values)
  {
    hide StringFrames, PairList;
    message.AddFrame(BEGIN_FRAME);
    keys := [];
    NoPairs(values);
    var todo := values.Keys;
    while todo != {}
      invariant todo <= values.Keys
      invariant forall k :: k in keys <==> k in values && k !in todo
      invariant forall i, j :: 0 <= i < j < |keys| ==> keys[i] != keys[j]
      invariant message.frames == old(message.frames) + [BEGIN_FRAME] + StringFrames(PairList(keys, values))
      decreases |todo|
    {
      var key :| key in todo;
      EncodeString(message, key);
      EncodeString(message, values[key]);
      PairsAfter(keys, key, values);
      keys := keys + [key];
      todo := todo - {key};
    }
    message.AddFrame(END_FRAME);
  }

  /** The entries up to the next end frame, each read over the ones in acc. */
  function EntriesIn(fs: seq<Frame>, acc: map<Text, Text>): Parse<map<Text, Text>> {
    if fs == [] then Panic
    else if fs[0].IsEndFrame() then Parsed(acc, fs[1..])
    else if |fs| == 1 then Panic
    else EntriesIn(fs[2..], acc[fs[0].content := fs[1].content])
  }

  function MapIn(fs: seq<Frame>): Parse<map<Text, Text>> {
    var (_, rest) :- NextFrame(fs);
    EntriesIn(rest, map[])
  }

  method DecodeMapForStringAndString(it: ForwardFrameIterator) returns (r: Option<map<Text, Text>>)
    requires it.Valid()
    modifies it
    ensures it.Valid() && it.Follows(r, MapIn(old(it.Rest())))
  {
    var result := map[];
    var _ :- it.Next();
    ghost var start := it.Rest();
    while true
      invariant it.Valid()
      invariant EntriesIn(start, map[]) == EntriesIn(it.Rest(), result)
      decreases |it.Rest()|
    {
      var frame :- it.PeekNext();
      if frame.IsEndFrame() {
        break;
      }
      var key := DecodeString(it);
      var value :- DecodeString(it);
      result := result[key.value := value];
    }
    var _ := it.Next();
    r := Some(result);
  }

  /** Whatever order the entries were written in, the same map is read back. */
  lemma MapRoundTrip(keys: seq<Text>, m: map<Text, Text>, rest: seq<Frame>)
    requires IsOrderOf(keys, m)
    ensures MapIn(MapFrames(keys, m) + rest) == Parsed(m, rest)
  {
    var fs := MapFrames(keys, m) + rest;
    assert fs[1..] == StringFrames(PairList(keys, m)) + [END_FRAME] + rest;
    EntriesRoundTrip(keys, m, map[], rest);
    assert map[] + (map k | k in keys :: m[k]) == m;
  }

  lemma {:induction false} EntriesRoundTrip(keys: seq<Text>, m: map<Text, Text>, acc: map<Text, Text>, rest: seq<Frame>)
    requires forall k :: k in keys ==> k in m
    ensures EntriesIn(StringFrames(PairList(keys, m)) + [END_FRAME] + rest, acc)
         == Parsed(acc + (map k | k in keys :: m[k]), rest)
  {
    hide EntriesIn, PairList, StringFrames;
    var after, all := [END_FRAME] + rest, map k | k in keys :: m[k];
    var fs := StringFrames(PairList(keys, m)) + after;
    assert StringFrames(PairList(keys, m)) + [END_FRAME] + rest == fs;
    if keys == [] {
      NoPairs(m);
      assert fs == [END_FRAME] + rest && fs[1..] == rest;
      EntriesEnd(fs, acc);
      NothingAdded(acc, all);
    } else {
      var key, tail := keys[0], keys[1..];
      PairsNext(keys, m);
      var more := StringFrames(PairList(tail, m)) + [END_FRAME] + rest;
      assert fs == [StringFrame(key), StringFrame(m[key])] + more;
      EntriesNext(key, m[key], more, acc);
      EntriesRoundTrip(tail, m, acc[key := m[key]], rest);
      assert acc[key := m[key]] + (map k | k in tail :: m[k]) == acc + all;
    }
  }

  lemma NothingAdded(acc: map<Text, Text>, more: map<Text, Text>)
    requires more.Keys == {}
    ensures acc + more == acc
  {
  }

  lemma NoPairs(m: map<Text, Text>)
    ensures StringFrames(PairList([], m)) == []
  {
  }

  lemma PairsNext(keys: seq<Text>, m: map<Text, Text>)
    requires keys != [] && forall k :: k in keys ==> k in m
    ensures StringFrames(PairList(keys, m))
         == [StringFrame(keys[0]), StringFrame(m[keys[0]])] + StringFrames(PairList(keys[1..], m))
  {
    FramesBoth([keys[0], m[keys[0]]], PairList(keys[1..], m));
  }

  lemma FramesBoth(a: seq<Text>, b: seq<Text>)
    ensures StringFrames(a + b) == StringFrames(a) + StringFrames(b)
  {
  }

  lemma EntriesEnd(fs: seq<Frame>, acc: map<Text, Text>)
    requires fs != [] && fs[0] == END_FRAME
    ensures EntriesIn(fs, acc) == Parsed(acc, fs[1..])
  {
  }

  lemma EntriesNext(key: Text, value: Text, more: seq<Frame>, acc: map<Text, Text>)
    ensures EntriesIn([StringFrame(key), StringFrame(value)] + more, acc) == EntriesIn(more, acc[key := value])
  {
    assert ([StringFrame(key), StringFrame(value)] + more)[2..] == more;
  }
}
