/**
 The bytes and frames of the codecs, field by field: which byte or frame holds what. Strings are
 blank when all their runes are spaces.
 */
module WireFormat {
  import opened Bytes
  import opened Codec
  import opened Frames
  import opened JobCodec
  import opened Sequences
  import opened Text
  import opened Wrappers

  // ---------- fields of fixed size ----------

  lemma BooleanIs(value: bool)
    ensures BooleanBytes(value) == if value then [1] else [0]
  {
  }

  /** Byte i of an int or a long is digit i to the base 256 of its two's complement. */
  lemma IntBytesAre(value: int32, i: nat)
    requires i < 4
    ensures IntBytes(value)[i] == value % TWO_32 / Pow256(i) % 256
  {
    hide LittleEndian, Pow256, ToUnsigned;
    UnsignedIs(value, TWO_32);
    LittleEndianAt(ToUnsigned(value, TWO_32), 4, i);
  }

  lemma LongBytesAre(value: int64, i: nat)
    requires i < 8
    ensures LongBytes(value)[i] == value % TWO_64 / Pow256(i) % 256
  {
    hide LittleEndian, Pow256, ToUnsigned;
    UnsignedIs(value, TWO_64);
    LittleEndianAt(ToUnsigned(value, TWO_64), 8, i);
  }

  lemma UnsignedIs(value: int, modulus: nat)
    requires modulus in {TWO_32, TWO_64} && value < modulus && value + modulus >= 0
    ensures ToUnsigned(value, modulus) == value % modulus
  {
  }

  /** A UUID is a flag that says whether it is the default one, and its halves, the upper one first. */
  lemma UUIDIs(buffer: seq<byte>, offset: nat, uuid: UUID)
    requires offset + 17 <= |buffer|
    ensures var b := UUIDWritten(buffer, offset, uuid);
            && b[offset] == (if uuid.mostSignificant == 0 && uuid.leastSignificant == 0 then 1 else 0)
            && (b[offset] == 0 ==>
                  && (forall i: nat :: i < 8 ==> b[offset + 1 + i] == uuid.mostSignificant / Pow256(i) % 256)
                  && (forall i: nat :: i < 8 ==> b[offset + 9 + i] == uuid.leastSignificant / Pow256(i) % 256))
  {
    hide LongBytes, Pow256;
    if !uuid.Default() {
      var b := UUIDWritten(buffer, offset, uuid);
      assert b[offset + 1..offset + 9] == LongBytes(AsInt64(uuid.mostSignificant));
      assert b[offset + 9..offset + 17] == LongBytes(AsInt64(uuid.leastSignificant));
      forall i: nat | i < 8
        ensures b[offset + 1 + i] == uuid.mostSignificant / Pow256(i) % 256
        ensures b[offset + 9 + i] == uuid.leastSignificant / Pow256(i) % 256
      {
        assert b[offset + 1 + i] == b[offset + 1..offset + 9][i];
        assert b[offset + 9 + i] == b[offset + 9..offset + 17][i];
        HalfAt(uuid.mostSignificant, i);
        HalfAt(uuid.leastSignificant, i);
      }
    }
  }

  lemma HalfAt(u: uint64, i: nat)
    requires i < 8
    ensures LongBytes(AsInt64(u))[i] == u / Pow256(i) % 256
  {
    LongBytesAre(AsInt64(u), i);
    assert AsInt64(u) % TWO_64 == u;
  }

  // ---------- frames ----------

  /** A key and its value are two frames in turn. */
  lemma {:induction false} MapFramesAre(keys: seq<Codec.Text>, m: map<Codec.Text, Codec.Text>, i: nat)
    requires (forall k :: k in keys ==> k in m) && i < |keys|
    ensures var fs := MapFrames(keys, m);
            && |fs| == 2 * |keys| + 2 && fs[0].IsBeginFrame() && fs[|fs| - 1].IsEndFrame()
            && fs[2 * i + 1] == NewFrame(keys[i]) && fs[2 * i + 2] == NewFrame(m[keys[i]])
  {
    PairsAre(keys, m, i);
  }

  lemma {:induction false} PairsAre(keys: seq<Codec.Text>, m: map<Codec.Text, Codec.Text>, i: nat)
    requires (forall k :: k in keys ==> k in m) && i < |keys|
    ensures var ps := PairList(keys, m);
            |ps| == 2 * |keys| && ps[2 * i] == keys[i] && ps[2 * i + 1] == m[keys[i]]
  {
    if i > 0 {
      PairsAre(keys[1..], m, i - 1);
    } else if |keys| > 1 {
      PairsAre(keys[1..], m, 0);
    }
  }

  /** The fields of a job: thirty-eight bytes, its texts, the summary of its query and the cause. */
  lemma JobFramesAre(j: JobAndSqlSummary)
    ensures var fs, b := JobFrames(j), FixedBytes(j) + BooleanBytes(j.userCancelled);
            && |fs| == 10 && fs[0] == fs[4] == BEGIN_FRAME && fs[7] == fs[9] == END_FRAME
            && fs[1] == NewFrame(b) && fs[2] == NewFrame(j.nameOrId)
            && fs[3] == NullableStringFrame(j.failureText) && fs[8] == NullableStringFrame(j.suspensionCause)
            && fs[5] == NewFrame([if j.sqlSummary.unbounded then 1 else 0]) && fs[6] == NewFrame(j.sqlSummary.query)
            && |b| == 38 && b[0] == (if j.lightJob then 1 else 0) && b[37] == (if j.userCancelled then 1 else 0)
            && b[1..9] == LongBytes(j.jobId) && b[9..17] == LongBytes(j.executionId)
            && b[17..21] == IntBytes(j.status)
            && b[21..29] == LongBytes(j.submissionTime) && b[29..37] == LongBytes(j.completionTime)
  {
    hide LongBytes, IntBytes, NullableStringFrame;
    FixedSlices(j, BooleanBytes(j.userCancelled));
  }

  lemma NullableFrameIs(value: Codec.Text)
    ensures NullableStringFrame(value) == if Blank(value) then Frame([], {IsNull}) else Frame(value, {})
  {
    hide Blank;
  }

  // ---------- blank strings ----------

  /** UTF-8, section 3 of RFC 3629. */
  function Utf8(c: char): (bs: seq<byte>)
    ensures 1 <= |bs| <= 4
  {
    var n := c as int;
    if n < 0x80 then [n]
    else if n < 0x800 then [0xC0 + n / 64, 0x80 + n % 64]
    else if n < 0x1_0000 then [0xE0 + n / 4096, 0x80 + n / 64 % 64, 0x80 + n % 64]
    else [0xF0 + n / 262144, 0x80 + n / 4096 % 64, 0x80 + n / 64 % 64, 0x80 + n % 64]
  }

  function Utf8All(s: string): seq<byte> {
    if s == "" then [] else Utf8(s[0]) + Utf8All(s[1..])
  }

  lemma SpaceIs(c: char, rest: seq<byte>)
    ensures SpaceWidth(Utf8(c) + rest) == if IsSpace(c) then |Utf8(c)| else 0
  {
    var s, n := Utf8(c) + rest, c as int;
    if n < 0x80 {
      assert s[0] == n;
    } else if n < 0x800 {
      assert s[0] == 0xC0 + n / 64 && s[1] == 0x80 + n % 64;
    } else if n < 0x1_0000 {
      assert s[0] == 0xE0 + n / 4096 && s[1] == 0x80 + n / 64 % 64 && s[2] == 0x80 + n % 64;
    } else {
      assert s[0] == 0xF0 + n / 262144;
    }
  }

  /** A text is blank exactly when all its runes are spaces. */
  lemma {:induction false} BlankExactly(s: string)
    ensures Blank(Utf8All(s)) <==> forall c :: c in s ==> IsSpace(c)
  {
    hide Utf8, SpaceWidth, IsSpace;
    if s != "" {
      var rest := Utf8All(s[1..]);
      SpaceIs(s[0], rest);
      BlankExactly(s[1..]);
      assert s == [s[0]] + s[1..];
      assert (Utf8(s[0]) + rest)[|Utf8(s[0])|..] == rest;
    }
  }
}
