/**
 The upload of a job: the loop of SubmitJob in internal/jet/job.go and the batches of
 internal/jet/util.go. The file is read through one buffer that every part reuses.

 The hash of a part is a library function, given here by its hexadecimal text.
 */
module Upload {

  import opened Bytes

  datatype Part = Part(no: nat, total: nat, data: seq<byte>, hash: string)

  // ---------- the reader ----------

  datatype Error = NoError | Eof | ReadError

  /** What a batch is made of, or why there is none. */
  datatype Outcome = Got(n: nat) | EndOfFile | Failed

  function Min(a: nat, b: nat): nat {
    if a < b then a else b
  }

  /**
   A file and how it is read. How many bytes one read delivers, whether it fails, and whether the
   read that delivers the last bytes already reports the end may depend on the position.
   */
  datatype File = File(content: seq<byte>, grant: nat -> nat, fails: nat -> bool, eager: nat -> bool) {

    /** At least one byte, and never more than fit or remain. */
    function Delivered(pos: nat, size: nat): (n: nat)
      requires pos < |content| && size > 0
      ensures 0 < n <= Min(size, |content| - pos)
    {
      if grant(pos) == 0 then 1 else Min(Min(size, |content| - pos), grant(pos))
    }

    /** What the batch at the position is. Bytes that come with an error are dropped. */
    function Outcome(pos: nat, size: nat): (r: Outcome)
      requires pos <= |content| && size > 0
      ensures r.Got? ==> 0 < r.n <= Min(size, |content| - pos)
    {
      if fails(pos) then Failed
      else if pos == |content| then EndOfFile
      else
        var n := Delivered(pos, size);
        if pos + n == |content| && eager(pos) then EndOfFile else Got(n)
    }
  }

  class Reader {
    const file: File
    var pos: nat

    ghost predicate Valid()
      reads this
    {
      pos <= |file.content|
    }

    constructor (file: File)
      ensures Valid() && pos == 0 && this.file == file
    {
      this.file := file;
      pos := 0;
    }

    method Read(buf: array<byte>) returns (n: nat, err: Error)
      requires Valid() && buf.Length > 0
      modifies this, buf
      ensures Valid() && pos == old(pos) + n && n <= buf.Length
      ensures buf[..n] == file.content[old(pos)..pos]
      ensures file.Outcome(old(pos), buf.Length)
           == match err case NoError => Got(n) case Eof => EndOfFile case ReadError => Failed
    {
      if file.fails(pos) {
        return 0, ReadError;
      }
      if pos == |file.content| {
        return 0, Eof;
      }
      n := file.Delivered(pos, buf.Length);
      forall i | 0 <= i < n {
        buf[i] := file.content[pos + i];
      }
      err := if pos + n == |file.content| && file.eager(pos) then Eof else NoError;
      pos := pos + n;
    }
  }

  // ---------- batches ----------

  class BinBatch {
    const reader: Reader
    const buf: array<byte>
    const hash: seq<byte> -> string
    const workaround: bool

    constructor (reader: Reader, batchSize: nat, hash: seq<byte> -> string, workaround: bool)
      requires batchSize > 0
      ensures this.reader == reader && this.hash == hash && this.workaround == workaround
      ensures fresh(buf) && buf.Length == batchSize
    {
      this.reader := reader;
      this.hash := hash;
      this.workaround := workaround;
      buf := new byte[batchSize];
    }

    /** The bytes stay in the buffer: they are good only until the next call. */
    method Next() returns (r: Outcome)
      requires reader.Valid() && buf.Length > 0
      modifies reader, buf
      ensures reader.Valid() && r == reader.file.Outcome(old(reader.pos), buf.Length)
      ensures r.Got? ==> reader.pos == old(reader.pos) + r.n
      ensures r.Got? ==> buf[..r.n] == reader.file.content[old(reader.pos)..reader.pos]
    {
      var n, err := reader.Read(buf);
      if err != NoError {
        return if err == Eof then EndOfFile else Failed;
      }
      return Got(n);
    }
  }

  function PartCount(size: nat, partSize: nat): nat
    requires partSize > 0
  {
    size / partSize + if size % partSize == 0 then 0 else 1
  }

  /** The part count is the least number of parts that hold the size. */
  lemma PartCountIsLeast(size: nat, partSize: nat)
    requires partSize > 0
    ensures PartCount(size, partSize) * partSize >= size
    ensures PartCount(size, partSize) > 0 ==> (PartCount(size, partSize) - 1) * partSize < size
  {
    var q := size / partSize;
    assert size == q * partSize + size % partSize;
    assert (q + 1) * partSize == q * partSize + partSize;
    assert (q - 1) * partSize == q * partSize - partSize;
  }

  // ---------- the upload ----------

  function TrimZeros(s: string): string {
    if s != "" && s[0] == '0' then TrimZeros(s[1..]) else s
  }

  /** The data of the parts, one after the other. */
  function Joined(ps: seq<Part>): seq<byte> {
    if ps == [] then [] else ps[0].data + Joined(ps[1..])
  }

  /** The cluster takes the parts of one job, in the order in which they arrive. */
  class Member {
    const refuses: Part -> bool
    var received: seq<Part>

    constructor (refuses: Part -> bool)
      ensures received == [] && this.refuses == refuses
    {
      this.refuses := refuses;
      received := [];
    }

    method Invoke(part: Part) returns (ok: bool)
      modifies this
      ensures ok <==> !refuses(part)
      ensures received == old(received) + if ok then [part] else []
    {
      ok := !refuses(part);
      if ok {
        received := received + [part];
      }
    }
  }

  /** How the loop can end. */
  datatype Ending = Done | ReadFailed | Refused

  /** All that the outcome of an upload depends on. */
  datatype Job = Job(file: File, refuses: Part -> bool, batchSize: nat, hash: seq<byte> -> string, workaround: bool)
  {
    predicate Valid() {
      batchSize > 0
    }

    function HashText(data: seq<byte>): string {
      if workaround then TrimZeros(hash(data)) else hash(data)
    }

    function Outcome(pos: nat): Outcome
      requires Valid() && pos <= |file.content|
    {
      file.Outcome(pos, batchSize)
    }

    /** The part with the n bytes at the position. */
    function MakePart(pos: nat, n: nat, i: nat, total: nat): Part
      requires pos + n <= |file.content|
    {
      Part(i + 1, total, file.content[pos..pos + n], HashText(file.content[pos..pos + n]))
    }
  }

  /** The parts that arrive after i of them, with the reader at the position. */
  function Parts(job: Job, pos: nat, i: nat, total: nat): seq<Part>
    requires job.Valid() && pos <= |job.file.content| && i <= total
    decreases total - i
  {
    if i == total || !job.Outcome(pos).Got? then []
    else
      var n := job.Outcome(pos).n;
      var part := job.MakePart(pos, n, i, total);
      if job.refuses(part) then [] else [part] + Parts(job, pos + n, i + 1, total)
  }

  function End(job: Job, pos: nat, i: nat, total: nat): Ending
    requires job.Valid() && pos <= |job.file.content| && i <= total
    decreases total - i
  {
    if i == total || job.Outcome(pos).EndOfFile? then Done
    else if job.Outcome(pos).Failed? then ReadFailed
    else
      var n := job.Outcome(pos).n;
      if job.refuses(job.MakePart(pos, n, i, total)) then Refused else End(job, pos + n, i + 1, total)
  }

  lemma Unfold(job: Job, pos: nat, i: nat, total: nat)
    requires job.Valid() && pos <= |job.file.content| && i < total
    ensures Parts(job, pos, i, total) ==
            if !job.Outcome(pos).Got? || job.refuses(job.MakePart(pos, job.Outcome(pos).n, i, total)) then []
            else
              [job.MakePart(pos, job.Outcome(pos).n, i, total)] + Parts(job, pos + job.Outcome(pos).n, i + 1, total)
    ensures End(job, pos, i, total) ==
            if job.Outcome(pos).EndOfFile? then Done
            else if job.Outcome(pos).Failed? then ReadFailed
            else if job.refuses(job.MakePart(pos, job.Outcome(pos).n, i, total)) then Refused
            else End(job, pos + job.Outcome(pos).n, i + 1, total)
  {
  }

  lemma HashTextIs(job: Job, data: seq<byte>)
    ensures var h := job.hash(data);
            job.HashText(data) == if job.workaround && h != "" && h[0] == '0' then TrimZeros(h) else h
  {
  }

  /** One batch: how the read went, and whether the member took the part. */
  method SendPart(ghost job: Job, bb: BinBatch, member: Member, i: nat, pc: nat) returns (r: Outcome, taken: bool)
    requires job.Valid() && bb.reader.Valid() && bb.buf.Length == job.batchSize
    requires job.file == bb.reader.file && job.refuses == member.refuses && job.hash == bb.hash
    requires job.workaround == bb.workaround
    modifies bb.reader, bb.buf, member
    ensures bb.reader.Valid() && r == job.Outcome(old(bb.reader.pos))
    ensures r.Got? ==> bb.reader.pos == old(bb.reader.pos) + r.n
    ensures taken <==> r.Got? && !job.refuses(job.MakePart(old(bb.reader.pos), r.n, i, pc))
    ensures member.received
         == old(member.received) + if taken then [job.MakePart(old(bb.reader.pos), r.n, i, pc)] else []
  {
    hide TrimZeros;
    r := bb.Next();
    if !r.Got? {
      return r, false;
    }
    var bin := bb.buf[..r.n];
    var hash := bb.hash(bin);
    if bb.workaround && hash != "" && hash[0] == '0' {
      hash := TrimZeros(hash);
    }
    HashTextIs(job, bin);
    taken := member.Invoke(Part(i + 1, pc, bin, hash));
  }

  method SubmitJob(reader: Reader, member: Member, fileSize: nat, batchSize: nat, hash: seq<byte> -> string,
                   workaround: bool)
    returns (ending: Ending)
    requires reader.Valid() && reader.pos == 0 && member.received == [] && batchSize > 0
    modifies reader, member
    ensures var job := Job(reader.file, member.refuses, batchSize, hash, workaround);
            && member.received == Parts(job, 0, 0, PartCount(fileSize, batchSize))
            && ending == End(job, 0, 0, PartCount(fileSize, batchSize))
  {
    hide PartCount, OnTrack, Job.MakePart, Job.Outcome;
    var pc := PartCount(fileSize, batchSize);
    ghost var job := Job(reader.file, member.refuses, batchSize, hash, workaround);
    var bb := new BinBatch(reader, batchSize, hash, workaround);
    var i := 0;
    StartsOnTrack(job, pc);
    while i < pc
      invariant reader.Valid() && i <= pc
      invariant OnTrack(job, member.received, reader.pos, i, pc)
    {
      EndsOrGoesOn(job, member.received, reader.pos, i, pc);
      var r, taken := SendPart(job, bb, member, i, pc);
      if r == EndOfFile {
        return Done;
      }
      if r == Failed {
        return ReadFailed;
      }
      if !taken {
        return Refused;
      }
      i := i + 1;
    }
    AllSent(job, member.received, reader.pos, pc);
    return Done;
  }

  /** What has been sent and what follows is all there is to send. */
  ghost predicate OnTrack(job: Job, sent: seq<Part>, pos: nat, i: nat, pc: nat) {
    && job.Valid() && pos <= |job.file.content| && i <= pc
    && sent + Parts(job, pos, i, pc) == Parts(job, 0, 0, pc)
    && End(job, pos, i, pc) == End(job, 0, 0, pc)
  }

  lemma StartsOnTrack(job: Job, pc: nat)
    requires job.Valid()
    ensures OnTrack(job, [], 0, 0, pc)
  {
    hide Parts, End;
    assert [] + Parts(job, 0, 0, pc) == Parts(job, 0, 0, pc);
  }

  lemma EndsOrGoesOn(job: Job, sent: seq<Part>, pos: nat, i: nat, pc: nat)
    requires OnTrack(job, sent, pos, i, pc) && i < pc
    ensures var r := job.Outcome(pos);
            if !r.Got? || job.refuses(job.MakePart(pos, r.n, i, pc))
            then
              && sent == Parts(job, 0, 0, pc)
              && End(job, 0, 0, pc) == if r.EndOfFile? then Done else if r.Failed? then ReadFailed else Refused
            else OnTrack(job, sent + [job.MakePart(pos, r.n, i, pc)], pos + r.n, i + 1, pc)
  {
    hide Parts, End, Job.MakePart;
    Unfold(job, pos, i, pc);
    var r := job.Outcome(pos);
    if !r.Got? || job.refuses(job.MakePart(pos, r.n, i, pc)) {
      assert sent + [] == sent;
    } else {
      Regroup(sent, job.MakePart(pos, r.n, i, pc), Parts(job, pos + r.n, i + 1, pc));
    }
  }

  lemma AllSent(job: Job, sent: seq<Part>, pos: nat, pc: nat)
    requires OnTrack(job, sent, pos, pc, pc)
    ensures sent == Parts(job, 0, 0, pc) && End(job, 0, 0, pc) == Done
  {
    hide Parts, End;
    NothingMore(job, pos, pc);
    assert sent + [] == sent;
  }

  lemma Regroup(sent: seq<Part>, part: Part, rest: seq<Part>)
    ensures sent + [part] + rest == sent + ([part] + rest)
  {
  }

  lemma NothingMore(job: Job, pos: nat, total: nat)
    requires job.Valid() && pos <= |job.file.content|
    ensures Parts(job, pos, total, total) == [] && End(job, pos, total, total) == Done
  {
  }

  // ---------- what arrives ----------

  /** Each part says where it belongs and fits the buffer. */
  ghost predicate Numbered(job: Job, ps: seq<Part>, i: nat, total: nat) {
    forall k :: 0 <= k < |ps| ==>
      && ps[k].no == i + k + 1 && ps[k].total == total
      && 0 < |ps[k].data| <= job.batchSize
      && ps[k].hash == job.HashText(ps[k].data)
  }

  lemma NumberedCons(job: Job, part: Part, rest: seq<Part>, i: nat, total: nat)
    requires Numbered(job, [part], i, total) && Numbered(job, rest, i + 1, total)
    ensures Numbered(job, [part] + rest, i, total)
  {
    var all := [part] + rest;
    forall k | 0 <= k < |all|
      ensures && all[k].no == i + k + 1 && all[k].total == total && 0 < |all[k].data| <= job.batchSize
              && all[k].hash == job.HashText(all[k].data)
    {
      assert [part][0] == part;
      if k > 0 { assert all[k] == rest[k - 1]; }
    }
  }

  /**
   With any reader the parts are consecutive pieces of the file, although they all passed through
   the same buffer. If the upload ends before all parts have been sent, the file has ended too,
   or its last bytes came together with its end and were dropped.
   */
  lemma {:induction false} PartsArePieces(job: Job, pos: nat, i: nat, total: nat) returns (end: nat)
    requires job.Valid() && pos <= |job.file.content| && i <= total
    ensures pos <= end <= |job.file.content|
    ensures |Parts(job, pos, i, total)| <= total - i && Numbered(job, Parts(job, pos, i, total), i, total)
    ensures Joined(Parts(job, pos, i, total)) == job.file.content[pos..end]
    ensures End(job, pos, i, total) == Done && |Parts(job, pos, i, total)| < total - i ==>
              end == |job.file.content| || job.file.eager(end)
    decreases total - i
  {
    hide Numbered, Joined, Parts, End;
    end := pos;
    if i < total { Unfold(job, pos, i, total); } else { NothingMore(job, pos, total); }
    if i < total && job.Outcome(pos).Got? {
      var n := job.Outcome(pos).n;
      var part := job.MakePart(pos, n, i, total);
      if !job.refuses(part) {
        end := PartsArePieces(job, pos + n, i + 1, total);
        var rest := Parts(job, pos + n, i + 1, total);
        JoinedCons(part, rest);
        OneNumbered(job, pos, n, i, total);
        NumberedCons(job, part, rest, i, total);
        TwoSlices(job.file.content, pos, pos + n, end);
      } else {
        NoneNumbered(job, i, total);
      }
    } else {
      NoneNumbered(job, i, total);
    }
  }

  lemma OneNumbered(job: Job, pos: nat, n: nat, i: nat, total: nat)
    requires 0 < n <= job.batchSize && pos + n <= |job.file.content|
    ensures Numbered(job, [job.MakePart(pos, n, i, total)], i, total)
  {
  }

  lemma NoneNumbered(job: Job, i: nat, total: nat)
    ensures Numbered(job, [], i, total) && Joined([]) == []
  {
  }

  lemma JoinedCons(p: Part, ps: seq<Part>)
    ensures Joined([p] + ps) == p.data + Joined(ps)
  {
    assert ([p] + ps)[1..] == ps;
  }

  /** No read fails and no part is refused. */
  ghost predicate Untroubled(job: Job) {
    job.Valid() && (forall p :: !job.file.fails(p)) && forall part :: !job.refuses(part)
  }

  /** Besides, a read fills the buffer while enough bytes remain, and the end is reported on its own. */
  ghost predicate Smooth(job: Job) {
    && Untroubled(job)
    && (forall p :: job.file.grant(p) >= job.batchSize) && (forall p :: !job.file.eager(p))
  }

  /** Where the k-th batch starts. */
  function Offset(k: nat, size: nat): nat {
    k * size
  }

  lemma OffsetNext(k: nat, size: nat)
    ensures Offset(k + 1, size) == Offset(k, size) + size && Offset(0, size) == 0
  {
  }

  lemma OffsetGrows(i: nat, k: nat, size: nat)
    requires i <= k
    ensures Offset(i, size) <= Offset(k, size)
  {
  }

  /** The part count says how many batches it takes to cover the length. */
  lemma Covers(length: nat, size: nat, i: nat)
    requires size > 0
    ensures Offset(i, size) >= length <==> i >= PartCount(length, size)
  {
    hide PartCount;
    PartCountIsLeast(length, size);
    var n := PartCount(length, size);
    if i >= n { OffsetGrows(n, i, size); } else { OffsetGrows(i, n - 1, size); }
  }

  /** The k-th piece of the batch size. */
  function Piece(content: seq<byte>, size: nat, k: nat): seq<byte> {
    content[Min(Offset(k, size), |content|)..Min(Offset(k, size) + size, |content|)]
  }

  lemma SmoothNext(job: Job, pos: nat, i: nat, total: nat)
    requires Smooth(job) && i < total && pos < |job.file.content|
    ensures var n := Min(job.batchSize, |job.file.content| - pos);
            && Parts(job, pos, i, total) == [job.MakePart(pos, n, i, total)] + Parts(job, pos + n, i + 1, total)
            && End(job, pos, i, total) == End(job, pos + n, i + 1, total)
  {
  }

  lemma SmoothEnd(job: Job, pos: nat, i: nat, total: nat)
    requires Smooth(job) && i <= total && pos <= |job.file.content| && (i == total || pos == |job.file.content|)
    ensures Parts(job, pos, i, total) == [] && End(job, pos, i, total) == Done
  {
  }

  /** Where the reader stands before the i-th part. */
  function Start(job: Job, i: nat): (pos: nat)
    ensures pos <= |job.file.content|
  {
    Min(Offset(i, job.batchSize), |job.file.content|)
  }

  lemma StartNext(job: Job, i: nat)
    requires job.Valid()
    ensures Start(job, i + 1) == Start(job, i) + Min(job.batchSize, |job.file.content| - Start(job, i))
    ensures Start(job, i) == |job.file.content| <==> i >= PartCount(|job.file.content|, job.batchSize)
  {
    OffsetNext(i, job.batchSize);
    Covers(|job.file.content|, job.batchSize, i);
  }

  lemma {:induction false} SmoothCount(job: Job, i: nat, total: nat)
    requires Smooth(job) && i <= total
    ensures End(job, Start(job, i), i, total) == Done
    ensures var pc := PartCount(|job.file.content|, job.batchSize);
            |Parts(job, Start(job, i), i, total)| == if i <= pc then Min(total, pc) - i else 0
    decreases total - i
  {
    hide Parts, End, Offset, Smooth, PartCount, Start;
    SmoothIsValid(job);
    StartNext(job, i);
    if i < total && Start(job, i) < |job.file.content| {
      SmoothNext(job, Start(job, i), i, total);
      SmoothCount(job, i + 1, total);
    } else {
      SmoothEnd(job, Start(job, i), i, total);
    }
  }

  lemma {:induction false} SmoothParts(job: Job, i: nat, total: nat)
    requires Smooth(job) && i <= total
    ensures Start(job, i) <= Start(job, total)
    ensures forall k :: 0 <= k < |Parts(job, Start(job, i), i, total)| ==>
              Parts(job, Start(job, i), i, total)[k].data == Piece(job.file.content, job.batchSize, i + k)
    ensures Joined(Parts(job, Start(job, i), i, total)) == job.file.content[Start(job, i)..Start(job, total)]
    decreases total - i
  {
    hide Parts, End, Offset, Smooth, PartCount, Joined, Start, Piece;
    SmoothIsValid(job);
    StartNext(job, i);
    var pos := Start(job, i);
    StartGrows(job, i, total);
    if i < total && pos < |job.file.content| {
      SmoothNext(job, pos, i, total);
      SmoothParts(job, i + 1, total);
      var next := Start(job, i + 1);
      var part, rest := job.MakePart(pos, next - pos, i, total), Parts(job, next, i + 1, total);
      JoinedCons(part, rest);
      PieceIs(job, i);
      PiecesCons(job.file.content, job.batchSize, part, rest, i);
      TwoSlices(job.file.content, pos, next, Start(job, total));
    } else {
      SmoothEnd(job, pos, i, total);
      NoneNumbered(job, i, total);
    }
  }

  lemma PiecesCons(content: seq<byte>, size: nat, part: Part, rest: seq<Part>, i: nat)
    requires part.data == Piece(content, size, i)
    requires forall k :: 0 <= k < |rest| ==> rest[k].data == Piece(content, size, i + 1 + k)
    ensures forall k :: 0 <= k < |[part] + rest| ==> ([part] + rest)[k].data == Piece(content, size, i + k)
  {
    hide Piece;
    forall k | 0 <= k < |[part] + rest|
      ensures ([part] + rest)[k].data == Piece(content, size, i + k)
    {
      if k > 0 { assert ([part] + rest)[k] == rest[k - 1] && i + k == i + 1 + (k - 1); }
    }
  }

  lemma TwoSlices(s: seq<byte>, a: nat, b: nat, c: nat)
    requires a <= b <= c <= |s|
    ensures s[a..b] + s[b..c] == s[a..c]
  {
  }

  lemma StartGrows(job: Job, i: nat, k: nat)
    requires i <= k
    ensures Start(job, i) <= Start(job, k)
  {
    OffsetGrows(i, k, job.batchSize);
  }

  lemma PieceIs(job: Job, i: nat)
    requires job.Valid()
    ensures Start(job, i) <= Start(job, i + 1)
    ensures job.file.content[Start(job, i)..Start(job, i + 1)] == Piece(job.file.content, job.batchSize, i)
  {
    OffsetNext(i, job.batchSize);
  }

  lemma SmoothIsValid(job: Job)
    requires Smooth(job)
    ensures job.Valid()
  {
  }

  /**
   With such a reader exactly as many parts are sent as announced, all but the last are full, and
   together they are the file. It takes only that the file has not grown since its size was asked for.
   */
  lemma UploadIsComplete(job: Job, fileSize: nat)
    requires Smooth(job)
    ensures var pc := PartCount(fileSize, job.batchSize);
            var ps := Parts(job, 0, 0, pc);
            && End(job, 0, 0, pc) == Done
            && (Joined(ps) == job.file.content <==> PartCount(|job.file.content|, job.batchSize) <= pc)
            && (fileSize == |job.file.content| ==> |ps| == pc)
            && Numbered(job, ps, 0, pc)
            && forall k :: 0 <= k < |ps| - 1 ==> |ps[k].data| == job.batchSize
  {
    hide Parts, End, Offset, PartCount, Joined, Numbered;
    var pc, size := PartCount(fileSize, job.batchSize), job.batchSize;
    OffsetNext(0, size);
    SmoothCount(job, 0, pc);
    SmoothParts(job, 0, pc);
    var ps := Parts(job, 0, 0, pc);
    var _ := PartsArePieces(job, 0, 0, pc);
    Covers(|job.file.content|, size, pc);
    forall k | 0 <= k < |ps| - 1 ensures |ps[k].data| == size {
      OffsetNext(k, size);
      Covers(|job.file.content|, size, k + 1);
    }
  }

  // ---------- readers that deliver less ----------

  /** The number of reads from the position to the end of the file. */
  function Reads(job: Job, pos: nat): nat
    requires job.Valid() && pos <= |job.file.content|
    decreases |job.file.content| - pos
  {
    if pos == |job.file.content| then 0
    else 1 + Reads(job, pos + job.file.Delivered(pos, job.batchSize))
  }

  /** The last bytes of the file come without its end. */
  predicate EndComesAlone(job: Job, pos: nat)
    requires job.Valid() && pos <= |job.file.content|
    decreases |job.file.content| - pos
  {
    pos < |job.file.content| ==>
      var next := pos + job.file.Delivered(pos, job.batchSize);
      if next == |job.file.content| then !job.file.eager(pos) else EndComesAlone(job, next)
  }

  /**
   The file arrives whole exactly when it takes no more reads than there are parts and its last
   bytes do not come together with its end. The upload ends well in any case.
   */
  lemma {:induction false} ArrivesExactly(job: Job, pos: nat, i: nat, total: nat)
    requires Untroubled(job) && pos <= |job.file.content| && i <= total
    ensures End(job, pos, i, total) == Done
    ensures Joined(Parts(job, pos, i, total)) == job.file.content[pos..]
       <==> Reads(job, pos) <= total - i && EndComesAlone(job, pos)
    decreases total - i
  {
    hide Parts, End, Joined;
    var content := job.file.content;
    NoneNumbered(job, i, total);
    if i == total {
      NothingMore(job, pos, total);
    } else {
      Unfold(job, pos, i, total);
      if pos < |content| && job.Outcome(pos).Got? {
        var n := job.Outcome(pos).n;
        ArrivesExactly(job, pos + n, i + 1, total);
        JoinedCons(job.MakePart(pos, n, i, total), Parts(job, pos + n, i + 1, total));
        SameHead(content, pos, n, Joined(Parts(job, pos + n, i + 1, total)));
        StepsOn(job, pos, n);
      }
    }
  }

  lemma StepsOn(job: Job, pos: nat, n: nat)
    requires job.Valid() && pos < |job.file.content| && job.Outcome(pos) == Got(n)
    ensures Reads(job, pos) == 1 + Reads(job, pos + n)
    ensures EndComesAlone(job, pos) <==> EndComesAlone(job, pos + n)
  {
  }

  lemma SameHead(content: seq<byte>, pos: nat, n: nat, rest: seq<byte>)
    requires pos + n <= |content|
    ensures content[pos..pos + n] + rest == content[pos..] <==> rest == content[pos + n..]
  {
    assert content[pos..] == content[pos..pos + n] + content[pos + n..];
    if content[pos..pos + n] + rest == content[pos..] {
      assert rest == (content[pos..pos + n] + rest)[n..];
    }
  }

  lemma PartCountNext(size: nat, partSize: nat)
    requires partSize > 0 && size > 0
    ensures PartCount(size, partSize) == 1 + PartCount(size - Min(size, partSize), partSize)
  {
    hide PartCount, Offset;
    var left := size - Min(size, partSize);
    var n := PartCount(left, partSize);
    OffsetNext(n, partSize);
    Covers(left, partSize, n);
    Covers(size, partSize, n + 1);
    Covers(size, partSize, n);
    if n > 0 {
      OffsetNext(n - 1, partSize);
      Covers(left, partSize, n - 1);
    }
  }

  /** A reader that delivers g bytes at a time, or as many as fit. */
  lemma {:induction false} SteadyReads(job: Job, g: nat, pos: nat)
    requires job.Valid() && g > 0 && (forall p :: job.file.grant(p) == g) && pos <= |job.file.content|
    ensures Reads(job, pos) == PartCount(|job.file.content| - pos, Min(g, job.batchSize))
    decreases |job.file.content| - pos
  {
    hide PartCount;
    var left := |job.file.content| - pos;
    if left > 0 {
      PartCountNext(left, Min(g, job.batchSize));
      SteadyReads(job, g, pos + job.file.Delivered(pos, job.batchSize));
    } else {
      NoParts(Min(g, job.batchSize));
    }
  }

  lemma NoParts(partSize: nat)
    requires partSize > 0
    ensures PartCount(0, partSize) == 0
  {
  }

  /**
   A reader may deliver less than fits, as the library's readers are allowed to. One that delivers
   g bytes at a time loses the rest of the file exactly when it needs more reads than there are parts.
   */
  lemma ShortReadsLoseData(job: Job, g: nat, total: nat)
    requires Untroubled(job) && g > 0 && (forall p :: job.file.grant(p) == g) && EndComesAlone(job, 0)
    ensures End(job, 0, 0, total) == Done
    ensures Joined(Parts(job, 0, 0, total)) == job.file.content
       <==> PartCount(|job.file.content|, Min(g, job.batchSize)) <= total
  {
    hide PartCount, Parts, Joined, Reads, EndComesAlone;
    ArrivesExactly(job, 0, 0, total);
    SteadyReads(job, g, 0);
    assert job.file.content[0..] == job.file.content;
  }

  /** With one byte for each read only as many bytes can arrive as there are parts. */
  lemma SingleBytes(job: Job, total: nat)
    requires Untroubled(job) && (forall p :: job.file.grant(p) == 1) && EndComesAlone(job, 0)
    ensures Joined(Parts(job, 0, 0, total)) == job.file.content <==> |job.file.content| <= total
  {
    ShortReadsLoseData(job, 1, total);
    assert PartCount(|job.file.content|, 1) == |job.file.content|;
  }

  /** Only zeros are cut off, and all of those at the start. */
  lemma {:induction false} TrimZerosIs(s: string)
    ensures |TrimZeros(s)| <= |s| && TrimZeros(s) == s[|s| - |TrimZeros(s)|..]
    ensures forall i :: 0 <= i < |s| - |TrimZeros(s)| ==> s[i] == '0'
    ensures TrimZeros(s) == "" || TrimZeros(s)[0] != '0'
  {
    if s != "" && s[0] == '0' {
      TrimZerosIs(s[1..]);
      forall i | 0 <= i < |s| - |TrimZeros(s)| ensures s[i] == '0' {
        if i > 0 { assert s[i] == s[1..][i - 1]; }
      }
    }
  }

  /** A part carries the hash of its own bytes, without the zeros at its start where the member needs that. */
  lemma PartIs(job: Job, pos: nat, n: nat, i: nat, total: nat)
    requires pos + n <= |job.file.content|
    ensures var part := job.MakePart(pos, n, i, total);
            var h := job.hash(part.data);
            && part.no == i + 1 && part.total == total
            && |part.data| == n && (forall k :: 0 <= k < n ==> part.data[k] == job.file.content[pos + k])
            && (!job.workaround ==> part.hash == h)
            && (job.workaround ==>
                  && |part.hash| <= |h| && part.hash == h[|h| - |part.hash|..]
                  && (forall k :: 0 <= k < |h| - |part.hash| ==> h[k] == '0')
                  && (part.hash == "" || part.hash[0] != '0'))
  {
    hide TrimZeros;
    TrimZerosIs(job.hash(job.file.content[pos..pos + n]));
  }

  /** An upload that does not end well has met a failing read or a part that was refused, and says which. */
  lemma {:induction false} HowItEnds(job: Job, pos: nat, i: nat, total: nat)
    requires job.Valid() && pos <= |job.file.content| && i <= total
    ensures End(job, pos, i, total) == ReadFailed ==>
              exists p: nat :: pos <= p <= |job.file.content| && job.file.fails(p)
    ensures End(job, pos, i, total) == Refused ==> exists part :: job.refuses(part)
    ensures i < total && job.file.fails(pos) ==> End(job, pos, i, total) == ReadFailed
    ensures i < total && job.Outcome(pos).Got? && job.refuses(job.MakePart(pos, job.Outcome(pos).n, i, total)) ==>
              End(job, pos, i, total) == Refused
    decreases total - i
  {
    hide Job.MakePart;
    if i < total && job.Outcome(pos).Got? {
      HowItEnds(job, pos + job.Outcome(pos).n, i + 1, total);
    }
  }
}
