/**
 Job IDs and their text: idToString, stringToID and the lookup by name or ID of
 base/commands/job/common.go.
 */
module JobIds {
  import opened Bytes
  import opened Integers
  import opened Wrappers

  // ---------- numbers and their digits ----------

  function Digit(d: nat): char
    requires d < 16
  {
    if d < 10 then '0' + d as char else 'a' + (d - 10) as char
  }

  function Hex(n: nat): string {
    if n < 16 then [Digit(n)] else Hex(n / 16) + [Digit(n % 16)]
  }

  function Magnitude(id: int): nat {
    if id < 0 then -id else id
  }

  /** strconv.FormatInt in base 16. */
  function FormatHex(id: int): string {
    if id < 0 then "-" + Hex(Magnitude(id)) else Hex(Magnitude(id))
  }

  lemma DigitIsRead(d: nat)
    requires d < 16
    ensures DigitValue(Digit(d)) == d
  {
  }

  lemma {:induction false} HexIsRead(n: nat)
    ensures Hex(n) != "" && Value(Hex(n), 16) == Some(n)
    ensures forall c :: c in Hex(n) ==> DigitValue(c) < 16
  {
    hide Digit, DigitValue, Value;
    DigitIsRead(n % 16);
    if n >= 16 {
      HexIsRead(n / 16);
      ValueAppend(Hex(n / 16), Digit(n % 16), 16);
    } else {
      ValueAppend("", Digit(n), 16);
      assert "" + [Digit(n)] == Hex(n);
    }
  }

  function Power16(k: nat): nat {
    if k == 0 then 1 else 16 * Power16(k - 1)
  }

  lemma {:induction false} HexSize(n: nat, k: nat)
    requires k > 0
    ensures |Hex(n)| <= k <==> n < Power16(k)
    ensures |Hex(n)| > 0
  {
    if n >= 16 {
      if k > 1 { HexSize(n / 16, k - 1); } else { HexSize(n / 16, 1); }
    } else {
      PowerGrows(k);
    }
  }

  lemma {:induction false} PowerGrows(k: nat)
    requires k > 0
    ensures Power16(k) >= 16
  {
    if k > 1 { PowerGrows(k - 1); }
  }

  function Zeros(k: nat): (s: string)
    ensures |s| == k && forall i :: 0 <= i < k ==> s[i] == '0'
  {
    if k == 0 then "" else "0" + Zeros(k - 1)
  }

  lemma {:induction false} LeadingZeros(k: nat, s: string)
    ensures Value(Zeros(k) + s, 16) == Value(s, 16)
    decreases |s|, k
  {
    hide DigitValue, Value;
    if s != "" {
      var n := |s| - 1;
      LeadingZeros(k, s[..n]);
      ValueAppend(Zeros(k) + s[..n], s[n], 16);
      ValueAppend(s[..n], s[n], 16);
      assert Zeros(k) + s == Zeros(k) + s[..n] + [s[n]] && s == s[..n] + [s[n]];
    } else if k > 0 {
      LeadingZeros(k - 1, "");
      ValueAppend(Zeros(k - 1), '0', 16);
      ZeroDigit();
      assert Zeros(k) + "" == Zeros(k - 1) + ['0'] && Zeros(k - 1) + "" == Zeros(k - 1);
    } else {
      assert Zeros(0) + "" == "";
    }
  }

  // ---------- idToString ----------

  /** Sixteen digits in four groups. */
  function Grouped(p: string): string
    requires |p| == 16
  {
    p[..4] + "-" + p[4..8] + "-" + p[8..12] + "-" + p[12..]
  }

  function Padded(hex: string): string
    requires |hex| <= 16
  {
    Zeros(16 - |hex|) + hex
  }

  /** Where the k-th digit from the right goes; the buffer has no place for a seventeenth. */
  function Slot(k: nat): int {
    if k >= 16 then -1 else 18 - k - k / 4
  }

  lemma Slots()
    ensures forall k, m :: 0 <= k < m <= 16 ==> Slot(m) < Slot(k)
    ensures forall k :: 0 <= k < 16 ==> 0 <= Slot(k) <= 18 && Slot(k) !in {4, 9, 14}
    ensures forall k :: 0 <= k < 16 ==> Slot(k + 1) == Slot(k) - if Slot(k) in {15, 10, 5} then 2 else 1
  {
  }

  const TEMPLATE := "0000-0000-0000-0000"

  lemma TemplateIs()
    ensures |TEMPLATE| == 19
    ensures forall i :: 0 <= i < 19 ==> TEMPLATE[i] == if i in {4, 9, 14} then '-' else '0'
  {
  }

  /** None is the panic of an index below the buffer. */
  method IdToString(id: int64) returns (r: Option<string>)
    ensures r == if |FormatHex(id)| <= 16 then Some(Grouped(Padded(FormatHex(id)))) else None
  {
    Slots();
    hide Slot, FormatHex, Zeros;
    var buf := new char[19](i requires 0 <= i < 19 => TEMPLATE[i]);
    TemplateIs();
    var hex := FormatHex(id);
    var j := 18;
    var i := |hex| - 1;
    ghost var done := 0;
    SlotOfFirst();
    while i >= 0
      invariant -1 <= i < |hex| && done == |hex| - 1 - i <= 16
      invariant j == Slot(done)
      invariant forall k :: 0 <= k < done ==> buf[Slot(k)] == hex[|hex| - 1 - k]
      invariant forall k :: done <= k < 16 ==> buf[Slot(k)] == '0'
      invariant buf[4] == buf[9] == buf[14] == '-'
    {
      if j < 0 {
        return None;
      }
      buf[j] := hex[i];
      if j == 15 || j == 10 || j == 5 {
        j := j - 1;
      }
      j := j - 1;
      i := i - 1;
      done := done + 1;
    }
    SlotsAreGrouped(buf[..], hex);
    return Some(buf[..]);
  }

  lemma SlotOfFirst()
    ensures Slot(0) == 18 && Slot(16) == -1
  {
  }

  lemma SlotsAreGrouped(s: string, hex: string)
    requires |s| == 19 && |hex| <= 16 && s[4] == s[9] == s[14] == '-'
    requires forall k :: 0 <= k < |hex| ==> s[Slot(k)] == hex[|hex| - 1 - k]
    requires forall k :: |hex| <= k < 16 ==> s[Slot(k)] == '0'
    ensures s == Grouped(Padded(hex))
  {
    var p := Padded(hex);
    Slots();
    hide Slot, Grouped;
    forall k | 0 <= k < 16 ensures s[Slot(k)] == p[15 - k] {}
    SlotsFillGroups(s, p);
  }

  lemma SlotsFillGroups(s: string, p: string)
    requires |s| == 19 && |p| == 16 && s[4] == s[9] == s[14] == '-'
    requires forall k :: 0 <= k < 16 ==> 0 <= Slot(k) < 19 && s[Slot(k)] == p[15 - k]
    ensures s == Grouped(p)
  {
    forall i | 0 <= i < 19 ensures s[i] == Grouped(p)[i] {
      if i !in {4, 9, 14} {
        // the digits to the right of i
        var k := if i > 14 then 18 - i else if i > 9 then 17 - i else if i > 4 then 16 - i else 15 - i;
        assert Slot(k) == i;
        assert Grouped(p)[i] == p[15 - k];
      }
    }
  }

  // ---------- stringToID ----------

  function WithoutDashes(s: string): string {
    if s == "" then "" else (if s[0] == '-' then "" else [s[0]]) + WithoutDashes(s[1..])
  }

  /** First as a decimal number, then as an ID; None is an error. */
  function StringToID(s: string): Option<int64> {
    var decimal := ParseInt(s, 10);
    if decimal.Some? then decimal else ParseInt(WithoutDashes(s), 16)
  }

  lemma {:induction false} BadDigit(s: string, base: nat, i: nat)
    requires 1 < base <= 16 && i < |s| && DigitValue(s[i]) >= base
    ensures Value(s, base) == None
  {
    if i < |s| - 1 { BadDigit(s[..|s| - 1], base, i); }
  }

  /** The printed form of an ID never reads as a decimal number. */
  lemma PrintedIsNotDecimal(p: string)
    requires |p| == 16
    ensures ParseInt(Grouped(p), 10) == None
  {
    var s := Grouped(p);
    assert s[4] == '-';
    BadDigit(s, 10, 4);
    BadDigit(s[1..], 10, 3);
  }

  lemma {:induction false} DashesAppend(a: string, b: string)
    ensures WithoutDashes(a + b) == WithoutDashes(a) + WithoutDashes(b)
  {
    if a == "" {
      assert a + b == b;
    } else {
      assert (a + b)[1..] == a[1..] + b;
      DashesAppend(a[1..], b);
    }
  }

  lemma {:induction false} NoDashes(s: string)
    requires '-' !in s
    ensures WithoutDashes(s) == s
  {
    if s != "" { NoDashes(s[1..]); }
  }

  lemma OneDash()
    ensures WithoutDashes("-") == ""
  {
  }

  lemma GroupsVanish(p: string)
    requires |p| == 16
    ensures WithoutDashes(Grouped(p)) == WithoutDashes(p)
  {
    hide WithoutDashes;
    OneDash();
    var a, b, c, d := p[..4], p[4..8], p[8..12], p[12..];
    DashesAppend(a + "-" + b + "-" + c + "-", d);
    DashesAppend(a + "-" + b + "-" + c, "-");
    DashesAppend(a + "-" + b + "-", c);
    DashesAppend(a + "-" + b, "-");
    DashesAppend(a + "-", b);
    DashesAppend(a, "-");
    DashesAppend(a + b + c, d);
    DashesAppend(a + b, c);
    DashesAppend(a, b);
    assert p == a + b + c + d;
  }

  lemma {:induction false} ZerosHaveNoDash(k: nat)
    ensures '-' !in Zeros(k)
  {
  }

  /** Reading digits behind zeros. */
  lemma PaddedIsRead(k: nat, n: nat)
    requires n <= MAX_INT64
    ensures ParseInt(Zeros(k) + Hex(n), 16) == Some(n)
    ensures '-' !in Hex(n)
  {
    hide Value, Zeros, Hex;
    HexIsRead(n);
    LeadingZeros(k, Hex(n));
    assert DigitValue('-') == 16 && DigitValue('+') == 16;
    var s := Zeros(k) + Hex(n);
    if k > 0 {
      assert s[0] == Zeros(k)[0];
    } else {
      assert s[0] == Hex(n)[0] && Hex(n)[0] in Hex(n);
    }
  }

  /** What is printed for an ID, if anything. */
  function Printed(id: int64): Option<string> {
    if |FormatHex(id)| <= 16 then Some(Grouped(Padded(FormatHex(id)))) else None
  }

  lemma FormatSize(id: int64)
    ensures |FormatHex(id)| <= 16 <==> id > -0x1000_0000_0000_0000
  {
    assert Power16(15) == 0x1000_0000_0000_0000 && Power16(16) == 0x1_0000_0000_0000_0000;
    HexSize(Magnitude(id), 15);
    HexSize(Magnitude(id), 16);
  }

  /**
   An ID that is not negative is read back from its printed form. A negative one loses its sign,
   and printing the most negative ones panics.
   */
  lemma IdRoundTrip(id: int64)
    ensures Printed(id).Some? <==> id > -0x1000_0000_0000_0000
    ensures Printed(id).Some? ==> StringToID(Printed(id).value) == Some(Magnitude(id))
    ensures (Printed(id).Some? && StringToID(Printed(id).value) == Some(id)) <==> id >= 0
  {
    hide FormatHex, Hex, WithoutDashes, ParseInt, Zeros, Grouped;
    FormatSize(id);
    if id > -0x1000_0000_0000_0000 {
      var hex := FormatHex(id);
      var zeros := Zeros(16 - |hex|);
      var n := Magnitude(id);
      FormatIs(id);
      PrintedIsNotDecimal(Padded(hex));
      GroupsVanish(Padded(hex));
      PaddedIsRead(16 - |hex|, n);
      ZerosHaveNoDash(16 - |hex|);
      NoDashes(zeros);
      NoDashes(Hex(n));
      if id < 0 {
        assert zeros + ("-" + Hex(n)) == zeros + "-" + Hex(n);
        DashesAppend(zeros + "-", Hex(n));
        DashesAppend(zeros, "-");
        OneDash();
        assert zeros + "" + Hex(n) == zeros + Hex(n);
      } else {
        assert "" + Hex(n) == Hex(n);
        DashesAppend(zeros, Hex(n));
      }
    }
  }

  lemma FormatIs(id: int64)
    ensures FormatHex(id) == (if id < 0 then "-" else "") + Hex(Magnitude(id))
  {
  }

  // ---------- looking a job up ----------

  datatype Status = Running | Failed | Completed | Suspended(code: nat)

  datatype Summary = Summary(jobId: int64, nameOrId: string, status: Status)

  class JobsInfo {
    const nameToId: map<string, int64>
    const idToInfo: map<int64, Summary>

    /** The maps of MakeJobNameIDMaps: the name of a job that has ended leads nowhere. */
    constructor (jobs: seq<Summary>)
      ensures nameToId == NameMap(jobs) && idToInfo == InfoMap(jobs)
    {
      var names: map<string, int64> := map[];
      var infos: map<int64, Summary> := map[];
      for i := 0 to |jobs|
        invariant names == NameMap(jobs[..i]) && infos == InfoMap(jobs[..i])
      {
        assert jobs[..i + 1][..i] == jobs[..i];
        var j := jobs[i];
        infos := infos[j.jobId := j];
        if j.status == Failed || j.status == Completed {
          continue;
        }
        names := names[j.nameOrId := j.jobId];
      }
      assert jobs[..|jobs|] == jobs;
      nameToId := names;
      idToInfo := infos;
    }

    /** An ID in any form goes before a name. */
    function GetIDForName(idOrName: string): Option<int64> {
      var id := StringToID(idOrName);
      if id.Some? then id
      else if idOrName in nameToId then Some(nameToId[idOrName]) else None
    }

    function GetInfoForID(id: int64): Option<Summary> {
      if id in idToInfo then Some(idToInfo[id]) else None
    }
  }

  predicate Ended(job: Summary) {
    job.status == Failed || job.status == Completed
  }

  function NameMap(jobs: seq<Summary>): map<string, int64> {
    if jobs == [] then map[]
    else
      var j := jobs[|jobs| - 1];
      var m := NameMap(jobs[..|jobs| - 1]);
      if Ended(j) then m else m[j.nameOrId := j.jobId]
  }

  function InfoMap(jobs: seq<Summary>): map<int64, Summary> {
    if jobs == [] then map[]
    else InfoMap(jobs[..|jobs| - 1])[jobs[|jobs| - 1].jobId := jobs[|jobs| - 1]]
  }

  ghost predicate UniqueIds(jobs: seq<Summary>) {
    forall i, k :: 0 <= i < k < |jobs| ==> jobs[i].jobId != jobs[k].jobId
  }

  /** The last of the jobs with the name that has not ended. */
  ghost predicate IsLastLive(jobs: seq<Summary>, name: string, i: nat) {
    && i < |jobs| && jobs[i].nameOrId == name && !Ended(jobs[i])
    && forall k :: i < k < |jobs| && jobs[k].nameOrId == name ==> Ended(jobs[k])
  }

  lemma {:induction false} NameLeadsToLastLive(jobs: seq<Summary>, name: string, i: nat)
    requires IsLastLive(jobs, name, i)
    ensures name in NameMap(jobs) && NameMap(jobs)[name] == jobs[i].jobId
  {
    var n := |jobs| - 1;
    if i < n { NameLeadsToLastLive(jobs[..n], name, i); }
  }

  lemma {:induction false} NoLiveJobNoName(jobs: seq<Summary>, name: string)
    ensures name in NameMap(jobs) <==> exists i :: 0 <= i < |jobs| && jobs[i].nameOrId == name && !Ended(jobs[i])
  {
    if jobs != [] {
      var n := |jobs| - 1;
      NoLiveJobNoName(jobs[..n], name);
      if i :| 0 <= i < n && jobs[..n][i].nameOrId == name && !Ended(jobs[..n][i]) {
        assert jobs[i] == jobs[..n][i];
      }
      if i :| 0 <= i < |jobs| && jobs[i].nameOrId == name && !Ended(jobs[i]) {
        assert i < n ==> jobs[..n][i] == jobs[i];
      }
    }
  }

  lemma {:induction false} InfoOfId(jobs: seq<Summary>, i: nat)
    requires i < |jobs| && UniqueIds(jobs)
    ensures jobs[i].jobId in InfoMap(jobs) && InfoMap(jobs)[jobs[i].jobId] == jobs[i]
  {
    var n := |jobs| - 1;
    if i < n { InfoOfId(jobs[..n], i); }
  }

  /** A job is found by its printed ID and, unless the name reads as another ID, by its name. */
  lemma JobIsFound(info: JobsInfo, jobs: seq<Summary>, i: nat)
    requires info.nameToId == NameMap(jobs) && info.idToInfo == InfoMap(jobs) && UniqueIds(jobs)
    requires i < |jobs| && IsLastLive(jobs, jobs[i].nameOrId, i) && jobs[i].jobId >= 0
    ensures info.GetInfoForID(jobs[i].jobId) == Some(jobs[i])
    ensures Printed(jobs[i].jobId).Some? && info.GetIDForName(Printed(jobs[i].jobId).value) == Some(jobs[i].jobId)
    ensures info.GetIDForName(jobs[i].nameOrId) == Some(jobs[i].jobId)
       <==> StringToID(jobs[i].nameOrId) in {None, Some(jobs[i].jobId)}
  {
    hide StringToID, Printed;
    IdRoundTrip(jobs[i].jobId);
    NameLeadsToLastLive(jobs, jobs[i].nameOrId, i);
    InfoOfId(jobs, i);
  }

  /** An ID may also be given as a decimal number, with a sign for a negative one. */
  lemma DecimalIdIsRead(n: nat)
    requires n <= MAX_INT64
    ensures StringToID(Decimal(n)) == Some(n) && StringToID("-" + Decimal(n)) == Some(0 - n as int)
  {
    hide ParseInt, Decimal, WithoutDashes;
    DecimalIsRead(n);
  }

  /** Jobs that run or are suspended keep their names. */
  lemma EndedIs(job: Summary)
    ensures job.status.Running? || job.status.Suspended? ==> !Ended(job)
    ensures job.status.Failed? || job.status.Completed? ==> Ended(job)
  {
  }
}
