/**
 The storage keys of the metrics store, clc/metrics/key.go: seven fields joined by "^". The
 time of a key is kept as the date it is formatted with; NewKey truncates it to the day.
 */
module MetricKeys {
  import opened Text
  import opened Wrappers

  const KEY_PREFIX := "ph"
  const SEPARATOR := '^'

  datatype StorageKey = StorageKey(
    date: string,
    clusterID: string,
    viridianClusterID: string,
    keyPrefix: string,
    acquisitionSource: string,
    version: string,
    metric: string)
  {
    function Fields(): (fs: seq<string>)
      ensures |fs| == 7
    {
      [keyPrefix, date, clusterID, viridianClusterID, acquisitionSource, version, metric]
    }

    function Marshal(): string {
      Join(Fields(), SEPARATOR)
    }

    /** A key as the program makes them: today's date in the fixed format and the fixed prefix. */
    predicate Made() {
      IsDate(date) && keyPrefix == KEY_PREFIX
    }

    /** No field holds the separator. */
    predicate Clean() {
      forall f :: f in Fields() ==> SEPARATOR !in f
    }
  }

  // ---------- dates ----------

  function DigitsValue(s: string): int {
    if s == "" then 0 else 10 * DigitsValue(s[..|s| - 1]) + (s[|s| - 1] as int - '0' as int)
  }

  predicate AllDigits(s: string) {
    forall c :: c in s ==> '0' <= c <= '9'
  }

  function DaysIn(year: int, month: int): int {
    if month == 2 then
      (if year % 4 == 0 && (year % 100 != 0 || year % 400 == 0) then 29 else 28)
    else if month in {4, 6, 9, 11} then 30
    else 31
  }

  /** What time.Parse accepts for the layout 2006-01-02. */
  predicate IsDate(s: string) {
    && |s| == 10 && s[4] == '-' && s[7] == '-'
    && AllDigits(s[..4]) && AllDigits(s[5..7]) && AllDigits(s[8..])
    && 1 <= DigitsValue(s[5..7]) <= 12
    && 1 <= DigitsValue(s[8..]) <= DaysIn(DigitsValue(s[..4]), DigitsValue(s[5..7]))
  }

  function DatePrefix(date: string): string {
    KEY_PREFIX + [SEPARATOR] + date
  }

  // ---------- reading a key back ----------

  function Unmarshal(b: string): Option<StorageKey> {
    var s := Split(b, SEPARATOR);
    if |s| != 7 || !IsDate(s[1]) then None
    else Some(StorageKey(s[1], s[2], s[3], s[0], s[4], s[5], s[6]))
  }

  /** The number of separators in s. */
  function Count(s: string, c: char): nat {
    if s == "" then 0 else (if s[0] == c then 1 else 0) + Count(s[1..], c)
  }

  lemma {:induction false} CountAppend(a: string, b: string, c: char)
    ensures Count(a + b, c) == Count(a, c) + Count(b, c)
  {
    if a == "" {
      assert a + b == b;
    } else {
      assert (a + b)[1..] == a[1..] + b;
      CountAppend(a[1..], b, c);
    }
  }

  lemma {:induction false} CountZero(s: string, c: char)
    ensures Count(s, c) == 0 <==> c !in s
  {
    if s != "" { CountZero(s[1..], c); }
  }

  lemma {:induction false} SplitLength(s: string, c: char)
    ensures |Split(s, c)| == Count(s, c) + 1
    decreases |s|
  {
    var i := IndexOf(s, c);
    CountZero(s, c);
    if i >= 0 {
      assert s == s[..i] + ([c] + s[i + 1..]);
      CountAppend(s[..i], [c] + s[i + 1..], c);
      CountZero(s[..i], c);
      assert ([c] + s[i + 1..])[1..] == s[i + 1..];
      SplitLength(s[i + 1..], c);
    }
  }

  function CountAll(ps: seq<string>, c: char): nat {
    if ps == [] then 0 else Count(ps[0], c) + CountAll(ps[1..], c)
  }

  lemma {:induction false} JoinCount(ps: seq<string>, c: char)
    requires ps != []
    ensures Count(Join(ps, c), c) == CountAll(ps, c) + |ps| - 1
  {
    assert ps == [ps[0]] + ps[1..];
    if |ps| > 1 {
      JoinCount(ps[1..], c);
      JoinCons(ps[0], ps[1..], c);
      CountAppend(ps[0] + [c], Join(ps[1..], c), c);
      CountAppend(ps[0], [c], c);
      assert Count([c], c) == 1;
    }
  }

  lemma {:induction false} CountAllZero(ps: seq<string>, c: char)
    ensures CountAll(ps, c) == 0 <==> forall p :: p in ps ==> c !in p
  {
    if ps != [] {
      CountZero(ps[0], c);
      CountAllZero(ps[1..], c);
      assert forall p :: p in ps <==> p == ps[0] || p in ps[1..];
    }
  }

  /** A key survives marshalling exactly when no field holds the separator; otherwise it cannot be read at all. */
  lemma KeyRoundTrip(k: StorageKey)
    requires k.Made()
    ensures k.Clean() ==> Unmarshal(k.Marshal()) == Some(k)
    ensures !k.Clean() ==> Unmarshal(k.Marshal()) == None
  {
    var fs := k.Fields();
    if k.Clean() {
      SplitJoin(fs, SEPARATOR);
    } else {
      SplitLength(k.Marshal(), SEPARATOR);
      JoinCount(fs, SEPARATOR);
      CountAllZero(fs, SEPARATOR);
    }
  }

  lemma SecondPart(b: string, date: string)
    requires HasPrefix(b, DatePrefix(date))
    ensures var s := Split(b, SEPARATOR);
            |s| >= 2 && s[0] == KEY_PREFIX && (|s[1]| == |date| ==> s[1] == date)
  {
    hide Split, IndexOf;
    var rest := b[|KEY_PREFIX| + 1..];
    assert b[..|DatePrefix(date)|] == DatePrefix(date);
    assert b == KEY_PREFIX + [SEPARATOR] + rest;
    SplitAt(KEY_PREFIX, SEPARATOR, rest);
    FirstPart(rest, SEPARATOR);
    assert DatePrefix(date)[3..] == date;
    assert rest[..|date|] == date;
  }

  /** What can be read under the prefix of a date is a clean key of that date, and the only one with these bytes. */
  lemma ReadUnderPrefix(b: string, date: string)
    requires IsDate(date) && HasPrefix(b, DatePrefix(date)) && Unmarshal(b).Some?
    ensures var k := Unmarshal(b).value;
            k.Made() && k.Clean() && k.date == date && k.Marshal() == b
  {
    var s := Split(b, SEPARATOR);
    SecondPart(b, date);
    assert |s[1]| == |date|;
    hide IsDate;
    assert Unmarshal(b).value.Fields() == s;
    JoinSplit(b, SEPARATOR);
  }

  lemma FirstPart(s: string, c: char)
    ensures Split(s, c)[0] <= s
  {
  }

  lemma CleanDate(k: StorageKey, date: string)
    requires k.Made() && IsDate(date)
    ensures HasPrefix(k.Marshal(), DatePrefix(date)) <==> k.date == date
  {
    var fs := k.Fields();
    JoinCons(fs[0], fs[1..], SEPARATOR);
    JoinCons(fs[1], fs[2..], SEPARATOR);
    assert fs == [fs[0]] + fs[1..] && fs[1..] == [fs[1]] + fs[2..];
    var tail := [SEPARATOR] + Join(fs[2..], SEPARATOR);
    assert k.Marshal() == KEY_PREFIX + [SEPARATOR] + k.date + tail;
    assert k.Marshal()[3..13] == k.date && DatePrefix(date)[3..13] == date;
    assert k.Marshal()[..3] == KEY_PREFIX + [SEPARATOR] == DatePrefix(date)[..3];
    assert DatePrefix(date) == DatePrefix(date)[..3] + DatePrefix(date)[3..13];
    assert k.Marshal()[..13] == k.Marshal()[..3] + k.Marshal()[3..13];
  }

  /** No other key, clean or not, has the bytes of a clean key. */
  lemma MarshalInjective(a: StorageKey, b: StorageKey)
    requires a.Made() && b.Made() && b.Clean() && a.Marshal() == b.Marshal()
    ensures a == b
  {
    KeyRoundTrip(a);
    KeyRoundTrip(b);
  }

  lemma MarshalPrefix(k: StorageKey)
    requires k.Made()
    ensures HasPrefix(k.Marshal(), KEY_PREFIX)
  {
    JoinCons(k.Fields()[0], k.Fields()[1..], SEPARATOR);
    assert k.Fields() == [k.Fields()[0]] + k.Fields()[1..];
    assert k.Marshal() == KEY_PREFIX + ([SEPARATOR] + Join(k.Fields()[1..], SEPARATOR));
  }

  /** The fields of a key in their order. */
  lemma MarshalIs(k: StorageKey)
    ensures k.Marshal() ==
            k.keyPrefix + "^" + (k.date + "^" + (k.clusterID + "^" + (k.viridianClusterID + "^"
            + (k.acquisitionSource + "^" + (k.version + "^" + k.metric)))))
    ensures DatePrefix(k.date) == "ph^" + k.date
  {
    hide Join;
    var fs := k.Fields();
    OneJoined(fs[6]);
    JoinedNext(fs, 0);
    JoinedNext(fs, 1);
    JoinedNext(fs, 2);
    JoinedNext(fs, 3);
    JoinedNext(fs, 4);
    JoinedNext(fs, 5);
    assert fs[6..] == [fs[6]] && fs[0..] == fs;
  }

  lemma OneJoined(f: string)
    ensures Join([f], SEPARATOR) == f
  {
  }

  lemma JoinedNext(fs: seq<string>, i: nat)
    requires i + 1 < |fs|
    ensures Join(fs[i..], SEPARATOR) == fs[i] + "^" + Join(fs[i + 1..], SEPARATOR)
  {
    JoinCons(fs[i], fs[i + 1..], SEPARATOR);
    assert fs[i..] == [fs[i]] + fs[i + 1..];
  }

  function DaysUpTo(year: int, month: nat): int {
    if month == 0 then 0 else DaysUpTo(year, month - 1) + DaysIn(year, month)
  }

  /** Four hundred years of the Gregorian calendar have 97 leap days. */
  lemma YearIs(year: int)
    ensures DaysUpTo(year, 12) == if year % 400 == 0 || (year % 4 == 0 && year % 100 != 0) then 366 else 365
    ensures DaysIn(year, 1) == DaysIn(year, 3) == DaysIn(year, 5) == DaysIn(year, 12) == 31
  {
    var f := DaysIn(year, 2);
    assert DaysUpTo(year, 1) == 31;
    assert DaysUpTo(year, 2) == 31 + f;
    assert DaysUpTo(year, 3) == 62 + f;
    assert DaysUpTo(year, 4) == 92 + f;
    assert DaysUpTo(year, 5) == 123 + f;
    assert DaysUpTo(year, 6) == 153 + f;
    assert DaysUpTo(year, 7) == 184 + f;
    assert DaysUpTo(year, 8) == 215 + f;
    assert DaysUpTo(year, 9) == 245 + f;
    assert DaysUpTo(year, 10) == 276 + f;
    assert DaysUpTo(year, 11) == 306 + f;
  }

  function TwoDigits(n: nat): string
    requires n < 100
  {
    ["0123456789"[n / 10], "0123456789"[n % 10]]
  }

  function DateText(year: nat, month: nat, day: nat): string
    requires year < 10000 && month < 100 && day < 100
  {
    TwoDigits(year / 100) + TwoDigits(year % 100) + "-" + TwoDigits(month) + "-" + TwoDigits(day)
  }

  lemma TwoDigitsAre(n: nat)
    requires n < 100
    ensures |TwoDigits(n)| == 2 && AllDigits(TwoDigits(n)) && DigitsValue(TwoDigits(n)) == n
  {
    var s := TwoDigits(n);
    assert s[..1] == [s[0]] && s[..1][..0] == "";
    assert DigitsValue(s[..1]) == n / 10;
  }

  lemma DigitsAppend(a: string, b: string)
    requires |b| == 2
    ensures DigitsValue(a + b) == 100 * DigitsValue(a) + DigitsValue(b)
    ensures AllDigits(a + b) <==> AllDigits(a) && AllDigits(b)
  {
    assert forall c :: c in a ==> c in a + b;
    assert forall c :: c in b ==> c in a + b;
    assert (a + b)[..|a| + 1] == a + [b[0]] && (a + [b[0]])[..|a|] == a;
    assert b[..1] == [b[0]] && b[..1][..0] == "";
    assert DigitsValue(b[..1]) == b[0] as int - '0' as int;
    assert DigitsValue(a + [b[0]]) == 10 * DigitsValue(a) + DigitsValue(b[..1]);
  }

  /** Which dates written out with four, two and two digits can be read: those of the calendar. */
  lemma DateIs(year: nat, month: nat, day: nat)
    requires year < 10000 && month < 100 && day < 100
    ensures IsDate(DateText(year, month, day)) <==> 1 <= month <= 12 && 1 <= day <= DaysIn(year, month)
  {
    hide TwoDigits, DigitsValue, AllDigits, DaysIn;
    var s := DateText(year, month, day);
    var y := TwoDigits(year / 100) + TwoDigits(year % 100);
    TwoDigitsAre(year / 100);
    TwoDigitsAre(year % 100);
    TwoDigitsAre(month);
    TwoDigitsAre(day);
    DigitsAppend(TwoDigits(year / 100), TwoDigits(year % 100));
    assert s[..4] == y && s[5..7] == TwoDigits(month) && s[8..] == TwoDigits(day);
  }

  lemma ReadTwo(s: string) returns (n: nat)
    requires |s| == 2 && AllDigits(s)
    ensures n < 100 && TwoDigits(n) == s
  {
    var a, b := s[0] as int - '0' as int, s[1] as int - '0' as int;
    assert s[0] in s && s[1] in s;
    n := 10 * a + b;
    assert n / 10 == a && n % 10 == b;
    DigitIs(a);
    DigitIs(b);
  }

  lemma DigitIs(d: nat)
    requires d < 10
    ensures "0123456789"[d] as int == '0' as int + d
  {
  }

  /** Nothing else is a date. */
  lemma OnlyDates(s: string) returns (year: nat, month: nat, day: nat)
    requires IsDate(s)
    ensures year < 10000 && month < 100 && day < 100 && s == DateText(year, month, day)
  {
    hide TwoDigits, DigitsValue, AllDigits, DaysIn;
    assert s[..4] == s[..2] + s[2..4];
    DigitsAppend(s[..2], s[2..4]);
    var a := ReadTwo(s[..2]);
    var b := ReadTwo(s[2..4]);
    month := ReadTwo(s[5..7]);
    day := ReadTwo(s[8..]);
    year := 100 * a + b;
    assert year / 100 == a && year % 100 == b;
    assert s == s[..2] + s[2..4] + [s[4]] + s[5..7] + [s[7]] + s[8..];
  }
}
