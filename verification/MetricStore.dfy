/**
 The metrics store: clc/metrics/metric_store.go and query_generator.go over the key-value
 store of clc/store/store.go. Counters are kept in memory, persisted under their keys, sent as
 queries, and deleted by date once a transmission has succeeded.

 A stored value is a JSON text; what matters is whether it reads as an integer or as a time.
 */
module MetricStore {
  import opened MetricKeys
  import opened Sorting
  import opened Text
  import opened Wrappers

  // ---------- the key-value store ----------

  datatype Value = Number(n: int) | Instant(t: int) | Other(json: string)

  type Entries = map<string, Value>

  class Store {
    var entries: Entries

    constructor ()
      ensures entries == map[]
    {
      entries := map[];
    }

    method SetEntry(key: string, val: Value)
      modifies this
      ensures entries == old(entries)[key := val]
    {
      entries := entries[key := val];
    }

    method GetEntry(key: string) returns (r: Option<Value>)
      ensures r == if key in entries then Some(entries[key]) else None
    {
      r := if key in entries then Some(entries[key]) else None;
    }

    method UpdateEntry(key: string, f: Option<Value> -> Value)
      modifies this
      ensures entries == old(entries)[key := f(if key in old(entries) then Some(old(entries)[key]) else None)]
    {
      entries := entries[key := f(if key in entries then Some(entries[key]) else None)];
    }

    /** An iterator of the database: the keys in byte order. */
    method GetKeysWithPrefix(prefix: string) returns (keys: seq<string>)
      ensures forall s :: s in keys <==> s in entries && HasPrefix(s, prefix)
      ensures Sorted(Same, keys) && DistinctKeys(Same, keys)
    {
      var todo := set s | s in entries && HasPrefix(s, prefix);
      var picked := [];
      ghost var all := todo;
      while todo != {}
        invariant todo <= all
        invariant forall s :: s in picked <==> s in all && s !in todo
        invariant DistinctKeys(Same, picked)
        decreases |todo|
      {
        var s :| s in todo;
        picked := picked + [s];
        todo := todo - {s};
      }
      keys := SortBy(Same, picked);
      SortBySorts(Same, picked);
      SameElements(Same, picked);
      DistinctPermuted(Same, picked, keys);
    }

    method DeleteEntriesWithPrefixes(prefixes: set<string>)
      modifies this
      ensures entries == map s | s in old(entries) && !exists p :: p in prefixes && HasPrefix(s, p) :: old(entries)[s]
    {
      entries := map s | s in entries && !exists p :: p in prefixes && HasPrefix(s, p) :: entries[s];
    }
  }

  /** What an iteration over the store reports as an error. */
  predicate Bad(db: Entries, s: string)
    requires s in db
  {
    Unmarshal(s).None? || !db[s].Number?
  }

  /** An iteration with this prefix gets to s: no bad entry comes at or before it. */
  ghost predicate Visible(db: Entries, prefix: string, s: string) {
    && s in db && HasPrefix(s, prefix) && !Bad(db, s)
    && forall b :: b in db && HasPrefix(b, prefix) && Bad(db, b) ==> !Less(b, s)
  }

  // ---------- queries ----------

  datatype GlobalAttributes = GlobalAttributes(id: string, architecture: string, os: string)

  datatype SessionAttributes = SessionAttributes(version: string, acquisitionSource: string)

  /** The four attributes that one query is about. */
  datatype Attributes =
    Attributes(clusterID: string, viridianClusterID: string, acquisitionSource: string, version: string)

  type MetricValues = map<string, int>

  datatype Query = Query(
    date: string, id: string, architecture: string, os: string,
    version: string, acquisitionSource: string, clusterUUID: string, viridianClusterID: string,
    clusterConfigCount: int, sqlRunCount: int, mapRunCount: int, topicRunCount: int,
    queueRunCount: int, multiMapRunCount: int, listRunCount: int, demoRunCount: int,
    projectRunCount: int, jobRunCount: int, viridianRunCount: int, setRunCount: int,
    shellRunCount: int, scriptRunCount: int, totalRunCount: int, atomicLongRunCount: int,
    interactiveModeRunCount: int, noninteractiveModeRunCount: int, scriptModeRunCount: int)

  function AttributesOf(k: StorageKey): Attributes {
    Attributes(k.clusterID, k.viridianClusterID, k.acquisitionSource, k.version)
  }

  function Get(m: MetricValues, name: string): int {
    if name in m then m[name] else 0
  }

  function MakeQuery(ga: GlobalAttributes, date: string, a: Attributes, m: MetricValues): Query {
    Query(date, ga.id, ga.architecture, ga.os, a.version, a.acquisitionSource, a.clusterID, a.viridianClusterID,
          Get(m, "cluster-config-count"), Get(m, "sql"), Get(m, "map"), Get(m, "topic"), Get(m, "queue"),
          Get(m, "multimap"), Get(m, "list"), Get(m, "demo"), Get(m, "project"), Get(m, "job"), Get(m, "viridian"),
          Get(m, "set"), Get(m, "shell"), Get(m, "script"), Get(m, "total"), Get(m, "atomiclong"),
          Get(m, "interactive-mode"), Get(m, "noninteractive-mode"), Get(m, "script-mode"))
  }

  function FirstPingQuery(ga: GlobalAttributes, sa: SessionAttributes, date: string): Query {
    Query(date, ga.id, ga.architecture, ga.os, sa.version, sa.acquisitionSource, "", "",
          0, 0, 0, 0, 0, 0, 0, 0, 0, 0, 0, 0, 0, 0, 0, 0, 0, 0, 0)
  }

  const RECOGNISED: set<string> := {
    "cluster-config-count", "sql", "map", "topic", "queue", "multimap", "list", "demo", "project", "job",
    "viridian", "set", "shell", "script", "total", "atomiclong", "interactive-mode", "noninteractive-mode",
    "script-mode"
  }

  /** The count that a query reports for a metric. */
  function CountOf(q: Query, metric: string): int {
    match metric
    case "cluster-config-count" => q.clusterConfigCount
    case "sql" => q.sqlRunCount
    case "map" => q.mapRunCount
    case "topic" => q.topicRunCount
    case "queue" => q.queueRunCount
    case "multimap" => q.multiMapRunCount
    case "list" => q.listRunCount
    case "demo" => q.demoRunCount
    case "project" => q.projectRunCount
    case "job" => q.jobRunCount
    case "viridian" => q.viridianRunCount
    case "set" => q.setRunCount
    case "shell" => q.shellRunCount
    case "script" => q.scriptRunCount
    case "total" => q.totalRunCount
    case "atomiclong" => q.atomicLongRunCount
    case "interactive-mode" => q.interactiveModeRunCount
    case "noninteractive-mode" => q.noninteractiveModeRunCount
    case "script-mode" => q.scriptModeRunCount
    case _ => 0
  }

  function QueryAttributes(q: Query): Attributes {
    Attributes(q.clusterUUID, q.viridianClusterID, q.acquisitionSource, q.version)
  }

  lemma QueryCounts(ga: GlobalAttributes, date: string, a: Attributes, m: MetricValues, metric: string)
    ensures CountOf(MakeQuery(ga, date, a, m), metric) == if metric in RECOGNISED then Get(m, metric) else 0
    ensures QueryAttributes(MakeQuery(ga, date, a, m)) == a
  {
  }

  /** All that the queries report about the metric of k on its date for its attributes. */
  function Reported(qs: seq<Query>, k: StorageKey): int {
    if qs == [] then 0
    else
      var q := qs[|qs| - 1];
      Reported(qs[..|qs| - 1], k)
      + if q.date == k.date && QueryAttributes(q) == AttributesOf(k) then CountOf(q, k.metric) else 0
  }

  lemma {:induction false} ReportedAppend(a: seq<Query>, b: seq<Query>, k: StorageKey)
    ensures Reported(a + b, k) == Reported(a, k) + Reported(b, k)
  {
    if b == [] {
      assert a + b == a;
    } else {
      assert (a + b)[..|a + b| - 1] == a + b[..|b| - 1];
      ReportedAppend(a, b[..|b| - 1], k);
    }
  }

  // ---------- generating the queries ----------

  predicate OfDate(k: StorageKey, date: string) {
    k.Made() && k.Clean() && k.date == date
  }

  predicate Collected(entries: map<Attributes, MetricValues>, k: StorageKey) {
    AttributesOf(k) in entries && k.metric in entries[AttributesOf(k)]
  }

  /** Some readable key under the prefix is of the date. */
  ghost predicate HasKeyOf(db: Entries, date: string) {
    exists s :: s in db && HasPrefix(s, KEY_PREFIX) && Unmarshal(s).Some? && Unmarshal(s).value.date == date
  }

  /** What is persisted for k. */
  function Stored(db: Entries, k: StorageKey): int {
    if k.Marshal() in db && db[k.Marshal()].Number? then db[k.Marshal()].n else 0
  }

  lemma VisibleExactly(db: Entries, prefix: string, keys: seq<string>, n: nat)
    requires forall s :: s in keys <==> s in db && HasPrefix(s, prefix)
    requires Sorted(Same, keys) && DistinctKeys(Same, keys)
    requires n <= |keys| && forall j :: 0 <= j < n ==> !Bad(db, keys[j])
    requires n < |keys| ==> Bad(db, keys[n])
    ensures forall s :: Visible(db, prefix, s) <==> s in keys[..n]
  {
    forall i, j | 0 <= i < j < |keys| ensures Less(keys[i], keys[j]) && !Less(keys[j], keys[i]) {
      assert Same(keys[i]) != Same(keys[j]) && !Less(Same(keys[j]), Same(keys[i]));
      LessTotal(keys[i], keys[j]);
    }
    hide HasPrefix, Bad;
    forall s | Visible(db, prefix, s) ensures s in keys[..n] {
      var j :| 0 <= j < |keys| && keys[j] == s;
      if n < |keys| {
        assert keys[n] in db && HasPrefix(keys[n], prefix);
      }
    }
    forall s | s in keys[..n] ensures Visible(db, prefix, s) {
      var j :| 0 <= j < n && keys[j] == s;
      forall b | b in db && HasPrefix(b, prefix) && Bad(db, b) ensures !Less(b, s) {
        var m :| 0 <= m < |keys| && keys[m] == b;
      }
    }
  }

  lemma CollectOne(db: Entries, date: string, s: string, entries: map<Attributes, MetricValues>,
                   entries': map<Attributes, MetricValues>)
    requires IsDate(date) && s in db && HasPrefix(s, DatePrefix(date)) && !Bad(db, s)
    requires var k0 := Unmarshal(s).value; var a := AttributesOf(k0);
             entries' == entries[a := (if a in entries then entries[a] else map[])[k0.metric := db[s].n]]
    ensures forall k | OfDate(k, date) && k.Marshal() != s :: Collected(entries', k) <==> Collected(entries, k)
    ensures forall k | OfDate(k, date) && k.Marshal() != s && Collected(entries, k) ::
              entries'[AttributesOf(k)][k.metric] == entries[AttributesOf(k)][k.metric]
    ensures forall k | OfDate(k, date) && k.Marshal() == s ::
              Collected(entries', k) && entries'[AttributesOf(k)][k.metric] == db[s].n
  {
    ReadUnderPrefix(s, date);
    var k0 := Unmarshal(s).value;
    forall k | OfDate(k, date)
      ensures k.Marshal() == s <==> AttributesOf(k) == AttributesOf(k0) && k.metric == k0.metric
    {
      if k.Marshal() == s { MarshalInjective(k, k0); }
      if AttributesOf(k) == AttributesOf(k0) && k.metric == k0.metric { assert k == k0; }
    }
  }

  /** The counters of the date are collected from these keys, with their stored values. */
  ghost predicate CollectedFrom(db: Entries, date: string, entries: map<Attributes, MetricValues>, keys: seq<string>) {
    && (forall k | OfDate(k, date) :: Collected(entries, k) <==> k.Marshal() in keys)
    && (forall k | OfDate(k, date) && Collected(entries, k) ::
          entries[AttributesOf(k)][k.metric] == Stored(db, k))
    && (forall a :: a in entries ==> HasCounter(date, entries, a))
  }

  /** A group of attributes is there because of some counter. */
  ghost predicate HasCounter(date: string, entries: map<Attributes, MetricValues>, a: Attributes) {
    exists k :: OfDate(k, date) && Collected(entries, k) && AttributesOf(k) == a
  }

  lemma CollectNext(db: Entries, date: string, s: string, entries: map<Attributes, MetricValues>,
                    entries': map<Attributes, MetricValues>, keys: seq<string>)
    requires CollectedFrom(db, date, entries, keys)
    requires IsDate(date) && s in db && HasPrefix(s, DatePrefix(date)) && !Bad(db, s)
    requires var k0 := Unmarshal(s).value; var a := AttributesOf(k0);
             entries' == entries[a := (if a in entries then entries[a] else map[])[k0.metric := db[s].n]]
    ensures CollectedFrom(db, date, entries', keys + [s])
  {
    hide OfDate, HasPrefix, DatePrefix, AttributesOf, Unmarshal;
    CollectOne(db, date, s, entries, entries');
    CollectGroups(db, date, s, entries, entries');
  }

  lemma CollectGroups(db: Entries, date: string, s: string, entries: map<Attributes, MetricValues>,
                      entries': map<Attributes, MetricValues>)
    requires IsDate(date) && s in db && HasPrefix(s, DatePrefix(date)) && !Bad(db, s)
    requires var k0 := Unmarshal(s).value; var a := AttributesOf(k0);
             entries' == entries[a := (if a in entries then entries[a] else map[])[k0.metric := db[s].n]]
    requires forall a :: a in entries ==> HasCounter(date, entries, a)
    ensures forall a :: a in entries' ==> HasCounter(date, entries', a)
  {
    ReadUnderPrefix(s, date);
    hide HasPrefix, DatePrefix, AttributesOf, IsDate;
    var k0 := Unmarshal(s).value;
    forall a | a in entries'
      ensures HasCounter(date, entries', a)
    {
      if a == AttributesOf(k0) {
        assert OfDate(k0, date) && Collected(entries', k0);
      } else {
        var k :| OfDate(k, date) && Collected(entries, k) && AttributesOf(k) == a;
        assert Collected(entries', k);
      }
    }
  }

  /** The callback stops the iteration at the first bad entry, and the error is dropped. */

  method CollectDate(db: Store, date: string) returns (entries: map<Attributes, MetricValues>)
    requires IsDate(date)
    ensures forall k | OfDate(k, date) :: Collected(entries, k) <==> Visible(db.entries, DatePrefix(date), k.Marshal())
    ensures forall k | OfDate(k, date) && Collected(entries, k) ::
              entries[AttributesOf(k)][k.metric] == Stored(db.entries, k)
    ensures CollectedDue(db.entries, date, entries)
  {
    hide HasCounter;
    hide Visible, OfDate, HasPrefix, CollectedFrom, Stored, AttributesOf, IsDate;
    var prefix := DatePrefix(date);
    var keys := db.GetKeysWithPrefix(prefix);
    entries := map[];
    var i := 0;
    NothingCollected(db.entries, date);
    while i < |keys|
      invariant 0 <= i <= |keys|
      invariant forall j :: 0 <= j < i ==> !Bad(db.entries, keys[j])
      invariant CollectedFrom(db.entries, date, entries, keys[..i])
    {
      var s := keys[i];
      if Unmarshal(s).None? || !db.entries[s].Number? {
        break;
      }
      ghost var before := entries;
      var k0 := Unmarshal(s).value;
      var a := AttributesOf(k0);
      entries := entries[a := (if a in entries then entries[a] else map[])[k0.metric := db.entries[s].n]];
      CollectNext(db.entries, date, s, before, entries, keys[..i]);
      assert keys[..i + 1] == keys[..i] + [s];
      i := i + 1;
    }
    VisibleExactly(db.entries, prefix, keys, i);
    AllCollected(db.entries, date, entries, keys[..i]);
  }

  lemma NothingCollected(db: Entries, date: string)
    ensures CollectedFrom(db, date, map[], [])
  {
  }

  lemma AllCollected(db: Entries, date: string, entries: map<Attributes, MetricValues>, keys: seq<string>)
    requires CollectedFrom(db, date, entries, keys)
    requires forall s :: s in keys <==> Visible(db, DatePrefix(date), s)
    ensures forall k | OfDate(k, date) :: Collected(entries, k) <==> Visible(db, DatePrefix(date), k.Marshal())
    ensures forall k | OfDate(k, date) && Collected(entries, k) ::
              entries[AttributesOf(k)][k.metric] == Stored(db, k)
    ensures forall a :: a in entries ==> HasCounter(date, entries, a)
  {
    hide Visible, OfDate, Stored, AttributesOf, HasCounter;
  }

  // ---------- which queries there are ----------

  ghost predicate IsDue(db: Entries, dates: set<string>, k: StorageKey) {
    k.Made() && k.Clean() && k.date in dates && Visible(db, DatePrefix(k.date), k.Marshal())
  }

  /** The query is about the group of the counter. */
  predicate IsAbout(q: Query, k: StorageKey) {
    q.date == k.date && QueryAttributes(q) == AttributesOf(k)
  }

  predicate HasGlobals(q: Query, ga: GlobalAttributes) {
    q.id == ga.id && q.architecture == ga.architecture && q.os == ga.os
  }

  ghost predicate OneForEach(qs: seq<Query>) {
    forall i, j :: 0 <= i < j < |qs| ==> qs[i].date != qs[j].date || QueryAttributes(qs[i]) != QueryAttributes(qs[j])
  }

  /** One query for each date and group of attributes that has a counter to report, and no other. */
  ghost predicate AsksFor(db: Entries, ga: GlobalAttributes, dates: set<string>, qs: seq<Query>) {
    && (forall i :: 0 <= i < |qs| ==> HasGlobals(qs[i], ga) && ForDue(db, dates, qs[i]))
    && (forall k :: IsDue(db, dates, k) ==> AsksAbout(qs, k))
    && OneForEach(qs)
  }

  ghost predicate ForDue(db: Entries, dates: set<string>, q: Query) {
    exists k :: IsDue(db, dates, k) && IsAbout(q, k)
  }

  predicate AsksAbout(qs: seq<Query>, k: StorageKey) {
    exists i :: 0 <= i < |qs| && IsAbout(qs[i], k)
  }

  ghost predicate DateAsks(ga: GlobalAttributes, date: string, groups: set<Attributes>, qs: seq<Query>) {
    && (forall i :: 0 <= i < |qs| ==> HasGlobals(qs[i], ga) && qs[i].date == date && QueryAttributes(qs[i]) in groups)
    && (forall a :: a in groups ==> exists i :: 0 <= i < |qs| && QueryAttributes(qs[i]) == a)
    && OneForEach(qs)
  }

  lemma DateAsksNext(ga: GlobalAttributes, date: string, groups: set<Attributes>, qs: seq<Query>,
                     a: Attributes, m: MetricValues)
    requires DateAsks(ga, date, groups, qs) && a !in groups
    ensures DateAsks(ga, date, groups + {a}, qs + [MakeQuery(ga, date, a, m)])
  {
    var q, all := MakeQuery(ga, date, a, m), qs + [MakeQuery(ga, date, a, m)];
    forall b | b in groups + {a}
      ensures exists i :: 0 <= i < |all| && QueryAttributes(all[i]) == b
    {
      if b in groups {
        var i :| 0 <= i < |qs| && QueryAttributes(qs[i]) == b;
        assert QueryAttributes(all[i]) == b;
      } else {
        assert QueryAttributes(all[|qs|]) == b;
      }
    }
  }

  /** The groups collected for a date are those of the counters to report. */
  ghost predicate CollectedDue(db: Entries, date: string, entries: map<Attributes, MetricValues>) {
    && (forall k | OfDate(k, date) :: Collected(entries, k) <==> Visible(db, DatePrefix(date), k.Marshal()))
    && (forall a :: a in entries ==> HasCounter(date, entries, a))
  }

  lemma DueWithDate(db: Entries, dates: set<string>, date: string, entries: map<Attributes, MetricValues>,
                    k: StorageKey)
    requires CollectedDue(db, date, entries) && date !in dates
    ensures IsDue(db, dates + {date}, k) <==> IsDue(db, dates, k) || (OfDate(k, date) && Collected(entries, k))
  {
    hide Visible;
  }

  lemma GroupIsDue(db: Entries, dates: set<string>, date: string, entries: map<Attributes, MetricValues>, q: Query)
    returns (k: StorageKey)
    requires CollectedDue(db, date, entries) && date !in dates
    requires q.date == date && QueryAttributes(q) in entries
    ensures IsDue(db, dates + {date}, k) && IsAbout(q, k)
  {
    hide Visible;
    assert HasCounter(date, entries, QueryAttributes(q));
    k :| OfDate(k, date) && Collected(entries, k) && AttributesOf(k) == QueryAttributes(q);
  }

  lemma AsksNext(db: Entries, ga: GlobalAttributes, dates: set<string>, qs: seq<Query>, date: string,
                 entries: map<Attributes, MetricValues>, more: seq<Query>)
    requires AsksFor(db, ga, dates, qs) && date !in dates && DateAsks(ga, date, entries.Keys, more)
    requires CollectedDue(db, date, entries)
    ensures AsksFor(db, ga, dates + {date}, qs + more)
  {
    hide IsDue, QueryAttributes, HasGlobals, CollectedDue, OneForEach, IsAbout;
    var all := qs + more;
    forall i | 0 <= i < |all|
      ensures HasGlobals(all[i], ga) && ForDue(db, dates + {date}, all[i])
    {
      if i < |qs| {
        assert ForDue(db, dates, qs[i]);
        var k :| IsDue(db, dates, k) && IsAbout(qs[i], k);
        DueWithDate(db, dates, date, entries, k);
      } else {
        var k := GroupIsDue(db, dates, date, entries, more[i - |qs|]);
      }
    }
    forall k | IsDue(db, dates + {date}, k)
      ensures AsksAbout(all, k)
    {
      DueWithDate(db, dates, date, entries, k);
      if IsDue(db, dates, k) {
        assert AsksAbout(qs, k);
        var i :| 0 <= i < |qs| && IsAbout(qs[i], k);
        assert IsAbout(all[i], k);
      } else {
        GroupIsAsked(ga, date, entries, more, k);
        var i :| 0 <= i < |more| && IsAbout(more[i], k);
        assert IsAbout(all[|qs| + i], k);
      }
    }
    forall i | 0 <= i < |qs|
      ensures qs[i].date in dates
    {
      assert ForDue(db, dates, qs[i]);
      DueIsOfDate(db, dates, qs[i]);
    }
    AllDiffer(dates, qs, date, more);
  }

  lemma GroupIsAsked(ga: GlobalAttributes, date: string, entries: map<Attributes, MetricValues>, more: seq<Query>,
                     k: StorageKey)
    requires DateAsks(ga, date, entries.Keys, more) && OfDate(k, date) && Collected(entries, k)
    ensures AsksAbout(more, k)
  {
    hide QueryAttributes;
    var i :| 0 <= i < |more| && QueryAttributes(more[i]) == AttributesOf(k);
    assert IsAbout(more[i], k);
  }

  lemma DueIsOfDate(db: Entries, dates: set<string>, q: Query)
    requires ForDue(db, dates, q)
    ensures q.date in dates
  {
  }

  lemma AllDiffer(dates: set<string>, qs: seq<Query>, date: string, more: seq<Query>)
    requires OneForEach(qs) && OneForEach(more) && date !in dates
    requires forall i :: 0 <= i < |qs| ==> qs[i].date in dates
    requires forall i :: 0 <= i < |more| ==> more[i].date == date
    ensures OneForEach(qs + more)
  {
    hide QueryAttributes;
  }

  /** What the queries for these dates should report about k. */
  ghost function Due(db: Entries, dates: set<string>, k: StorageKey): int {
    if k.date in dates && k.metric in RECOGNISED && Visible(db, DatePrefix(k.date), k.Marshal())
    then Stored(db, k) else 0
  }

  /** What the entries of a date contribute to the reports of k, apart from some attributes. */
  function DueIn(entries: map<Attributes, MetricValues>, without: set<Attributes>, date: string, k: StorageKey): int {
    if k.date == date && k.metric in RECOGNISED && AttributesOf(k) !in without && Collected(entries, k)
    then entries[AttributesOf(k)][k.metric] else 0
  }

  /** The queries of one date, one for each combination of attributes, in any order. */
  method DateQueries(ga: GlobalAttributes, date: string, entries: map<Attributes, MetricValues>)
      returns (qs: seq<Query>)
    ensures forall k: StorageKey :: Reported(qs, k) == DueIn(entries, {}, date, k)
    ensures DateAsks(ga, date, entries.Keys, qs)
  {
    hide DateAsks;
    qs := [];
    var todo := entries.Keys;
    NothingAsked(ga, date);
    assert entries.Keys - todo == {};
    while todo != {}
      invariant todo <= entries.Keys
      invariant DateAsks(ga, date, entries.Keys - todo, qs)
      invariant forall k: StorageKey :: Reported(qs, k) == DueIn(entries, todo, date, k)
      decreases |todo|
    {
      var a :| a in todo;
      var q := MakeQuery(ga, date, a, entries[a]);
      forall k: StorageKey
        ensures Reported(qs + [q], k)
             == Reported(qs, k) + if k.date == date && AttributesOf(k) == a && k.metric in RECOGNISED
                                  then Get(entries[a], k.metric) else 0
      {
        QueryCounts(ga, date, a, entries[a], k.metric);
        assert (qs + [q])[..|qs|] == qs;
      }
      DateAsksNext(ga, date, entries.Keys - todo, qs, a, entries[a]);
      assert entries.Keys - todo + {a} == entries.Keys - (todo - {a});
      qs := qs + [q];
      todo := todo - {a};
    }
    assert entries.Keys - todo == entries.Keys;
  }

  lemma NothingAsked(ga: GlobalAttributes, date: string)
    ensures DateAsks(ga, date, {}, []) && forall db :: AsksFor(db, ga, {}, [])
  {
  }

  method GenerateQueries(db: Store, ga: GlobalAttributes, dates: set<string>) returns (qs: seq<Query>)
    requires forall d :: d in dates ==> IsDate(d)
    ensures forall k: StorageKey | k.Made() && k.Clean() :: Reported(qs, k) == Due(db.entries, dates, k)
    ensures AsksFor(db.entries, ga, dates, qs)
  {
    hide AsksFor, DateAsks, CollectedDue, Visible, Stored, Collected;
    qs := [];
    var todo := dates;
    NothingAsked(ga, "");
    assert AsksFor(db.entries, ga, {}, []) && dates - todo == {};
    while todo != {}
      invariant todo <= dates
      invariant AsksFor(db.entries, ga, dates - todo, qs)
      invariant forall k: StorageKey | k.Made() && k.Clean() :: Reported(qs, k) == Due(db.entries, dates - todo, k)
      decreases |todo|
    {
      var date :| date in todo;
      var entries := CollectDate(db, date);
      var more := DateQueries(ga, date, entries);
      forall k: StorageKey | k.Made() && k.Clean()
        ensures Reported(qs + more, k) == Due(db.entries, dates - (todo - {date}), k)
      {
        ReportedAppend(qs, more, k);
        assert k.date == date ==> OfDate(k, date);
      }
      AsksNext(db.entries, ga, dates - todo, qs, date, entries, more);
      assert dates - todo + {date} == dates - (todo - {date});
      qs := qs + more;
      todo := todo - {date};
    }
    assert dates - todo == dates;
  }

  // ---------- what is due before today ----------

  /** A counter of an earlier or later day that a transmission reports. */
  ghost predicate IsDueBefore(db: Entries, today: string, k: StorageKey) {
    k.Made() && k.Clean() && k.date != today && Visible(db, DatePrefix(k.date), k.Marshal())
  }

  ghost predicate AnyDue(db: Entries, today: string) {
    exists k: StorageKey :: IsDueBefore(db, today, k)
  }

  /** One query for each group of such counters; without any the first ping. */
  ghost predicate IsReport(db: Entries, ga: GlobalAttributes, sa: SessionAttributes, today: string, qs: seq<Query>) {
    if !AnyDue(db, today) then qs == [FirstPingQuery(ga, sa, today)]
    else
      && (forall i :: 0 <= i < |qs| ==> HasGlobals(qs[i], ga) && ForDueBefore(db, today, qs[i]))
      && (forall k :: IsDueBefore(db, today, k) ==> AsksAbout(qs, k))
      && OneForEach(qs)
  }

  ghost predicate ForDueBefore(db: Entries, today: string, q: Query) {
    exists k :: IsDueBefore(db, today, k) && IsAbout(q, k)
  }

  lemma DueDates(db: Entries, ga: GlobalAttributes, sa: SessionAttributes, dates: set<string>, today: string,
                 qs: seq<Query>)
    requires forall d :: d in dates <==> HasKeyOf(db, d) && d != today
    requires AsksFor(db, ga, dates, qs)
    ensures qs == [] <==> !AnyDue(db, today)
    ensures qs != [] ==> IsReport(db, ga, sa, today, qs)
  {
    hide IsDueBefore, HasKeyOf, HasGlobals, OneForEach, AsksAbout, ForDueBefore, ForDue, AnyDue;
    forall i | 0 <= i < |qs|
      ensures ForDueBefore(db, today, qs[i]) && AnyDue(db, today)
    {
      ForDueAlike(db, dates, today, qs[i]);
    }
    forall k | IsDueBefore(db, today, k)
      ensures AsksAbout(qs, k)
    {
      DueAlike(db, dates, today, k);
    }
    if qs != [] {
      ForDueAlike(db, dates, today, qs[0]);
    } else if AnyDue(db, today) {
      var k := SomeDue(db, today);
      assert AsksAbout(qs, k);
      SomeQuery(qs, k);
    }
  }

  lemma SomeDue(db: Entries, today: string) returns (k: StorageKey)
    requires AnyDue(db, today)
    ensures IsDueBefore(db, today, k)
  {
    k :| IsDueBefore(db, today, k);
  }

  lemma SomeQuery(qs: seq<Query>, k: StorageKey)
    requires AsksAbout(qs, k)
    ensures qs != []
  {
  }

  lemma ForDueAlike(db: Entries, dates: set<string>, today: string, q: Query)
    requires forall d :: d in dates <==> HasKeyOf(db, d) && d != today
    requires ForDue(db, dates, q)
    ensures ForDueBefore(db, today, q) && AnyDue(db, today)
  {
    hide IsDue, IsDueBefore, HasKeyOf, IsAbout;
    var k :| IsDue(db, dates, k) && IsAbout(q, k);
    DueAlike(db, dates, today, k);
  }

  lemma DueAlike(db: Entries, dates: set<string>, today: string, k: StorageKey)
    requires forall d :: d in dates <==> HasKeyOf(db, d) && d != today
    ensures IsDue(db, dates, k) <==> IsDueBefore(db, today, k)
  {
    hide Visible, HasKeyOf;
    if IsDueBefore(db, today, k) { VisibleHasKey(db, k); }
  }

  lemma VisibleHasKey(db: Entries, k: StorageKey)
    requires k.Made() && k.Clean() && Visible(db, DatePrefix(k.date), k.Marshal())
    ensures HasKeyOf(db, k.date)
  {
    MarshalPrefix(k);
    KeyRoundTrip(k);
  }

  /** A query has the attributes of its group, the counts by their names, and those of the program. */
  lemma QueryFields(ga: GlobalAttributes, date: string, a: Attributes, m: MetricValues)
    ensures var q := MakeQuery(ga, date, a, m);
            && q.date == date && q.id == ga.id && q.architecture == ga.architecture && q.os == ga.os
            && q.version == a.version && q.acquisitionSource == a.acquisitionSource
            && q.clusterUUID == a.clusterID && q.viridianClusterID == a.viridianClusterID
    ensures forall name, n :: m == map[name := n] ==>
              var q := MakeQuery(ga, date, a, m);
              && q.clusterConfigCount == (if name == "cluster-config-count" then n else 0)
              && q.sqlRunCount == (if name == "sql" then n else 0)
              && q.mapRunCount == (if name == "map" then n else 0)
              && q.topicRunCount == (if name == "topic" then n else 0)
              && q.queueRunCount == (if name == "queue" then n else 0)
              && q.multiMapRunCount == (if name == "multimap" then n else 0)
              && q.listRunCount == (if name == "list" then n else 0)
              && q.demoRunCount == (if name == "demo" then n else 0)
              && q.projectRunCount == (if name == "project" then n else 0)
              && q.jobRunCount == (if name == "job" then n else 0)
              && q.viridianRunCount == (if name == "viridian" then n else 0)
              && q.setRunCount == (if name == "set" then n else 0)
              && q.shellRunCount == (if name == "shell" then n else 0)
              && q.scriptRunCount == (if name == "script" then n else 0)
              && q.totalRunCount == (if name == "total" then n else 0)
              && q.atomicLongRunCount == (if name == "atomiclong" then n else 0)
              && q.interactiveModeRunCount == (if name == "interactive-mode" then n else 0)
              && q.noninteractiveModeRunCount == (if name == "noninteractive-mode" then n else 0)
              && q.scriptModeRunCount == (if name == "script-mode" then n else 0)
  {
  }

  /** The first ping has the attributes of the program and reports no counts. */
  lemma FirstPingFields(ga: GlobalAttributes, sa: SessionAttributes, date: string, metric: string)
    ensures var q := FirstPingQuery(ga, sa, date);
            && HasGlobals(q, ga) && q.date == date && q.version == sa.version
            && q.acquisitionSource == sa.acquisitionSource && q.clusterUUID == q.viridianClusterID == ""
            && CountOf(q, metric) == 0
  {
  }

  // ---------- the store of metrics ----------

  const NEXT_PING_TRY_TIME_KEY := "metrics-try-next-time"
  const TWELVE_HOURS := 12 * 3600 * 1_000_000_000

  datatype Key = Key(date: string, clusterID: string, viridianClusterID: string)

  function NewStorageKey(key: Key, sa: SessionAttributes, metric: string): StorageKey {
    StorageKey(key.date, key.clusterID, key.viridianClusterID, KEY_PREFIX, sa.acquisitionSource, sa.version, metric)
  }

  type Counters = map<StorageKey, int>

  function Counter(m: Counters, k: StorageKey): int {
    if k in m then m[k] else 0
  }

  /** What an increment of the dotted metrics adds to k. */
  function Added(key: Key, sa: SessionAttributes, metrics: seq<string>, k: StorageKey): nat {
    if metrics == [] then 0
    else
      Added(key, sa, metrics[..|metrics| - 1], k)
      + if NewStorageKey(key, sa, metrics[|metrics| - 1]) == k then 1 else 0
  }

  /** How a call of Send ends. */
  datatype Outcome = BadTryTime | TooEarly | NothingToSend | NotSent | Sent

  /** Every key under the prefix can be read, and its value too. */
  ghost predicate Tidy(db: Entries) {
    forall s :: s in db && HasPrefix(s, KEY_PREFIX) ==> !Bad(db, s)
  }

  lemma TidyShowsAll(db: Entries, k: StorageKey)
    requires Tidy(db) && k.Made() && k.Clean()
    ensures k.Marshal() in db ==> Visible(db, DatePrefix(k.date), k.Marshal())
  {
    MarshalPrefix(k);
    CleanDate(k, k.date);
    assert HasPrefix(DatePrefix(k.date), KEY_PREFIX);
  }

  /** A value that cannot be read as a number is overwritten; otherwise the count is added. */
  function Accumulate(val: int): Option<Value> -> Value {
    (current: Option<Value>) =>
      if current.Some? && current.value.Number? then Number(val + current.value.n) else Number(val)
  }

  class MetricStore {
    var increments: Counters
    var updates: Counters
    const globalAttrs: GlobalAttributes
    const sessionAttrs: SessionAttributes
    const db: Store
    /** The queries of all successful transmissions. */
    var sent: seq<Query>

    constructor (ga: GlobalAttributes, sa: SessionAttributes, db: Store)
      ensures increments == map[] && updates == map[] && sent == [] && this.db == db
      ensures globalAttrs == ga && sessionAttrs == sa
    {
      increments, updates, sent := map[], map[], [];
      globalAttrs, sessionAttrs, this.db := ga, sa, db;
    }

    /** Everything counted for k: reported, persisted and in memory. */
    ghost function Total(k: StorageKey): int
      reads this, db
    {
      Reported(sent, k) + Stored(db.entries, k) + Counter(increments, k)
    }

    method Increment(key: Key, metric: string)
      modifies this
      ensures forall k ::
                Counter(increments, k) == Counter(old(increments), k) + Added(key, sessionAttrs, Split(metric, '.'), k)
      ensures forall k :: k in increments ==>
                k in old(increments) || exists m :: m in Split(metric, '.') && k == NewStorageKey(key, sessionAttrs, m)
      ensures updates == old(updates) && sent == old(sent)
    {
      var metrics := Split(metric, '.');
      for i := 0 to |metrics|
        invariant forall k ::
                    Counter(increments, k) == Counter(old(increments), k) + Added(key, sessionAttrs, metrics[..i], k)
        invariant forall k :: k in increments ==>
                    k in old(increments) || exists m :: m in metrics[..i] && k == NewStorageKey(key, sessionAttrs, m)
        invariant updates == old(updates) && sent == old(sent)
      {
        assert metrics[..i + 1][..i] == metrics[..i] && metrics[i] in metrics[..i + 1];
        var sk := NewStorageKey(key, sessionAttrs, metrics[i]);
        increments := increments[sk := (if sk in increments then increments[sk] else 0) + 1];
      }
      assert metrics[..|metrics|] == metrics;
    }

    method StoreValue(key: Key, metric: string, val: int)
      modifies this
      ensures updates.Keys == old(updates).Keys + KeysOf(key, Split(metric, '.'))
      ensures forall k :: k in updates ==>
                updates[k] == if k in KeysOf(key, Split(metric, '.')) then val else old(updates)[k]
      ensures increments == old(increments) && sent == old(sent)
    {
      var metrics := Split(metric, '.');
      for i := 0 to |metrics|
        invariant updates.Keys == old(updates).Keys + KeysOf(key, metrics[..i])
        invariant forall k :: k in updates ==>
                    updates[k] == if k in KeysOf(key, metrics[..i]) then val else old(updates)[k]
        invariant increments == old(increments) && sent == old(sent)
      {
        assert metrics[..i + 1] == metrics[..i] + [metrics[i]];
        assert KeysOf(key, metrics[..i + 1]) ==
                 KeysOf(key, metrics[..i]) + {NewStorageKey(key, sessionAttrs, metrics[i])};
        updates := updates[NewStorageKey(key, sessionAttrs, metrics[i]) := val];
      }
      assert metrics[..|metrics|] == metrics;
    }

    function KeysOf(key: Key, metrics: seq<string>): set<StorageKey> {
      set m | m in metrics :: NewStorageKey(key, sessionAttrs, m)
    }

    /** The keys in memory are those that NewStorageKey makes. */
    ghost predicate Valid()
      reads this
    {
      (forall k :: k in increments ==> k.Made()) && (forall k :: k in updates ==> k.Made())
    }

    ghost predicate CleanInMemory()
      reads this
    {
      (forall k :: k in increments ==> k.Clean()) && (forall k :: k in updates ==> k.Clean())
    }

    method PersistIncrementMetrics()
      requires Valid()
      modifies `increments, db
      ensures increments == map[]
      ensures CountsAdded(old(db.entries), db.entries, old(increments), {})
    {
      hide CountsAdded, StorageKey.Made, StorageKey.Marshal, Stored;
      ghost var before := db.entries;
      var counters := increments;
      var todo := counters.Keys;
      StartPersisting(before, counters);
      while todo != {}
        invariant todo <= counters.Keys && CountsAdded(before, db.entries, counters, todo)
        decreases |todo|
        modifies db
      {
        var key :| key in todo;
        ghost var middle := db.entries;
        db.UpdateEntry(key.Marshal(), Accumulate(counters[key]));
        CountAdded(before, middle, db.entries, counters, todo, key, Accumulate(counters[key]));
        todo := todo - {key};
      }
      increments := map[];
    }

    method PersistStoreMetrics()
      requires Valid()
      modifies `updates, db
      ensures updates == map[]
      ensures ValuesSet(old(db.entries), db.entries, old(updates), {})
    {
      hide ValuesSet, StorageKey.Made, StorageKey.Marshal, Stored;
      ghost var before := db.entries;
      var values := updates;
      var todo := values.Keys;
      StartPersisting(before, values);
      while todo != {}
        invariant todo <= values.Keys && ValuesSet(before, db.entries, values, todo)
        decreases |todo|
        modifies db
      {
        var key :| key in todo;
        ghost var middle := db.entries;
        db.SetEntry(key.Marshal(), Number(values[key]));
        ValueSet(before, middle, db.entries, values, todo, key);
        todo := todo - {key};
      }
      updates := map[];
    }

    /** The first step of Send: the counters are added to the persisted ones, then the stored values are written. */
    method PersistMetrics()
      requires Valid()
      modifies this, db
      ensures increments == map[] && updates == map[] && sent == old(sent)
      ensures forall k: StorageKey | k.Made() && k.Clean() && k !in old(updates) ::
                Stored(db.entries, k) == Stored(old(db.entries), k) + Counter(old(increments), k)
      ensures forall k: StorageKey | k.Made() && k.Clean() && k in old(updates) ::
                Stored(db.entries, k) == old(updates)[k]
      ensures NEXT_PING_TRY_TIME_KEY in db.entries <==> NEXT_PING_TRY_TIME_KEY in old(db.entries)
      ensures NEXT_PING_TRY_TIME_KEY in db.entries ==>
                db.entries[NEXT_PING_TRY_TIME_KEY] == old(db.entries)[NEXT_PING_TRY_TIME_KEY]
      ensures Tidy(old(db.entries)) && old(CleanInMemory()) ==> Tidy(db.entries)
    {
      ghost var e0, ks, us := db.entries, increments.Keys, updates.Keys;
      PersistIncrementMetrics();
      ghost var e1 := db.entries;
      PersistStoreMetrics();
      assert ks - {} == ks && us - {} == us;
      NotAKey(ks);
      NotAKey(us);
      if Tidy(e0) && old(CleanInMemory()) {
        StaysTidy(e0, e1, ks);
        StaysTidy(e1, db.entries, us);
      }
    }

    /** The dates of the keys under the prefix, except today. */
    method FindDatesToSend(today: string) returns (dates: set<string>)
      ensures forall d :: d in dates <==> HasKeyOf(db.entries, d) && d != today
      ensures forall d :: d in dates ==> IsDate(d)
      ensures forall k: StorageKey | k.Made() && k.Clean() && k.Marshal() in db.entries ::
                k.date in dates || k.date == today
    {
      var keys := db.GetKeysWithPrefix(KEY_PREFIX);
      dates := {};
      for i := 0 to |keys|
        invariant forall d :: d in dates ==> IsDate(d) && HasKeyOf(db.entries, d)
        invariant forall s :: s in keys[..i] && Unmarshal(s).Some? ==> Unmarshal(s).value.date in dates
      {
        var k0 := Unmarshal(keys[i]);
        assert keys[..i + 1] == keys[..i] + [keys[i]];
        if k0.Some? {
          dates := dates + {k0.value.date};
        }
      }
      assert keys[..|keys|] == keys;
      forall k: StorageKey | k.Made() && k.Clean() && k.Marshal() in db.entries
        ensures HasKeyOf(db.entries, k.date)
      {
        MarshalPrefix(k);
        KeyRoundTrip(k);
      }
      dates := dates - {today};
    }

    method DeleteSentDates(dates: set<string>)
      requires forall d :: d in dates ==> IsDate(d)
      modifies db
      ensures forall k: StorageKey | k.Made() && k.Clean() ::
                Stored(db.entries, k) == if k.date in dates then 0 else Stored(old(db.entries), k)
      ensures forall s :: s in db.entries ==> s in old(db.entries) && db.entries[s] == old(db.entries)[s]
    {
      var prefixes := set d | d in dates :: DatePrefix(d);
      db.DeleteEntriesWithPrefixes(prefixes);
      forall k: StorageKey | k.Made() && k.Clean()
        ensures (exists p :: p in prefixes && HasPrefix(k.Marshal(), p)) <==> k.date in dates
      {
        forall d | d in dates ensures HasPrefix(k.Marshal(), DatePrefix(d)) <==> k.date == d {
          CleanDate(k, d);
        }
        if k.date in dates { assert DatePrefix(k.date) in prefixes; }
      }
    }

    /** The next try time, if there is one, has come. */
    static predicate MayTry(db: Entries, now: int) {
      NEXT_PING_TRY_TIME_KEY in db ==>
        db[NEXT_PING_TRY_TIME_KEY].Instant? && now >= db[NEXT_PING_TRY_TIME_KEY].t
    }

    /** What happens between persisting and setting the next try time; transmit is the outcome of the transmission. */
    method SendPersisted(now: int, today: string, transmit: bool) returns (outcome: Outcome)
      requires Valid()
      modifies `sent, db
      ensures outcome == BadTryTime <==>
                NEXT_PING_TRY_TIME_KEY in old(db.entries) && !old(db.entries)[NEXT_PING_TRY_TIME_KEY].Instant?
      ensures outcome == TooEarly <==>
                NEXT_PING_TRY_TIME_KEY in old(db.entries) && old(db.entries)[NEXT_PING_TRY_TIME_KEY].Instant?
                                       && now < old(db.entries)[NEXT_PING_TRY_TIME_KEY].t
      ensures MayTry(old(db.entries), now) ==>
                outcome == if NEXT_PING_TRY_TIME_KEY in old(db.entries) && !AnyDue(old(db.entries), today)
                           then NothingToSend else if transmit then Sent else NotSent
      ensures outcome == Sent ==>
                && old(sent) <= sent
                && IsReport(old(db.entries), globalAttrs, sessionAttrs, today, sent[|old(sent)|..])
      ensures outcome != Sent ==> sent == old(sent) && db.entries == old(db.entries)
      ensures forall s :: s in db.entries ==> s in old(db.entries) && db.entries[s] == old(db.entries)[s]
      ensures outcome == Sent ==> forall k: StorageKey | k.Made() && k.Clean() ::
                Settled(old(db.entries), old(sent), today, k, db.entries, sent)
    {
      hide AsksFor, Visible, Settled, AnyDue, HasKeyOf, Reported, Stored;
      var next := db.GetEntry(NEXT_PING_TRY_TIME_KEY);
      if next.Some? {
        if !next.value.Instant? {
          return BadTryTime;
        }
        if now < next.value.t {
          return TooEarly;
        }
      }
      var dates := FindDatesToSend(today);
      var qs := GenerateQueries(db, globalAttrs, dates);
      DueDates(db.entries, globalAttrs, sessionAttrs, dates, today, qs);
      if |qs| == 0 {
        if next.Some? {
          return NothingToSend;
        }
        qs := [FirstPingQuery(globalAttrs, sessionAttrs, today)];
        forall k: StorageKey | k.Made() && k.Clean() ensures Reported(qs, k) == Due(db.entries, dates, k) {
          assert Reported([], k) == 0 by { ReportedNone(k); }
          FirstPingReports(globalAttrs, sessionAttrs, today, k);
        }
      }
      if !transmit {
        return NotSent;
      }
      ghost var before := db.entries;
      DeleteSentDates(dates);
      sent := sent + qs;
      assert sent[|old(sent)|..] == qs;
      forall k: StorageKey | k.Made() && k.Clean()
        ensures Settled(before, old(sent), today, k, db.entries, sent)
      {
        ReportedAppend(old(sent), qs, k);
        SettledNow(before, old(sent), today, k, dates, db.entries, qs);
      }
      outcome := Sent;
    }

    method Send(now: int, today: string, transmit: bool) returns (outcome: Outcome, ghost persisted: Entries)
      requires Valid()
      modifies this, db
      ensures increments == map[] && updates == map[]
      // the counters are persisted in any case
      ensures forall k: StorageKey | k.Made() && k.Clean() && k !in old(updates) ::
                Stored(persisted, k) == Stored(old(db.entries), k) + Counter(old(increments), k)
      // without a successful transmission nothing else changes
      ensures outcome != Sent ==>
                sent == old(sent) && forall k: StorageKey | k.Made() :: Stored(db.entries, k) == Stored(persisted, k)
      // with one, the entries of earlier dates are settled
      ensures outcome == Sent ==> forall k: StorageKey | k.Made() && k.Clean() ::
                Settled(persisted, old(sent), today, k, db.entries, sent)
      ensures outcome == BadTryTime <==>
                NEXT_PING_TRY_TIME_KEY in old(db.entries) && !old(db.entries)[NEXT_PING_TRY_TIME_KEY].Instant?
      ensures outcome == TooEarly <==>
                NEXT_PING_TRY_TIME_KEY in old(db.entries) && old(db.entries)[NEXT_PING_TRY_TIME_KEY].Instant?
                                       && now < old(db.entries)[NEXT_PING_TRY_TIME_KEY].t
      // otherwise there is nothing to send exactly when no earlier counter is visible and it is not the first time
      ensures MayTry(old(db.entries), now) ==>
                outcome == if NEXT_PING_TRY_TIME_KEY in old(db.entries) && !AnyDue(persisted, today)
                           then NothingToSend else if transmit then Sent else NotSent
      // what is sent is one query for each group of earlier counters, or the first ping
      ensures outcome == Sent ==>
                && old(sent) <= sent
                && IsReport(persisted, globalAttrs, sessionAttrs, today, sent[|old(sent)|..])
      // the next try time is set whatever happened
      ensures NEXT_PING_TRY_TIME_KEY in db.entries && db.entries[NEXT_PING_TRY_TIME_KEY] == Instant(now + TWELVE_HOURS)
      ensures Tidy(old(db.entries)) && old(CleanInMemory()) ==> Tidy(persisted) && Tidy(db.entries)
      // conservation: what was counted is reported, persisted or in memory
      ensures Tidy(old(db.entries)) && old(CleanInMemory()) ==>
                forall k: StorageKey | k.Made() && k.Clean() && k !in old(updates) && k.metric in RECOGNISED ::
                  Total(k) == old(Total(k))
    {
      PersistMetrics();
      persisted := db.entries;
      outcome := SendPersisted(now, today, transmit);
      ghost var settled := db.entries;
      hide Settled, Tidy, Reported, CleanInMemory, AnyDue, IsReport;
      db.SetEntry(NEXT_PING_TRY_TIME_KEY, Instant(now + TWELVE_HOURS));
      NextTryTimeSet(settled, db.entries);
      if outcome == Sent {
        StillSettled(persisted, old(sent), today, settled, db.entries, sent);
      }
      SubsetTidy(persisted, settled);
      if Tidy(persisted) {
        forall k: StorageKey | k.Made() && k.Clean() && k.metric in RECOGNISED
          ensures Reported(sent, k) + Stored(db.entries, k) == Reported(old(sent), k) + Stored(persisted, k)
        {
          if outcome == Sent {
            SettledConserves(persisted, old(sent), today, k, db.entries, sent);
          }
        }
      }
    }
  }

  lemma ReportedNone(k: StorageKey)
    ensures Reported([], k) == 0
  {
  }

  lemma FirstPingReports(ga: GlobalAttributes, sa: SessionAttributes, date: string, k: StorageKey)
    ensures Reported([FirstPingQuery(ga, sa, date)], k) == 0
  {
    FirstPingFields(ga, sa, date, k.metric);
    assert [FirstPingQuery(ga, sa, date)][..0] == [];
  }

  /** The dates sent are settled, and the others left. */
  lemma SettledNow(before: Entries, sent: seq<Query>, today: string, k: StorageKey, dates: set<string>,
                   after: Entries, qs: seq<Query>)
    requires k.Made() && k.Clean() && Reported(sent + qs, k) == Reported(sent, k) + Reported(qs, k)
    requires Reported(qs, k) == Due(before, dates, k)
    requires Stored(after, k) == if k.date in dates then 0 else Stored(before, k)
    requires k.Marshal() in before ==> k.date in dates || k.date == today
    requires today !in dates
    ensures Settled(before, sent, today, k, after, sent + qs)
  {
    hide Reported;
  }

  lemma NextTryTimeSet(before: Entries, after: Entries)
    requires NEXT_PING_TRY_TIME_KEY in after
    requires after == before[NEXT_PING_TRY_TIME_KEY := after[NEXT_PING_TRY_TIME_KEY]]
    ensures forall k: StorageKey | k.Made() :: Stored(after, k) == Stored(before, k)
    ensures Tidy(before) ==> Tidy(after)
  {
    forall k: StorageKey | k.Made() ensures Stored(after, k) == Stored(before, k) {
      NextIsNoKey(k);
    }
    assert NEXT_PING_TRY_TIME_KEY[0] == 'm' && KEY_PREFIX[0] == 'p';
  }

  lemma SubsetTidy(before: Entries, after: Entries)
    requires forall s :: s in after ==> s in before && after[s] == before[s]
    ensures Tidy(before) ==> Tidy(after)
  {
  }

  lemma StillSettled(before: Entries, sent: seq<Query>, today: string, after: Entries, after': Entries,
                     sent': seq<Query>)
    requires forall k: StorageKey | k.Made() && k.Clean() :: Settled(before, sent, today, k, after, sent')
    requires forall k: StorageKey | k.Made() :: Stored(after', k) == Stored(after, k)
    ensures forall k: StorageKey | k.Made() && k.Clean() :: Settled(before, sent, today, k, after', sent')
  {
    forall k: StorageKey | k.Made() && k.Clean() ensures Settled(before, sent, today, k, after', sent') {
      assert Settled(before, sent, today, k, after, sent');
    }
  }

  /**
   Exactly when a successful transmission loses nothing of k: the entry is today's, or empty,
   or of a metric that the queries have a field for and not behind a bad entry of its day.
   In a tidy store the last condition always holds.
   */
  lemma SettledConserves(before: Entries, sent: seq<Query>, today: string, k: StorageKey, after: Entries,
                         sent': seq<Query>)
    requires Settled(before, sent, today, k, after, sent') && k.Made() && k.Clean()
    ensures Reported(sent', k) + Stored(after, k) == Reported(sent, k) + Stored(before, k)
       <==> || k.date == today || Stored(before, k) == 0
            || (k.metric in RECOGNISED && Visible(before, DatePrefix(k.date), k.Marshal()))
    ensures Tidy(before) && Stored(before, k) != 0 ==> Visible(before, DatePrefix(k.date), k.Marshal())
  {
    if Tidy(before) { TidyShowsAll(before, k); }
  }

  /** The counters except those still to do have been added to what was persisted. */
  ghost predicate CountsAdded(before: Entries, after: Entries, counters: Counters, todo: set<StorageKey>) {
    && OnlyWrites(before, after, counters.Keys - todo)
    && forall k: StorageKey | k.Made() && k.Clean() ::
         Stored(after, k) == Stored(before, k) + if k in todo then 0 else Counter(counters, k)
  }

  /** The values except those still to do have replaced what was persisted. */
  ghost predicate ValuesSet(before: Entries, after: Entries, values: Counters, todo: set<StorageKey>) {
    && OnlyWrites(before, after, values.Keys - todo)
    && forall k: StorageKey | k.Made() && k.Clean() ::
         Stored(after, k) == if k in values && k !in todo then values[k] else Stored(before, k)
  }

  lemma StartPersisting(db: Entries, m: Counters)
    ensures CountsAdded(db, db, m, m.Keys)
    ensures ValuesSet(db, db, m, m.Keys)
  {
  }

  lemma CountAdded(before: Entries, middle: Entries, after: Entries, counters: Counters, todo: set<StorageKey>,
                   key: StorageKey, f: Option<Value> -> Value)
    requires CountsAdded(before, middle, counters, todo)
    requires key in todo && key in counters && key.Made() && f == Accumulate(counters[key])
    requires after == middle[key.Marshal() := f(if key.Marshal() in middle then Some(middle[key.Marshal()]) else None)]
    ensures CountsAdded(before, after, counters, todo - {key})
  {
    forall k: StorageKey | k.Made() && k.Clean()
      ensures Stored(after, k) == Stored(middle, k) + if k == key then counters[key] else 0
    {
      if k.Marshal() == key.Marshal() { MarshalInjective(key, k); }
    }
    OneMoreWrite(before, middle, after, counters.Keys - todo, key);
    assert counters.Keys - (todo - {key}) == counters.Keys - todo + {key};
  }

  lemma ValueSet(before: Entries, middle: Entries, after: Entries, values: Counters, todo: set<StorageKey>,
                 key: StorageKey)
    requires ValuesSet(before, middle, values, todo)
    requires key in todo && key in values && key.Made()
    requires after == middle[key.Marshal() := Number(values[key])]
    ensures ValuesSet(before, after, values, todo - {key})
  {
    forall k: StorageKey | k.Made() && k.Clean()
      ensures Stored(after, k) == if k == key then values[key] else Stored(middle, k)
    {
      if k.Marshal() == key.Marshal() { MarshalInjective(key, k); }
    }
    OneMoreWrite(before, middle, after, values.Keys - todo, key);
    assert values.Keys - (todo - {key}) == values.Keys - todo + {key};
  }

  /** after differs from before only in numbers written under the marshalled keys. */
  ghost predicate OnlyWrites(before: Entries, after: Entries, keys: set<StorageKey>) {
    && (forall s :: s in after ==> (s in before && after[s] == before[s]) || (after[s].Number? && IsKeyOf(s, keys)))
    && (forall s :: s in before ==> s in after)
  }

  ghost predicate IsKeyOf(s: string, keys: set<StorageKey>) {
    exists k :: k in keys && k.Marshal() == s
  }

  lemma OneMoreWrite(before: Entries, middle: Entries, after: Entries, keys: set<StorageKey>, key: StorageKey)
    requires OnlyWrites(before, middle, keys)
    requires key.Marshal() in after && after[key.Marshal()].Number?
    requires after == middle[key.Marshal() := after[key.Marshal()]]
    ensures OnlyWrites(before, after, keys + {key})
  {
    forall s | IsKeyOf(s, keys) || s == key.Marshal() ensures IsKeyOf(s, keys + {key}) {
      if s == key.Marshal() {
        assert key in keys + {key};
      } else {
        var k :| k in keys && k.Marshal() == s;
        assert k in keys + {key};
      }
    }
  }

  /** The key of the next try time is not the key of any metric. */
  lemma NotAKey(keys: set<StorageKey>)
    requires forall k :: k in keys ==> k.Made()
    ensures !IsKeyOf(NEXT_PING_TRY_TIME_KEY, keys)
  {
    forall k: StorageKey | k in keys ensures k.Marshal() != NEXT_PING_TRY_TIME_KEY {
      NextIsNoKey(k);
    }
  }

  lemma NextIsNoKey(k: StorageKey)
    requires k.Made()
    ensures k.Marshal() != NEXT_PING_TRY_TIME_KEY
  {
    MarshalPrefix(k);
    assert k.Marshal()[0] == KEY_PREFIX[0];
    assert NEXT_PING_TRY_TIME_KEY[0] == 'm';
  }

  lemma StaysTidy(before: Entries, after: Entries, keys: set<StorageKey>)
    requires Tidy(before) && OnlyWrites(before, after, keys)
    requires forall k :: k in keys ==> k.Made() && k.Clean()
    ensures Tidy(after)
  {
    forall s | s in after && HasPrefix(s, KEY_PREFIX) ensures !Bad(after, s) {
      if IsKeyOf(s, keys) {
        var k :| k in keys && k.Marshal() == s;
        KeyRoundTrip(k);
      }
    }
  }

  /**
   What a successful transmission does to k. Today's entries stay and are not reported. An
   entry of another day is deleted; it is reported as it was, unless its metric is not a field
   of the queries or a bad entry of the same day comes before it, in which case it is lost.
   */
  ghost predicate Settled(before: Entries, sent: seq<Query>, today: string, k: StorageKey, after: Entries,
                          sent': seq<Query>) {
    if k.date == today || k.Marshal() !in before then
      Stored(after, k) == Stored(before, k) && Reported(sent', k) == Reported(sent, k)
    else
      && Stored(after, k) == 0
      && Reported(sent', k) == Reported(sent, k)
         + if k.metric in RECOGNISED && Visible(before, DatePrefix(k.date), k.Marshal()) then Stored(before, k) else 0
  }

  // ---------- whole runs ----------

  datatype Op =
    | Count(key: Key, metric: string)
    | Put(key: Key, metric: string, val: int)
    | Transmit(now: int, today: string, ok: bool)
  {
    /** Keys carry the date of a time. */
    predicate Dated() {
      !Transmit? ==> IsDate(key.date)
    }

    /** No separator gets into the keys of this operation. */
    ghost predicate CleanFor(sa: SessionAttributes) {
      !Transmit? ==> forall m :: m in Split(metric, '.') ==> NewStorageKey(key, sa, m).Clean()
    }

    ghost predicate SetsMetric(sa: SessionAttributes, k: StorageKey) {
      Put? && exists m :: m in Split(metric, '.') && NewStorageKey(key, sa, m) == k
    }
  }

  /** How often the operations count k. */
  function Counted(ops: seq<Op>, sa: SessionAttributes, k: StorageKey): nat {
    if ops == [] then 0
    else
      var op := ops[|ops| - 1];
      Counted(ops[..|ops| - 1], sa, k) + if op.Count? then Added(op.key, sa, Split(op.metric, '.'), k) else 0
  }

  /** A recognised metric that is never set. */
  ghost predicate OnlyCounted(ops: seq<Op>, sa: SessionAttributes, k: StorageKey) {
    && k.Made() && k.Clean() && k.metric in RECOGNISED
    && forall i :: 0 <= i < |ops| ==> !ops[i].SetsMetric(sa, k)
  }

  method Apply(ms: MetricStore, op: Op)
    requires ms.Valid() && op.Dated()
    modifies ms, ms.db
    ensures ms.Valid()
    ensures old(Tidy(ms.db.entries) && ms.CleanInMemory()) && op.CleanFor(ms.sessionAttrs) ==>
              && Tidy(ms.db.entries) && ms.CleanInMemory()
              && forall k | OnlyCounted([op], ms.sessionAttrs, k) && k !in old(ms.updates) ::
                   && k !in ms.updates
                   && ms.Total(k) == old(ms.Total(k)) + if op.Count?
                                                        then Added(op.key, ms.sessionAttrs, Split(op.metric, '.'), k)
                                                        else 0
  {
    match op
    case Count(key, metric) =>
      ms.Increment(key, metric);
    case Put(key, metric, val) =>
      ms.StoreValue(key, metric, val);
      forall k | OnlyCounted([op], ms.sessionAttrs, k) ensures !op.SetsMetric(ms.sessionAttrs, k) {
        assert [op][0] == op;
      }
    case Transmit(now, today, ok) =>
      var outcome, persisted := ms.Send(now, today, ok);
  }

  /**
   Over any run of counting, setting and sending, with any transmissions failing: for every
   recognised metric that is only counted, what is reported, persisted and in memory grows by
   exactly the increments made.
   */
  method Run(ms: MetricStore, ops: seq<Op>)
    requires ms.Valid() && forall i :: 0 <= i < |ops| ==> ops[i].Dated()
    modifies ms, ms.db
    ensures ms.Valid()
    ensures old(Tidy(ms.db.entries) && ms.CleanInMemory())
            && (forall i :: 0 <= i < |ops| ==> ops[i].CleanFor(ms.sessionAttrs)) ==>
              forall k | OnlyCounted(ops, ms.sessionAttrs, k) && k !in old(ms.updates) ::
                ms.Total(k) == old(ms.Total(k)) + Counted(ops, ms.sessionAttrs, k)
  {
    ghost var sa := ms.sessionAttrs;
    ghost var clean := Tidy(ms.db.entries) && ms.CleanInMemory() && forall i :: 0 <= i < |ops| ==> ops[i].CleanFor(sa);
    for n := 0 to |ops|
      invariant ms.Valid()
      invariant clean ==> Tidy(ms.db.entries) && ms.CleanInMemory()
      invariant clean ==> forall k | OnlyCounted(ops, sa, k) && k !in old(ms.updates) ::
          k !in ms.updates && ms.Total(k) == old(ms.Total(k)) + Counted(ops[..n], sa, k)
    {
      hide Tidy;
      forall k | OnlyCounted(ops, sa, k) ensures OnlyCounted([ops[n]], sa, k) {
      }
      Apply(ms, ops[n]);
      assert ops[..n + 1][..n] == ops[..n];
    }
    assert ops[..|ops|] == ops;
  }

  // ---------- keys, groups and counts by their names ----------

  /** An increment goes to the key with the names of the caller and of the session. */
  lemma NewKeyFields(key: Key, sa: SessionAttributes, metric: string)
    ensures var k := NewStorageKey(key, sa, metric);
            && k.keyPrefix == "ph" && k.date == key.date && k.metric == metric
            && k.clusterID == key.clusterID && k.viridianClusterID == key.viridianClusterID
            && k.acquisitionSource == sa.acquisitionSource && k.version == sa.version
  {
  }

  /** The query about the group of a key carries the names of the key. */
  lemma GroupFields(ga: GlobalAttributes, k: StorageKey, m: MetricValues)
    ensures var q := MakeQuery(ga, k.date, AttributesOf(k), m);
            && q.date == k.date && q.clusterUUID == k.clusterID && q.viridianClusterID == k.viridianClusterID
            && q.acquisitionSource == k.acquisitionSource && q.version == k.version
    ensures forall q :: IsAbout(q, k) <==>
              && q.date == k.date && q.clusterUUID == k.clusterID && q.viridianClusterID == k.viridianClusterID
              && q.acquisitionSource == k.acquisitionSource && q.version == k.version
  {
  }

  /** Where there is one query for each group, the one about the group of a key reports its count. */
  lemma {:induction false} ReportedBy(qs: seq<Query>, k: StorageKey)
    requires OneForEach(qs)
    ensures forall i :: 0 <= i < |qs| && IsAbout(qs[i], k) ==> Reported(qs, k) == CountOf(qs[i], k.metric)
    ensures !AsksAbout(qs, k) ==> Reported(qs, k) == 0
  {
    hide CountOf, QueryAttributes, AttributesOf;
    if qs != [] {
      var n := |qs| - 1;
      ReportedBy(qs[..n], k);
      if IsAbout(qs[n], k) {
        assert !AsksAbout(qs[..n], k);
      } else if AsksAbout(qs[..n], k) {
        var i :| 0 <= i < n && IsAbout(qs[..n][i], k);
        assert IsAbout(qs[i], k);
      }
    }
  }

  /** An increment adds as many as the parts of the name that lead to the key. */
  lemma {:induction false} AddedIs(key: Key, sa: SessionAttributes, metrics: seq<string>, k: StorageKey)
    ensures Added(key, sa, metrics, k) == |set i | 0 <= i < |metrics| && NewStorageKey(key, sa, metrics[i]) == k|
  {
    hide NewStorageKey;
    if metrics != [] {
      var n := |metrics| - 1;
      AddedIs(key, sa, metrics[..n], k);
      var before := set i | 0 <= i < n && NewStorageKey(key, sa, metrics[..n][i]) == k;
      var all := set i | 0 <= i < |metrics| && NewStorageKey(key, sa, metrics[i]) == k;
      assert all == before + if NewStorageKey(key, sa, metrics[n]) == k then {n} else {};
    }
  }

  /** The next try is twelve hours after the last one, in nanoseconds. */
  lemma TwelveHours()
    ensures TWELVE_HOURS == 43_200_000_000_000
  {
  }
}
