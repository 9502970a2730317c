/**
 Dotted configuration keys as a tree: ConvertKeyValuesToMap of clc/config/config.go and
 traverseMap of clc/config/file_provider.go.

 Go builds maps inside maps by moving a map pointer, so a section is an object here. The
 abstract value of such a structure is a Tree: the paths of its sections and the text at
 the paths of its leaves.
 */
module ConfigTree {
  import opened Sequences
  import opened Text
  import opened Wrappers

  datatype KeyValue = KeyValue(key: string, value: string)

  type Path = seq<string>

  function PathOf(key: string): (p: Path)
    ensures p != []
  {
    Split(key, '.')
  }

  function Init(p: Path): Path
    requires p != []
  {
    p[..|p| - 1]
  }

  /** p stands strictly above q, or (AtOrAbove) at it. */
  predicate Above(p: Path, q: Path) {
    p < q
  }

  predicate AtOrAbove(p: Path, q: Path) {
    p <= q
  }

  // ---------- the abstract tree ----------

  datatype Tree = Tree(sections: set<Path>, leaves: map<Path, string>)

  const EMPTY := Tree({[]}, map[])

  /** The walk goes through a leaf, so the type assertion on a section fails. */
  predicate Blocked(t: Tree, path: Path) {
    exists q :: q in t.leaves && Above(q, path)
  }

  function WithSections(t: Tree, p: Path): Tree {
    t.(sections := t.sections + set i | 0 <= i <= |p| :: p[..i])
  }

  /** Setting a leaf drops whatever stood at or below its path. */
  function WithLeaf(t: Tree, path: Path, value: string): Tree {
    Tree(set p | p in t.sections && !AtOrAbove(path, p),
         (map p | p in t.leaves && !AtOrAbove(path, p) :: t.leaves[p])[path := value])
  }

  /** One option: None when the walk fails, no leaf when the last segment is empty. */
  function Inserted(t: Tree, path: Path, value: string): Option<Tree>
    requires path != []
  {
    if Blocked(t, path) then None
    else
      var walked := WithSections(t, Init(path));
      Some(if Last(path) == "" then walked else WithLeaf(walked, path, value))
  }

  function Built(kvs: seq<KeyValue>): Option<Tree> {
    if kvs == [] then Some(EMPTY)
    else
      var kv := kvs[|kvs| - 1];
      var t :- Built(kvs[..|kvs| - 1]);
      Inserted(t, PathOf(kv.key), kv.value)
  }

  // ---------- the objects ----------

  datatype Value = Leaf(text: string) | Sub(section: Section)

  class Section {
    var entries: map<string, Value>

    constructor ()
      ensures entries == map[]
    {
      entries := map[];
    }
  }

  /** What the objects in nodes, each standing at its path from the root, hold. */
  ghost function Contents(nodes: map<Path, Section>): map<Path, map<string, Value>>
    reads nodes.Values
  {
    map p | p in nodes :: nodes[p].entries
  }

  ghost function Slot(contents: map<Path, map<string, Value>>, q: Path): Option<Value>
    requires q != [] && Init(q) in contents
  {
    if Last(q) in contents[Init(q)] then Some(contents[Init(q)][Last(q)]) else None
  }

  ghost function Expected(nodes: map<Path, Section>, t: Tree, q: Path): Option<Value> {
    if q in t.leaves then Some(Leaf(t.leaves[q]))
    else if q in nodes then Some(Sub(nodes[q]))
    else None
  }

  ghost predicate WellFormed(t: Tree) {
    && [] in t.sections && [] !in t.leaves
    && (forall q {:trigger Init(q)} :: q in t.sections && q != [] ==> Init(q) in t.sections)
    && (forall q {:trigger Init(q)} {:trigger q in t.leaves, q in t.sections} ::
          q in t.leaves ==> Init(q) in t.sections && q !in t.sections)
  }

  ghost predicate Shape(nodes: map<Path, Section>, contents: map<Path, map<string, Value>>, t: Tree) {
    && WellFormed(t)
    && nodes.Keys == contents.Keys == t.sections
    && (forall p, q :: p in nodes && q in nodes && p != q ==> nodes[p] != nodes[q])
    && (forall q: Path {:trigger Slot(contents, q)} ::
          q != [] && Init(q) in nodes ==> Slot(contents, q) == Expected(nodes, t, q))
  }

  /** The objects in nodes form the tree t: no sharing, nothing missing, nothing more. */
  ghost predicate Represents(nodes: map<Path, Section>, t: Tree)
    reads nodes.Values
  {
    Shape(nodes, Contents(nodes), t)
  }

  lemma InitLast(q: Path, p: Path, k: string)
    requires q != []
    ensures q == p + [k] <==> Init(q) == p && Last(q) == k
  {
    assert q == Init(q) + [Last(q)];
  }

  lemma SlotWithSection(nodes: map<Path, Section>, contents: map<Path, map<string, Value>>, t: Tree, p: Path,
                        k: string, s: Section, q: Path)
    requires Shape(nodes, contents, t) && p in nodes && p + [k] !in nodes && q != []
    requires Init(q) in nodes || Init(q) == p + [k]
    ensures var there := p + [k];
            Slot(contents[p := contents[p][k := Sub(s)]][there := map[]], q) ==
            if q == there then Some(Sub(s)) else if Init(q) == there then None else Expected(nodes, t, q)
  {
    InitLast(q, p, k);
    if Init(q) in nodes {
      assert Slot(contents, q) == Expected(nodes, t, q);
    }
  }

  lemma ShapeWithSection(nodes: map<Path, Section>, contents: map<Path, map<string, Value>>, t: Tree, p: Path,
                         k: string, s: Section)
    requires Shape(nodes, contents, t) && p in nodes && k !in contents[p]
    requires forall q :: q in nodes ==> nodes[q] != s
    ensures var q := p + [k];
            Shape(nodes[q := s], contents[p := contents[p][k := Sub(s)]][q := map[]], t.(sections := t.sections + {q}))
  {
    var there := p + [k];
    InitLast(there, p, k);
    assert Slot(contents, there) == None == Expected(nodes, t, there);
    var nodes', contents' := nodes[there := s], contents[p := contents[p][k := Sub(s)]][there := map[]];
    var t' := t.(sections := t.sections + {there});
    forall q: Path | q != [] && Init(q) in nodes'
      ensures Slot(contents', q) == Expected(nodes', t', q)
    {
      SlotWithSection(nodes, contents, t, p, k, s, q);
    }
  }

  lemma WithLeafWellFormed(t: Tree, q: Path, v: string)
    requires WellFormed(t) && q != [] && Init(q) in t.sections
    ensures WellFormed(WithLeaf(t, q, v))
  {
    var t' := WithLeaf(t, q, v);
    assert |Init(q)| < |q|;
    forall p | p in t'.sections && p != [] ensures Init(p) in t'.sections {
      PrefixStep(q, p);
    }
    forall p | p in t'.leaves ensures Init(p) in t'.sections && p !in t'.sections {
      if p != q { PrefixStep(q, p); }
    }
  }

  ghost function Kept<T>(m: map<Path, T>, q: Path): map<Path, T> {
    map p | p in m && !AtOrAbove(q, p) :: m[p]
  }

  lemma SlotWithLeaf(nodes: map<Path, Section>, contents: map<Path, map<string, Value>>, t: Tree, p: Path, k: string,
                     v: string, q: Path)
    requires Shape(nodes, contents, t) && p in nodes
    requires q != [] && Init(q) in nodes && !(p + [k] <= Init(q))
    ensures var there := p + [k];
            Slot(Kept(contents[p := contents[p][k := Leaf(v)]], there), q) ==
            if q == there then Some(Leaf(v)) else Expected(nodes, t, q)
  {
    InitLast(q, p, k);
    assert Slot(contents, q) == Expected(nodes, t, q);
  }

  lemma ShapeWithLeaf(nodes: map<Path, Section>, contents: map<Path, map<string, Value>>, t: Tree, p: Path, k: string,
                      v: string)
    requires Shape(nodes, contents, t) && p in nodes
    ensures var q := p + [k];
            Shape(Kept(nodes, q), Kept(contents[p := contents[p][k := Leaf(v)]], q), WithLeaf(t, q, v))
  {
    hide WellFormed;
    var there := p + [k];
    InitLast(there, p, k);
    WithLeafWellFormed(t, there, v);
    var nodes', contents' := Kept(nodes, there), Kept(contents[p := contents[p][k := Leaf(v)]], there);
    var t' := WithLeaf(t, there, v);
    forall q: Path | q != [] && Init(q) in nodes'
      ensures Slot(contents', q) == Expected(nodes', t', q)
    {
      PrefixStep(there, q);
      SlotWithLeaf(nodes, contents, t, p, k, v, q);
    }
  }

  lemma PrefixStep(p: Path, q: Path)
    requires q != []
    ensures p <= q <==> p == q || p <= Init(q)
  {
    if p <= q && |p| < |q| { assert p == q[..|p|] == Init(q)[..|p|]; }
    if p <= Init(q) { assert Init(q) <= q; }
  }

  // ---------- building ----------

  method Put(mp: Section, p: string, v: Value, ghost nodes: map<Path, Section>, ghost here: Path)
    requires here in nodes && nodes[here] == mp
    requires forall q :: q in nodes && q != here ==> nodes[q] != mp
    modifies mp
    ensures Contents(nodes) == old(Contents(nodes))[here := old(Contents(nodes))[here][p := v]]
  {
    mp.entries := mp.entries[p := v];
  }

  lemma SlotAt(nodes: map<Path, Section>, t: Tree, here: Path, p: string)
    requires Represents(nodes, t) && here in nodes
    ensures here + [p] in t.leaves <==> p in nodes[here].entries && nodes[here].entries[p].Leaf?
    ensures here + [p] in t.leaves ==> nodes[here].entries[p] == Leaf(t.leaves[here + [p]])
    ensures here + [p] in nodes <==> p in nodes[here].entries && nodes[here].entries[p].Sub?
    ensures here + [p] in nodes ==> nodes[here].entries[p] == Sub(nodes[here + [p]])
    ensures here + [p] in t.sections <==> here + [p] in nodes
  {
    var there := here + [p];
    InitLast(there, here, p);
    assert Slot(Contents(nodes), there) == Expected(nodes, t, there);
    assert there in t.leaves ==> there !in nodes;
  }

  method AddSection(mp: Section, p: string, ghost here: Path, ghost nodes: map<Path, Section>, ghost t: Tree)
    returns (mm: Section, ghost nodes': map<Path, Section>)
    requires Represents(nodes, t) && here in nodes && nodes[here] == mp && p !in mp.entries
    modifies mp
    ensures fresh(mm) && nodes' == nodes[here + [p] := mm]
    ensures Represents(nodes', t.(sections := t.sections + {here + [p]}))
  {
    mm := new Section();
    ShapeWithSection(nodes, Contents(nodes), t, here, p, mm);
    SlotAt(nodes, t, here, p);
    hide Shape, WellFormed, Slot, Expected;
    Put(mp, p, Sub(mm), nodes, here);
    nodes' := nodes[here + [p] := mm];
    assert Contents(nodes') == Contents(nodes)[here + [p] := map[]];
  }

  /** Go's walk: at segment i the pointer stands at path[..i]; a new section is made where none is. */
  method Descend(mp: Section, path: Path, i: nat, ghost nodes: map<Path, Section>, ghost t: Tree)
    returns (r: Option<Section>, ghost nodes': map<Path, Section>)
    requires i + 1 < |path| && Represents(nodes, t)
    requires path[..i] in nodes && nodes[path[..i]] == mp
    modifies mp
    ensures r.None? <==> path[..i + 1] in t.leaves
    ensures r.Some? ==>
              && path[..i + 1] in nodes' && nodes'[path[..i + 1]] == r.value
              && (forall p :: p in nodes' ==> nodes'[p] in nodes.Values || fresh(nodes'[p]))
              && ([] in nodes ==> [] in nodes' && nodes'[[]] == nodes[[]])
              && Represents(nodes', t.(sections := t.sections + {path[..i + 1]}))
  {
    var p := path[i];
    ghost var here := path[..i];
    assert path[..i + 1] == here + [p];
    SlotAt(nodes, t, here, p);
    hide Represents;
    nodes' := nodes;
    if p in mp.entries {
      match mp.entries[p]
      case Leaf(_) =>
        r := None;
      case Sub(s) =>
        assert t.sections + {here + [p]} == t.sections;
        r := Some(s);
    } else {
      var mm;
      mm, nodes' := AddSection(mp, p, here, nodes, t);
      r := Some(mm);
    }
  }

  lemma WalkedOne(t: Tree, path: Path, i: nat)
    requires i < |path|
    ensures var walked := WithSections(t, path[..i]);
            walked.leaves == t.leaves
            && WithSections(t, path[..i + 1]) == walked.(sections := walked.sections + {path[..i + 1]})
  {
    var p, p' := path[..i], path[..i + 1];
    assert forall j :: 0 <= j <= i ==> p[..j] == p'[..j];
    var shorter, longer := set j | 0 <= j <= |p| :: p[..j], set j | 0 <= j <= |p'| :: p'[..j];
    forall q ensures q in longer <==> q in shorter || q == p' {
      if q in shorter {
        var j :| 0 <= j <= |p| && q == p[..j];
        assert q == p'[..j];
      }
      assert p'[..i + 1] == p';
    }
  }

  /** The assignment after the walk; nothing is set for an empty last segment. */
  method SetLeaf(mp: Section, path: Path, value: string, ghost nodes: map<Path, Section>, ghost t: Tree)
    returns (ghost nodes': map<Path, Section>)
    requires path != [] && Represents(nodes, t) && Init(path) in nodes && nodes[Init(path)] == mp
    modifies mp
    ensures Represents(nodes', if Last(path) == "" then t else WithLeaf(t, path, value))
    ensures [] in nodes' && nodes'[[]] == nodes[[]]
    ensures forall p :: p in nodes' ==> nodes'[p] in nodes.Values
  {
    var p := Last(path);
    nodes' := nodes;
    if p != "" {
      ghost var contents := Contents(nodes);
      assert Init(path) + [p] == path;
      ShapeWithLeaf(nodes, contents, t, Init(path), p, value);
      hide Shape, WithLeaf;
      Put(mp, p, Leaf(value), nodes, Init(path));
      nodes' := Kept(nodes, path);
      assert Contents(nodes') == Kept(Contents(nodes), path);
    }
  }

  ghost predicate ClearTo(t: Tree, path: Path, i: nat)
    requires i < |path|
  {
    forall j :: 0 <= j <= i ==> path[..j] !in t.leaves
  }

  lemma ClearStep(t: Tree, path: Path, i: nat)
    requires i + 1 < |path| && ClearTo(t, path, i)
    ensures ClearTo(t, path, i + 1) <==> path[..i + 1] !in t.leaves
    ensures !ClearTo(t, path, i + 1) ==> Blocked(t, path)
  {
    assert Above(path[..i + 1], path);
  }

  lemma ClearToEnd(t: Tree, path: Path)
    requires path != []
    ensures ClearTo(t, path, |path| - 1) <==> !Blocked(t, path)
  {
    if q :| q in t.leaves && Above(q, path) {
      assert q == path[..|q|];
    }
    if j :| 0 <= j <= |path| - 1 && path[..j] in t.leaves {
      assert Above(path[..j], path);
    }
  }

  lemma WalkStarts(nodes: map<Path, Section>, t: Tree, path: Path)
    requires path != [] && Represents(nodes, t)
    ensures path[..0] == [] && WithSections(t, path[..0]) == t && ClearTo(t, path, 0)
  {
    assert WithSections(t, path[..0]).sections == t.sections;
  }

  /** The walk of one option: None is a leaf in the way. */
  method Walk(m: Section, path: Path, ghost nodes: map<Path, Section>, ghost t: Tree)
    returns (r: Option<Section>, ghost nodes': map<Path, Section>)
    requires path != [] && Represents(nodes, t) && [] in nodes && nodes[[]] == m
    modifies nodes.Values
    ensures r.None? <==> Blocked(t, path)
    ensures r.Some? ==>
              && Represents(nodes', WithSections(t, Init(path)))
              && Init(path) in nodes' && nodes'[Init(path)] == r.value
              && [] in nodes' && nodes'[[]] == m
    ensures forall p :: p in nodes' ==> nodes'[p] in nodes.Values || fresh(nodes'[p])
  {
    hide Represents, Contents, WithSections, ClearTo, Blocked;
    WalkStarts(nodes, t, path);
    ClearToEnd(t, path);
    var mp, i := m, 0;
    nodes' := nodes;
    while i < |path| - 1
      invariant 0 <= i < |path|
      invariant path[..i] in nodes' && nodes'[path[..i]] == mp
      invariant [] in nodes' && nodes'[[]] == m
      invariant forall p :: p in nodes' ==> nodes'[p] in nodes.Values || fresh(nodes'[p])
      invariant Represents(nodes', WithSections(t, path[..i]))
      invariant ClearTo(t, path, i)
    {
      WalkedOne(t, path, i);
      ClearStep(t, path, i);
      var next;
      next, nodes' := Descend(mp, path, i, nodes', WithSections(t, path[..i]));
      if next.None? {
        return None, nodes;
      }
      mp := next.value;
      i := i + 1;
    }
    assert path[..i] == Init(path);
    r := Some(mp);
  }

  method InsertOption(m: Section, kv: KeyValue, ghost nodes: map<Path, Section>, ghost t: Tree)
    returns (ok: bool, ghost nodes': map<Path, Section>)
    requires Represents(nodes, t) && [] in nodes && nodes[[]] == m
    modifies nodes.Values
    ensures ok <==> Inserted(t, PathOf(kv.key), kv.value).Some?
    ensures ok ==> Represents(nodes', Inserted(t, PathOf(kv.key), kv.value).value)
    ensures ok ==> [] in nodes' && nodes'[[]] == m
    ensures forall p :: p in nodes' ==> nodes'[p] in nodes.Values || fresh(nodes'[p])
  {
    var path := Split(kv.key, '.');
    var mp;
    mp, nodes' := Walk(m, path, nodes, t);
    ok := mp.Some?;
    if ok {
      nodes' := SetLeaf(mp.value, path, kv.value, nodes', WithSections(t, Init(path)));
    }
  }

  lemma ShapeOfRoot(m: Section)
    ensures Shape(map[[] := m], map[[] := map[]], EMPTY)
  {
    var nodes, contents := map[[] := m], map[[] := map[]];
    forall q: Path | q != [] && Init(q) in nodes
      ensures Slot(contents, q) == Expected(nodes, EMPTY, q)
    {
    }
  }

  /** None is the failed type assertion; otherwise the objects form exactly the tree the options build. */
  method ConvertKeyValuesToMap(kvs: seq<KeyValue>) returns (r: Option<Section>, ghost nodes: map<Path, Section>)
    ensures r.None? <==> Built(kvs).None?
    ensures r.Some? ==> Represents(nodes, Built(kvs).value) && [] in nodes && nodes[[]] == r.value
    ensures forall p :: p in nodes ==> fresh(nodes[p])
  {
    var m := new Section();
    nodes := map[[] := m];
    ShapeOfRoot(m);
    assert Contents(nodes) == map[[] := map[]];
    assert Represents(nodes, EMPTY) && Built(kvs[..0]) == Some(EMPTY);
    hide Represents, Built, Inserted, PathOf;
    for n := 0 to |kvs|
      invariant forall p :: p in nodes ==> fresh(nodes[p])
      invariant [] in nodes && nodes[[]] == m
      invariant Built(kvs[..n]).Some? && Represents(nodes, Built(kvs[..n]).value)
    {
      BuiltStep(kvs, n);
      var ok;
      ok, nodes := InsertOption(m, kvs[n], nodes, Built(kvs[..n]).value);
      if !ok {
        BuiltFails(kvs, n + 1);
        return None, nodes;
      }
    }
    assert kvs[..|kvs|] == kvs;
    r := Some(m);
  }

  lemma BuiltStep(kvs: seq<KeyValue>, n: nat)
    requires n < |kvs| && Built(kvs[..n]).Some?
    ensures Built(kvs[..n + 1]) == Inserted(Built(kvs[..n]).value, PathOf(kvs[n].key), kvs[n].value)
  {
    assert kvs[..n + 1][..n] == kvs[..n];
  }

  lemma {:induction false} BuiltFails(kvs: seq<KeyValue>, n: nat)
    requires n <= |kvs| && Built(kvs[..n]).None?
    ensures Built(kvs).None?
    decreases |kvs| - n
  {
    if n == |kvs| {
      assert kvs[..n] == kvs;
    } else {
      assert kvs[..n + 1][..n] == kvs[..n];
      BuiltFails(kvs, n + 1);
    }
  }

  // ---------- what the options build ----------

  predicate Sets(kv: KeyValue) {
    Last(PathOf(kv.key)) != ""
  }

  /** Option i comes first and is a leaf where option j needs a section. */
  predicate Clash(kvs: seq<KeyValue>, i: int, j: int) {
    0 <= i < j < |kvs| && Sets(kvs[i]) && Above(PathOf(kvs[i].key), PathOf(kvs[j].key))
  }

  /** No later option writes at or above the path of option i. */
  ghost predicate Survives(kvs: seq<KeyValue>, i: int) {
    && 0 <= i < |kvs| && Sets(kvs[i])
    && forall j :: i < j < |kvs| && Sets(kvs[j]) ==> !AtOrAbove(PathOf(kvs[j].key), PathOf(kvs[i].key))
  }

  lemma SurvivesInit(kvs: seq<KeyValue>, i: int)
    requires 0 <= i < |kvs| - 1
    ensures var n := |kvs| - 1;
            Survives(kvs, i) <==>
              Survives(kvs[..n], i) && !(Sets(kvs[n]) && AtOrAbove(PathOf(kvs[n].key), PathOf(kvs[i].key)))
  {
    var n := |kvs| - 1;
    assert forall j :: 0 <= j < n ==> kvs[..n][j] == kvs[j];
  }

  /** Every option that sets something is, or is overwritten by, a surviving one at or above its path. */
  lemma {:induction false} Covered(kvs: seq<KeyValue>, i: nat) returns (k: nat)
    requires i < |kvs| && Sets(kvs[i])
    ensures Survives(kvs, k) && AtOrAbove(PathOf(kvs[k].key), PathOf(kvs[i].key))
    decreases |kvs| - i
  {
    if Survives(kvs, i) {
      k := i;
    } else {
      var j :| i < j < |kvs| && Sets(kvs[j]) && AtOrAbove(PathOf(kvs[j].key), PathOf(kvs[i].key));
      k := Covered(kvs, j);
      AboveTransitive(PathOf(kvs[k].key), PathOf(kvs[j].key), PathOf(kvs[i].key));
    }
  }

  /** The leaves are those of the surviving options, each with its own value. */
  ghost predicate LeavesOf(kvs: seq<KeyValue>, leaves: map<Path, string>) {
    && (forall i :: Survives(kvs, i) ==> PathOf(kvs[i].key) in leaves && leaves[PathOf(kvs[i].key)] == kvs[i].value)
    && (forall q :: q in leaves ==> exists i :: Survives(kvs, i) && PathOf(kvs[i].key) == q)
  }

  lemma LeavesOfNext(kvs: seq<KeyValue>, before: map<Path, string>, leaves: map<Path, string>)
    requires kvs != [] && LeavesOf(kvs[..|kvs| - 1], before)
    requires var kv := kvs[|kvs| - 1]; var path := PathOf(kv.key);
             leaves ==
               if Sets(kv) then (map p | p in before && !AtOrAbove(path, p) :: before[p])[path := kv.value] else before
    ensures LeavesOf(kvs, leaves)
  {
    var n := |kvs| - 1;
    var init, path := kvs[..n], PathOf(kvs[n].key);
    hide PathOf, Sets, Above, AtOrAbove;
    forall i | Survives(kvs, i)
      ensures PathOf(kvs[i].key) in leaves && leaves[PathOf(kvs[i].key)] == kvs[i].value
    {
      if i < n {
        SurvivesInit(kvs, i);
        assert init[i] == kvs[i];
      }
    }
    forall q | q in leaves
      ensures exists i :: Survives(kvs, i) && PathOf(kvs[i].key) == q
    {
      if Sets(kvs[n]) && q == path {
        assert Survives(kvs, n);
      } else {
        var i :| Survives(init, i) && PathOf(init[i].key) == q;
        SurvivesInit(kvs, i);
      }
    }
  }

  /**
   The leaves of a tree that is built are exactly the options not overwritten later, each with
   its own value. Nothing is assumed of the keys.
   */
  lemma {:induction false} LeavesExactly(kvs: seq<KeyValue>)
    requires Built(kvs).Some?
    ensures LeavesOf(kvs, Built(kvs).value.leaves)
  {
    if kvs != [] {
      var n := |kvs| - 1;
      LeavesExactly(kvs[..n]);
      LeavesOfNext(kvs, Built(kvs[..n]).value.leaves, Built(kvs).value.leaves);
    }
  }

  lemma AboveTransitive(p: Path, q: Path, r: Path)
    ensures AtOrAbove(p, q) && Above(q, r) ==> Above(p, r)
    ensures AtOrAbove(p, q) && AtOrAbove(q, r) ==> AtOrAbove(p, r)
  {
  }

  lemma BlockedByClash(kvs: seq<KeyValue>, t: Tree) returns (i: int)
    requires kvs != [] && LeavesOf(kvs[..|kvs| - 1], t.leaves)
    requires Blocked(t, PathOf(kvs[|kvs| - 1].key))
    ensures Clash(kvs, i, |kvs| - 1)
  {
    var n := |kvs| - 1;
    var init, path := kvs[..n], PathOf(kvs[n].key);
    hide PathOf, Sets, Above, AtOrAbove;
    var q :| q in t.leaves && Above(q, path);
    i :| Survives(init, i) && PathOf(init[i].key) == q;
  }

  lemma ClashBlocks(kvs: seq<KeyValue>, t: Tree, i: int)
    requires kvs != [] && LeavesOf(kvs[..|kvs| - 1], t.leaves)
    requires Clash(kvs, i, |kvs| - 1)
    ensures Blocked(t, PathOf(kvs[|kvs| - 1].key))
  {
    var n := |kvs| - 1;
    var init, path := kvs[..n], PathOf(kvs[n].key);
    hide PathOf, Sets, Above, AtOrAbove;
    assert init[i] == kvs[i];
    var k := Covered(init, i);
    AboveTransitive(PathOf(init[k].key), PathOf(init[i].key), path);
  }

  ghost predicate HasClash(kvs: seq<KeyValue>) {
    exists i, j :: Clash(kvs, i, j)
  }

  ghost predicate ClashesAtLast(kvs: seq<KeyValue>)
    requires kvs != []
  {
    var n := |kvs| - 1;
    exists i {:trigger Clash(kvs, i, n)} :: Clash(kvs, i, n)
  }

  lemma HasClashNext(kvs: seq<KeyValue>)
    requires kvs != []
    ensures HasClash(kvs) <==> HasClash(kvs[..|kvs| - 1]) || ClashesAtLast(kvs)
  {
    var n := |kvs| - 1;
    var init := kvs[..n];
    assert forall i, j :: j < n ==> (Clash(kvs, i, j) <==> Clash(init, i, j));
    if i, j :| Clash(kvs, i, j) {
      assert j < n ==> Clash(init, i, j);
    }
    if i, j :| Clash(init, i, j) {
      assert Clash(kvs, i, j);
    }
  }

  lemma BlockedExactly(kvs: seq<KeyValue>, t: Tree)
    requires kvs != [] && LeavesOf(kvs[..|kvs| - 1], t.leaves)
    ensures Blocked(t, PathOf(kvs[|kvs| - 1].key)) <==> ClashesAtLast(kvs)
  {
    hide PathOf, LeavesOf, Blocked;
    if Blocked(t, PathOf(kvs[|kvs| - 1].key)) {
      var i := BlockedByClash(kvs, t);
    }
    if ClashesAtLast(kvs) {
      var n := |kvs| - 1;
      var i :| Clash(kvs, i, n);
      ClashBlocks(kvs, t, i);
    }
  }

  /**
   The walk fails on a type assertion exactly when some option is a leaf at a proper prefix of
   a later option's path; overwriting in between never saves it.
   */
  lemma {:induction false} FailsExactly(kvs: seq<KeyValue>)
    ensures Built(kvs).None? <==> HasClash(kvs)
  {
    assert kvs == [] ==> !HasClash(kvs);
    hide HasClash, ClashesAtLast, LeavesOf, Blocked, PathOf;
    if kvs != [] {
      var init := kvs[..|kvs| - 1];
      FailsExactly(init);
      HasClashNext(kvs);
      if Built(init).Some? {
        LeavesExactly(init);
        BlockedExactly(kvs, Built(init).value);
      }
    }
  }

  // ---------- flattening ----------

  class FileProvider {
    var cfg: map<string, string>
    var defaults: map<string, string>
    var keys: set<string>

    constructor ()
      ensures cfg == map[] && defaults == map[] && keys == {}
    {
      cfg, defaults, keys := map[], map[], {};
    }

    /** Every value is found under a key. */
    ghost predicate KeysComplete()
      reads this
    {
      cfg.Keys + defaults.Keys <= keys
    }

    /** What has been loaded hides what has been set. */
    method Get(name: string) returns (v: Option<string>)
      ensures v == if name in defaults + cfg then Some((defaults + cfg)[name]) else None
    {
      if name in cfg {
        return Some(cfg[name]);
      }
      return if name in defaults then Some(defaults[name]) else None;
    }

    method Set(key: string, value: string)
      modifies this
      ensures defaults == old(defaults)[key := value] && cfg == old(cfg) && keys == old(keys) + {key}
    {
      defaults := defaults[key := value];
      keys := keys + {key};
    }

    /** Keys are visited in any order. */
    method All() returns (m: map<string, string>)
      requires KeysComplete()
      ensures m == defaults + cfg
    {
      m := map[];
      var todo := keys;
      while todo != {}
        invariant todo <= keys
        invariant forall k :: k in m <==> k in keys - todo && k in defaults + cfg
        invariant forall k :: k in m ==> m[k] == (defaults + cfg)[k]
        decreases |todo|
      {
        var k :| k in todo;
        var v := Get(k);
        if v.Some? {
          m := m[k := v.value];
        }
        todo := todo - {k};
      }
    }
  }

  /** The name traverseMap gives to what stands at rel below a section named root. */
  function NameFrom(root: string, rel: Path): string
    decreases |rel|
  {
    if rel == [] then root
    else NameFrom(if root == "" then rel[0] else Join([root, rel[0]], '.'), rel[1..])
  }

  /** The leaves below path whose next segment is among heads. */
  ghost predicate Below(t: Tree, path: Path, heads: set<string>, q: Path) {
    q in t.leaves && Above(path, q) && q[|path|] in heads
  }

  ghost predicate Names(t: Tree, path: Path, root: string, heads: set<string>, k: string) {
    exists q :: Below(t, path, heads, q) && NameFrom(root, q[|path|..]) == k
  }

  ghost predicate NamesAs(t: Tree, path: Path, root: string, heads: set<string>, k: string, v: string) {
    exists q :: Below(t, path, heads, q) && NameFrom(root, q[|path|..]) == k && t.leaves[q] == v
  }

  /** after is before with the named leaves written over it; of leaves with one name, any may win. */
  ghost predicate Flattened(t: Tree, path: Path, root: string, heads: set<string>, before: map<string, string>,
                            after: map<string, string>) {
    && (forall k :: Names(t, path, root, heads, k) ==> k in after && NamesAs(t, path, root, heads, k, after[k]))
    && (forall k :: !Names(t, path, root, heads, k) ==>
          (k in after <==> k in before) && (k in before ==> after[k] == before[k]))
  }

  lemma NothingFlattened(t: Tree, path: Path, root: string, m: map<string, string>)
    ensures Flattened(t, path, root, {}, m, m)
    ensures forall k :: !Names(t, path, root, {}, k)
  {
  }

  lemma FlattenedBoth(t: Tree, path: Path, root: string, a: set<string>, b: set<string>,
                      before: map<string, string>, middle: map<string, string>, after: map<string, string>)
    requires Flattened(t, path, root, a, before, middle) && Flattened(t, path, root, b, middle, after)
    ensures Flattened(t, path, root, a + b, before, after)
    ensures forall k :: Names(t, path, root, a + b, k) <==> Names(t, path, root, a, k) || Names(t, path, root, b, k)
  {
    forall k
      ensures Names(t, path, root, a + b, k) <==> Names(t, path, root, a, k) || Names(t, path, root, b, k)
      ensures forall v :: NamesAs(t, path, root, a, k, v) || NamesAs(t, path, root, b, k, v) ==>
                NamesAs(t, path, root, a + b, k, v)
    {
      assert forall q :: Below(t, path, a + b, q) <==> Below(t, path, a, q) || Below(t, path, b, q);
    }
  }

  /** Everything above a leaf or a section is a section. */
  lemma {:induction false} SectionsAbove(t: Tree, q: Path, n: nat)
    requires WellFormed(t) && (q in t.leaves || q in t.sections) && n < |q|
    ensures q[..n] in t.sections
    decreases |q|
  {
    if n == |q| - 1 {
      assert q[..n] == Init(q);
    } else {
      assert q[..n] == Init(q)[..n];
      assert Init(q) in t.sections;
      SectionsAbove(t, Init(q), n);
    }
  }

  lemma OneLeaf(t: Tree, path: Path, root: string, ks: string, before: map<string, string>)
    requires WellFormed(t) && path + [ks] in t.leaves
    ensures var name := NameFrom(root, [ks]);
            && Flattened(t, path, root, {ks}, before, before[name := t.leaves[path + [ks]]])
            && forall k :: Names(t, path, root, {ks}, k) <==> k == name
  {
    var here := path + [ks];
    var name := NameFrom(root, [ks]);
    forall q ensures Below(t, path, {ks}, q) <==> q == here {
      if Below(t, path, {ks}, q) && q != here {
        assert q[..|path| + 1] == here;
        SectionsAbove(t, q, |path| + 1);
      }
    }
    assert here[|path|..] == [ks];
  }

  lemma OneSection(t: Tree, path: Path, root: string, ks: string, heads: set<string>,
                   before: map<string, string>, after: map<string, string>)
    requires var here, r := path + [ks], NameFrom(root, [ks]);
             && here !in t.leaves && Flattened(t, here, r, heads, before, after)
             && forall q :: q in t.leaves && Above(here, q) ==> q[|here|] in heads
    ensures Flattened(t, path, root, {ks}, before, after)
    ensures forall k :: Names(t, path, root, {ks}, k) <==> Names(t, path + [ks], NameFrom(root, [ks]), heads, k)
  {
    var here, r := path + [ks], NameFrom(root, [ks]);
    forall q
      ensures Below(t, path, {ks}, q) <==> Below(t, here, heads, q)
      ensures Below(t, here, heads, q) ==> NameFrom(root, q[|path|..]) == NameFrom(r, q[|here|..])
    {
      if Below(t, path, {ks}, q) {
        assert q[..|here|] == here;
        assert |q| == |here| ==> q == here;
      }
      if Below(t, here, heads, q) {
        assert q[..|path|] == path;
        assert q[|path|..][1..] == q[|here|..];
        assert q[|path|] == here[|path|];
      }
    }
    forall k
      ensures Names(t, path, root, {ks}, k) <==> Names(t, here, r, heads, k)
      ensures forall v :: NamesAs(t, path, root, {ks}, k, v) <==> NamesAs(t, here, r, heads, k, v)
    {
    }
  }

  lemma HeadsComplete(nodes: map<Path, Section>, t: Tree, path: Path)
    requires Represents(nodes, t) && path in nodes
    ensures forall q :: q in t.leaves && Above(path, q) ==> q[|path|] in nodes[path].entries
    ensures path !in t.leaves
  {
    forall q | q in t.leaves && Above(path, q)
      ensures q[|path|] in nodes[path].entries
    {
      var next := q[..|path| + 1];
      assert next == path + [q[|path|]];
      if |q| > |path| + 1 {
        SectionsAbove(t, q, |path| + 1);
      } else {
        assert next == q;
      }
      SlotAt(nodes, t, path, q[|path|]);
    }
  }

  ghost function SectionsFrom(t: Tree, path: Path): set<Path> {
    set q | q in t.sections && AtOrAbove(path, q)
  }

  lemma FewerSections(t: Tree, path: Path, k: string)
    requires path in t.sections
    ensures SectionsFrom(t, path + [k]) < SectionsFrom(t, path)
  {
    assert path in SectionsFrom(t, path);
    forall q | AtOrAbove(path + [k], q) ensures AtOrAbove(path, q) {
      assert q[..|path|] == (path + [k])[..|path|] == path;
    }
  }

  /** One entry of a section: a leaf is written, a section is traversed. */
  method TraverseEntry(p: FileProvider, root: string, m: Section, ks: string,
                       ghost path: Path, ghost nodes: map<Path, Section>, ghost t: Tree)
    requires Represents(nodes, t) && path in nodes && nodes[path] == m && ks in m.entries
    modifies p
    ensures Flattened(t, path, root, {ks}, old(p.cfg), p.cfg)
    ensures forall k :: k in p.keys <==> k in old(p.keys) || Names(t, path, root, {ks}, k)
    ensures p.defaults == old(p.defaults)
    decreases SectionsFrom(t, path), 0
  {
    var r := if root == "" then ks else Join([root, ks], '.');
    assert r == NameFrom(root, [ks]);
    assert WellFormed(t) && path in t.sections;
    SlotAt(nodes, t, path, ks);
    hide Represents, WellFormed, Flattened, Names, SectionsFrom;
    match m.entries[ks]
    case Sub(mm) =>
      HeadsComplete(nodes, t, path + [ks]);
      FewerSections(t, path, ks);
      TraverseMap(p, r, mm, path + [ks], nodes, t);
      OneSection(t, path, root, ks, mm.entries.Keys, old(p.cfg), p.cfg);
    case Leaf(v) =>
      OneLeaf(t, path, root, ks, p.cfg);
      p.cfg := p.cfg[r := v];
      p.keys := p.keys + {r};
  }

  /** Map entries are visited in any order. */
  method TraverseMap(p: FileProvider, root: string, m: Section, ghost path: Path, ghost nodes: map<Path, Section>,
                     ghost t: Tree)
    requires Represents(nodes, t) && path in nodes && nodes[path] == m
    modifies p
    ensures Flattened(t, path, root, m.entries.Keys, old(p.cfg), p.cfg)
    ensures forall k :: k in p.keys <==> k in old(p.keys) || Names(t, path, root, m.entries.Keys, k)
    ensures p.defaults == old(p.defaults)
    decreases SectionsFrom(t, path), 1
  {
    hide Represents, Flattened, Names, SectionsFrom;
    NothingFlattened(t, path, root, p.cfg);
    ghost var all := m.entries.Keys;
    ghost var done := {};
    var todo := m.entries.Keys;
    while todo != {}
      invariant todo <= all && done == all - todo
      invariant Flattened(t, path, root, done, old(p.cfg), p.cfg)
      invariant forall k :: k in p.keys <==> k in old(p.keys) || Names(t, path, root, done, k)
      invariant p.defaults == old(p.defaults)
      decreases |todo|
    {
      var ks :| ks in todo;
      ghost var middle := p.cfg;
      TraverseEntry(p, root, m, ks, path, nodes, t);
      FlattenedBoth(t, path, root, done, {ks}, old(p.cfg), middle, p.cfg);
      done := done + {ks};
      todo := todo - {ks};
    }
    assert done == all;
  }

  // ---------- nest, then flatten ----------

  /** A name keeps its key unless the key starts with a dot, which traverseMap loses. */
  lemma NameOfKey(key: string)
    ensures NameFrom("", PathOf(key)) == key <==> key == "" || key[0] != '.'
  {
    var path := PathOf(key);
    JoinSplit(key, '.');
    assert path == [path[0]] + path[1..];
    if path[1..] != [] {
      JoinCons(path[0], path[1..], '.');
      if path[0] == "" {
        NameShorter("", path[1..]);
      }
    }
    if path[0] != "" {
      NameFromRoot(path[0], path[1..]);
      assert path[0][0] != '.';
    }
  }

  lemma {:induction false} NameFromRoot(root: string, rel: Path)
    requires root != ""
    ensures NameFrom(root, rel) == if rel == [] then root else root + "." + Join(rel, '.')
    decreases |rel|
  {
    if rel != [] {
      var r := Join([root, rel[0]], '.');
      JoinCons(root, [rel[0]], '.');
      NameFromRoot(r, rel[1..]);
      if rel[1..] != [] {
        assert rel == [rel[0]] + rel[1..];
        JoinCons(rel[0], rel[1..], '.');
      }
    }
  }

  lemma {:induction false} NameShorter(root: string, rel: Path)
    requires root == "" && rel != []
    ensures |NameFrom(root, rel)| <= |Join(rel, '.')|
    decreases |rel|
  {
    assert rel == [rel[0]] + rel[1..];
    if rel[1..] != [] {
      JoinCons(rel[0], rel[1..], '.');
      if rel[0] == "" {
        NameShorter("", rel[1..]);
      } else {
        NameFromRoot(rel[0], rel[1..]);
      }
    }
  }

  /** A name that the loader makes does not start with a dot. */
  lemma {:induction false} NoLeadingDot(rel: Path)
    requires forall i :: 0 <= i < |rel| ==> '.' !in rel[i]
    ensures !HasPrefix(NameFrom("", rel), ".")
    decreases |rel|
  {
    if rel != [] {
      if rel[0] == "" {
        NoLeadingDot(rel[1..]);
      } else {
        NameFromRoot(rel[0], rel[1..]);
        assert rel[0][0] in rel[0];
      }
    }
  }

  lemma PathHasNoDots(key: string)
    ensures forall i :: 0 <= i < |PathOf(key)| ==> '.' !in PathOf(key)[i]
  {
    JoinSplit(key, '.');
  }

  /** All options that survive are found under their own keys, with their values. */
  ghost predicate AllFound(kvs: seq<KeyValue>, cfg: map<string, string>) {
    forall i :: Survives(kvs, i) ==> kvs[i].key in cfg && cfg[kvs[i].key] == kvs[i].value
  }

  ghost predicate NoDotFirst(kvs: seq<KeyValue>) {
    forall i :: Survives(kvs, i) ==> !HasPrefix(kvs[i].key, ".")
  }

  /**
   Flattening a built tree gives the surviving options back under their own keys, exactly when
   none of these keys starts with a dot; then there is nothing else.
   */
  lemma FlattenBuilt(kvs: seq<KeyValue>, heads: set<string>, cfg: map<string, string>)
    requires Built(kvs).Some? && Flattened(Built(kvs).value, [], "", heads, map[], cfg)
    requires AllHeads(Built(kvs).value, heads)
    ensures AllFound(kvs, cfg) <==> NoDotFirst(kvs)
    ensures NoDotFirst(kvs) ==>
              forall k :: k in cfg ==> exists i :: Survives(kvs, i) && kvs[i].key == k
  {
    if NoDotFirst(kvs) {
      FlattenClean(kvs, heads, cfg);
    } else {
      hide PathOf, NameFrom, Built, HasPrefix, Survives, AllHeads;
      var i := FirstWithDot(kvs);
      var t := Built(kvs).value;
      var k := kvs[i].key;
      if k in cfg {
        assert Names(t, [], "", heads, k);
        var q :| Below(t, [], heads, q) && NameFrom("", q[0..]) == k;
        LeavesExactly(kvs);
        var j :| Survives(kvs, j) && PathOf(kvs[j].key) == q;
        PathHasNoDots(kvs[j].key);
        assert q[0..] == q;
        NoLeadingDot(q);
        assert false;
      }
    }
  }

  lemma FirstWithDot(kvs: seq<KeyValue>) returns (i: int)
    requires !NoDotFirst(kvs)
    ensures Survives(kvs, i) && HasPrefix(kvs[i].key, ".")
  {
    i :| Survives(kvs, i) && HasPrefix(kvs[i].key, ".");
  }

  /** The option a leaf comes from. */
  lemma OwnerOf(kvs: seq<KeyValue>, t: Tree, q: Path) returns (i: int)
    requires LeavesOf(kvs, t.leaves) && NoDotFirst(kvs) && q in t.leaves
    ensures Survives(kvs, i) && PathOf(kvs[i].key) == q && t.leaves[q] == kvs[i].value
    ensures NameFrom("", q[0..]) == kvs[i].key
  {
    hide PathOf, NameFrom;
    i :| Survives(kvs, i) && PathOf(kvs[i].key) == q;
    NameOfKey(kvs[i].key);
    assert q[0..] == q;
  }

  lemma FlattenedNames(t: Tree, heads: set<string>, cfg: map<string, string>, k: string)
    requires Flattened(t, [], "", heads, map[], cfg)
    ensures k in cfg <==> Names(t, [], "", heads, k)
    ensures k in cfg ==> NamesAs(t, [], "", heads, k, cfg[k])
  {
  }

  lemma FoundOne(kvs: seq<KeyValue>, t: Tree, heads: set<string>, cfg: map<string, string>, i: int)
    requires Flattened(t, [], "", heads, map[], cfg) && AllHeads(t, heads)
    requires LeavesOf(kvs, t.leaves) && NoDotFirst(kvs) && Survives(kvs, i)
    ensures kvs[i].key in cfg && cfg[kvs[i].key] == kvs[i].value
  {
    var k, q := kvs[i].key, PathOf(kvs[i].key);
    assert q in t.leaves && t.leaves[q] == kvs[i].value && !HasPrefix(k, ".");
    hide PathOf, NameFrom, Flattened, LeavesOf, NoDotFirst, Survives, HasPrefix;
    NameOfKey(k);
    assert NameFrom("", q) == k by { DotFree(k); }
    assert q[0..] == q;
    assert Below(t, [], heads, q);
    FlattenedNames(t, heads, cfg, k);
    var q' :| Below(t, [], heads, q') && NameFrom("", q'[0..]) == k && t.leaves[q'] == cfg[k];
    var i' := OwnerOf(kvs, t, q');
  }

  lemma DotFree(k: string)
    requires !HasPrefix(k, ".")
    ensures NameFrom("", PathOf(k)) == k
  {
    NameOfKey(k);
  }

  lemma FlattenClean(kvs: seq<KeyValue>, heads: set<string>, cfg: map<string, string>)
    requires Built(kvs).Some? && Flattened(Built(kvs).value, [], "", heads, map[], cfg)
    requires AllHeads(Built(kvs).value, heads)
    requires NoDotFirst(kvs)
    ensures AllFound(kvs, cfg)
    ensures forall k :: k in cfg ==> exists i :: Survives(kvs, i) && kvs[i].key == k
  {
    hide PathOf, NameFrom, Built, Flattened, LeavesOf, NoDotFirst, AllHeads;
    var t := Built(kvs).value;
    LeavesExactly(kvs);
    forall i | Survives(kvs, i)
      ensures kvs[i].key in cfg && cfg[kvs[i].key] == kvs[i].value
    {
      FoundOne(kvs, t, heads, cfg, i);
    }
    forall k | k in cfg
      ensures exists i :: Survives(kvs, i) && kvs[i].key == k
    {
      FlattenedNames(t, heads, cfg, k);
      var q :| Below(t, [], heads, q) && NameFrom("", q[0..]) == k;
      var i := OwnerOf(kvs, t, q);
    }
  }

  function LastWins(kvs: seq<KeyValue>): map<string, string> {
    if kvs == [] then map[]
    else LastWins(kvs[..|kvs| - 1])[kvs[|kvs| - 1].key := kvs[|kvs| - 1].value]
  }

  ghost predicate IsLast(kvs: seq<KeyValue>, i: int) {
    0 <= i < |kvs| && forall j :: i < j < |kvs| ==> kvs[j].key != kvs[i].key
  }

  lemma IsLastInit(kvs: seq<KeyValue>, i: int)
    requires 0 <= i < |kvs| - 1
    ensures IsLast(kvs, i) <==> IsLast(kvs[..|kvs| - 1], i) && kvs[|kvs| - 1].key != kvs[i].key
  {
    var init := kvs[..|kvs| - 1];
    assert forall j :: i <= j < |init| ==> init[j] == kvs[j];
  }

  lemma {:induction false} LastWinsAt(kvs: seq<KeyValue>, i: int)
    requires IsLast(kvs, i)
    ensures kvs[i].key in LastWins(kvs) && LastWins(kvs)[kvs[i].key] == kvs[i].value
  {
    if i < |kvs| - 1 {
      IsLastInit(kvs, i);
      LastWinsAt(kvs[..|kvs| - 1], i);
    }
  }

  lemma {:induction false} LastWinsKey(kvs: seq<KeyValue>, k: string) returns (i: int)
    requires k in LastWins(kvs)
    ensures IsLast(kvs, i) && kvs[i].key == k
  {
    i := |kvs| - 1;
    if k != kvs[i].key {
      var init := kvs[..|kvs| - 1];
      i := LastWinsKey(init, k);
      IsLastInit(kvs, i);
    }
  }

  /** No option's path is strictly above another's, and no key starts or ends with a dot. */
  ghost predicate Clean(kvs: seq<KeyValue>) {
    && (forall i, j :: 0 <= i < |kvs| && 0 <= j < |kvs| ==> !Above(PathOf(kvs[i].key), PathOf(kvs[j].key)))
    && (forall i :: 0 <= i < |kvs| ==> Sets(kvs[i]) && !HasPrefix(kvs[i].key, "."))
  }

  lemma SurvivesExactly(kvs: seq<KeyValue>, i: int)
    requires Clean(kvs) && 0 <= i < |kvs|
    ensures Survives(kvs, i) <==> IsLast(kvs, i)
  {
    JoinSplit(kvs[i].key, '.');
    forall j | i < j < |kvs|
      ensures AtOrAbove(PathOf(kvs[j].key), PathOf(kvs[i].key)) <==> kvs[j].key == kvs[i].key
    {
      JoinSplit(kvs[j].key, '.');
      AboveOrEqual(PathOf(kvs[j].key), PathOf(kvs[i].key));
    }
  }

  lemma AboveOrEqual(p: Path, q: Path)
    ensures AtOrAbove(p, q) <==> Above(p, q) || p == q
  {
  }

  /** heads holds the first segment of every leaf. */
  ghost predicate AllHeads(t: Tree, heads: set<string>) {
    forall q :: q in t.leaves ==> q != [] && q[0] in heads
  }

  /**
   Nest, then flatten: for clean options no walk fails, and the flat map that results is the
   last-wins map of the options.
   */
  lemma NestThenFlatten(kvs: seq<KeyValue>, heads: set<string>, cfg: map<string, string>)
    requires Clean(kvs)
    ensures Built(kvs).Some?
    ensures AllHeads(Built(kvs).value, heads) && Flattened(Built(kvs).value, [], "", heads, map[], cfg)
        ==> cfg == LastWins(kvs)
  {
    FailsExactly(kvs);
    hide PathOf, Built, Flattened, Survives, IsLast;
    if AllHeads(Built(kvs).value, heads) && Flattened(Built(kvs).value, [], "", heads, map[], cfg) {
      forall i | 0 <= i < |kvs| ensures Survives(kvs, i) <==> IsLast(kvs, i) {
        SurvivesExactly(kvs, i);
      }
      InRange(kvs);
      FlattenClean(kvs, heads, cfg);
      forall i | IsLast(kvs, i) ensures kvs[i].key in LastWins(kvs) && LastWins(kvs)[kvs[i].key] == kvs[i].value {
        LastWinsAt(kvs, i);
      }
      forall k | k in LastWins(kvs) ensures exists i :: IsLast(kvs, i) && kvs[i].key == k {
        var i := LastWinsKey(kvs, k);
      }
    }
  }

  lemma InRange(kvs: seq<KeyValue>)
    ensures forall i :: Survives(kvs, i) || IsLast(kvs, i) ==> 0 <= i < |kvs|
  {
  }

  /** Building the sections and loading them into a provider. */
  method LoadConverted(kvs: seq<KeyValue>) returns (r: Option<FileProvider>)
    ensures r.None? <==> HasClash(kvs)
    ensures r.Some? ==> fresh(r.value) && r.value.defaults == map[] && r.value.KeysComplete()
    ensures r.Some? ==> (AllFound(kvs, r.value.cfg) <==> NoDotFirst(kvs))
    ensures r.Some? && Clean(kvs) ==> r.value.cfg == LastWins(kvs) && r.value.keys == LastWins(kvs).Keys
  {
    FailsExactly(kvs);
    var m, nodes := ConvertKeyValuesToMap(kvs);
    if m.None? {
      return None;
    }
    ghost var t := Built(kvs).value;
    var p := new FileProvider();
    HeadsComplete(nodes, t, []);
    ghost var heads := m.value.entries.Keys;
    TraverseMap(p, "", m.value, [], nodes, t);
    forall q | q in t.leaves ensures q != [] && q[0] in heads {
      assert Above([], q);
    }
    FlattenBuilt(kvs, heads, p.cfg);
    if Clean(kvs) {
      NestThenFlatten(kvs, heads, p.cfg);
      assert forall k :: k in p.cfg <==> Names(t, [], "", heads, k);
    }
    r := Some(p);
  }

  /** Setting any values once the options are loaded: the options hide the values that are set. */
  method LoadAndSet(kvs: seq<KeyValue>, values: seq<KeyValue>) returns (m: Option<map<string, string>>)
    ensures m.None? <==> HasClash(kvs)
    ensures m.Some? && Clean(kvs) ==> m.value == LastWins(values) + LastWins(kvs)
  {
    hide Clean, HasClash;
    var p := LoadConverted(kvs);
    if p.None? {
      return None;
    }
    for i := 0 to |values|
      invariant p.value.KeysComplete() && fresh(p.value)
      invariant p.value.defaults == LastWins(values[..i])
      invariant Clean(kvs) ==> p.value.cfg == LastWins(kvs)
    {
      assert values[..i + 1][..i] == values[..i];
      p.value.Set(values[i].key, values[i].value);
    }
    assert values[..|values|] == values;
    var all := p.value.All();
    return Some(all);
  }
}
