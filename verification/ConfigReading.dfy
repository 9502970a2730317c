/**
 Reading the YAML text back by indentation, and what it has to do with the section maps that
 'config add' builds from the same options for the JSON file.
 */
module ConfigReading {
  import opened ConfigTree
  import opened ConfigYaml
  import opened Sequences
  import opened Sorting
  import opened Text
  import opened Wrappers

  // ---------- the reader ----------

  /**
   Lines as an indentation-based format reads them: a line belongs to the last header that is
   indented one level less. None is a line with no such header, or a key given twice in one
   section.
   */
  function Read(lines: seq<Line>, current: Path, t: Tree): Option<Tree> {
    if lines == [] then Some(t)
    else
      var l := lines[0];
      if l.level > |current| then None
      else
        var section := current[..l.level];
        var path := section + [l.name];
        if path in t.sections || path in t.leaves then None
        else match l.value
          case None => Read(lines[1..], path, t.(sections := t.sections + {path}))
          case Some(v) => Read(lines[1..], section, t.(leaves := t.leaves[path := v]))
  }

  // ---------- the tree of a set of options ----------

  /** t' is t with the options added below path. */
  ghost predicate Adds(t: Tree, path: Path, opts: seq<KeyValue>, t': Tree) {
    && SectionsAdded(t.sections, path, opts, t'.sections)
    && LeavesAdded(t.leaves.Keys, path, opts, t'.leaves.Keys)
    && (forall p :: p in t.leaves ==> p in t'.leaves && t'.leaves[p] == t.leaves[p])
    && ValuesAdded(path, opts, t'.leaves)
  }

  ghost predicate SectionsAdded(before: set<Path>, path: Path, opts: seq<KeyValue>, after: set<Path>) {
    forall p :: p in after <==> p in before || NewSection(path, opts, p)
  }

  ghost predicate LeavesAdded(before: set<Path>, path: Path, opts: seq<KeyValue>, after: set<Path>) {
    forall p :: p in after <==> p in before || NewLeaf(path, opts, p)
  }

  ghost predicate ValuesAdded(path: Path, opts: seq<KeyValue>, leaves: map<Path, string>) {
    forall i :: 0 <= i < |opts| ==>
      path + PathOf(opts[i].key) in leaves && leaves[path + PathOf(opts[i].key)] == opts[i].value
  }

  ghost predicate NewSection(path: Path, opts: seq<KeyValue>, p: Path) {
    exists i :: 0 <= i < |opts| && Above(path, p) && Above(p, path + PathOf(opts[i].key))
  }

  ghost predicate NewLeaf(path: Path, opts: seq<KeyValue>, p: Path) {
    exists i :: 0 <= i < |opts| && p == path + PathOf(opts[i].key)
  }

  lemma AddsDetermines(t: Tree, path: Path, opts: seq<KeyValue>, a: Tree, b: Tree)
    requires Adds(t, path, opts, a) && Adds(t, path, opts, b)
    ensures a == b
  {
    hide PathOf;
    assert a.sections == b.sections;
    assert a.leaves == b.leaves;
  }

  lemma NewInMore(path: Path, a: seq<KeyValue>, b: seq<KeyValue>, p: Path)
    requires forall o :: o in a ==> o in b
    ensures NewSection(path, a, p) ==> NewSection(path, b, p)
    ensures NewLeaf(path, a, p) ==> NewLeaf(path, b, p)
  {
    hide PathOf, Above;
    forall i | 0 <= i < |a| ensures exists j :: 0 <= j < |b| && b[j] == a[i] {
      assert a[i] in b;
    }
  }

  lemma AddsSame(t: Tree, path: Path, opts: seq<KeyValue>, opts': seq<KeyValue>, t': Tree)
    requires Adds(t, path, opts, t') && forall o :: o in opts <==> o in opts'
    ensures Adds(t, path, opts', t')
  {
    hide PathOf, NewSection, NewLeaf;
    forall p
      ensures NewSection(path, opts, p) <==> NewSection(path, opts', p)
      ensures NewLeaf(path, opts, p) <==> NewLeaf(path, opts', p)
    {
      NewInMore(path, opts, opts', p);
      NewInMore(path, opts', opts, p);
    }
    forall i | 0 <= i < |opts'| ensures exists j :: 0 <= j < |opts| && opts[j] == opts'[i] {
      assert opts'[i] in opts;
    }
  }

  lemma NewInBoth(path: Path, a: seq<KeyValue>, b: seq<KeyValue>, p: Path)
    ensures NewSection(path, a + b, p) <==> NewSection(path, a, p) || NewSection(path, b, p)
    ensures NewLeaf(path, a + b, p) <==> NewLeaf(path, a, p) || NewLeaf(path, b, p)
  {
    hide PathOf, Above;
    NewInMore(path, a, a + b, p);
    NewInMore(path, b, a + b, p);
    if i :| 0 <= i < |a + b| && Above(path, p) && Above(p, path + PathOf((a + b)[i].key)) {
      assert if i < |a| then a[i] == (a + b)[i] else b[i - |a|] == (a + b)[i];
    }
    if i :| 0 <= i < |a + b| && p == path + PathOf((a + b)[i].key) {
      assert if i < |a| then a[i] == (a + b)[i] else b[i - |a|] == (a + b)[i];
    }
  }

  lemma AddsBoth(t: Tree, path: Path, a: seq<KeyValue>, t1: Tree, b: seq<KeyValue>, t2: Tree)
    requires Adds(t, path, a, t1) && Adds(t1, path, b, t2)
    ensures Adds(t, path, a + b, t2)
  {
    hide PathOf, NewSection, NewLeaf;
    forall p
      ensures NewSection(path, a + b, p) <==> NewSection(path, a, p) || NewSection(path, b, p)
      ensures NewLeaf(path, a + b, p) <==> NewLeaf(path, a, p) || NewLeaf(path, b, p)
    {
      NewInBoth(path, a, b, p);
    }
    forall i | 0 <= i < |a + b|
      ensures var leaf := path + PathOf((a + b)[i].key); leaf in t2.leaves && t2.leaves[leaf] == (a + b)[i].value
    {
      if i < |a| {
        assert (a + b)[i] == a[i];
        assert path + PathOf(a[i].key) in t1.leaves;
      } else {
        assert (a + b)[i] == b[i - |a|];
      }
    }
  }

  lemma AddsOneLeaf(t: Tree, path: Path, o: KeyValue)
    requires !Dotted(o.key) && path + [o.key] !in t.leaves
    ensures Adds(t, path, [o], t.(leaves := t.leaves[path + [o.key] := o.value]))
  {
    assert PathOf(o.key) == [o.key];
    var here := path + [o.key];
    forall p
      ensures !NewSection(path, [o], p)
      ensures NewLeaf(path, [o], p) <==> p == here
    {
      assert [o][0] == o && here == path + PathOf([o][0].key);
      assert Above(path, p) && Above(p, here) ==> |path| < |p| < |here|;
    }
  }

  /** The options of a section with the section's name in front of their keys again. */
  function Whole(h: string, g: seq<KeyValue>): (w: seq<KeyValue>)
    ensures |w| == |g|
  {
    seq(|g|, i requires 0 <= i < |g| => KeyValue(h + "." + g[i].key, g[i].value))
  }

  lemma WholePath(h: string, key: string)
    requires '.' !in h
    ensures PathOf(h + "." + key) == [h] + PathOf(key)
  {
    SplitAt(h, '.', key);
  }

  lemma Between(path: Path, h: string, rel: Path, p: Path)
    requires rel != []
    ensures Above(path, p) && Above(p, path + ([h] + rel))
       <==> p == path + [h] || (Above(path + [h], p) && Above(p, path + [h] + rel))
  {
    var here := path + [h];
    assert path + ([h] + rel) == here + rel;
    if Above(path, p) && Above(p, here + rel) {
      assert p == (here + rel)[..|p|];
      assert p[..|path| + 1] == here;
      if |p| == |here| { assert p == here; }
    }
    if p == here {
      assert here == (here + rel)[..|here|];
      assert path == here[..|path|];
    }
    if Above(here, p) {
      assert path == here[..|path|] == p[..|path|];
    }
  }

  lemma WholeValues(path: Path, h: string, g: seq<KeyValue>, leaves: map<Path, string>)
    requires '.' !in h && ValuesAdded(path + [h], g, leaves)
    ensures ValuesAdded(path, Whole(h, g), leaves)
  {
    forall i | 0 <= i < |g|
      ensures var leaf := path + PathOf(Whole(h, g)[i].key); leaf in leaves && leaves[leaf] == Whole(h, g)[i].value
    {
      WholeAt(path, h, g, i);
      assert path + [h] + PathOf(g[i].key) in leaves;
    }
  }

  lemma AddsSection(t: Tree, path: Path, h: string, g: seq<KeyValue>, t': Tree)
    requires g != [] && '.' !in h
    requires Adds(t.(sections := t.sections + {path + [h]}), path + [h], g, t')
    ensures Adds(t, path, Whole(h, g), t')
  {
    hide PathOf, NewSection, NewLeaf, Above, Whole;
    WholeValues(path, h, g, t'.leaves);
    hide ValuesAdded;
    forall p
      ensures NewSection(path, Whole(h, g), p) <==> p == path + [h] || NewSection(path + [h], g, p)
      ensures NewLeaf(path, Whole(h, g), p) <==> NewLeaf(path + [h], g, p)
    {
      WholeSections(path, h, g, p);
      WholeLeaves(path, h, g, p);
    }
  }

  lemma WholeAt(path: Path, h: string, g: seq<KeyValue>, i: nat)
    requires i < |g| && '.' !in h
    ensures path + PathOf(Whole(h, g)[i].key) == path + [h] + PathOf(g[i].key)
  {
    WholePath(h, g[i].key);
  }

  lemma WholeSections(path: Path, h: string, g: seq<KeyValue>, p: Path)
    requires g != [] && '.' !in h
    ensures NewSection(path, Whole(h, g), p) <==> p == path + [h] || NewSection(path + [h], g, p)
  {
    var here, w := path + [h], Whole(h, g);
    forall i | 0 <= i < |g|
      ensures Above(path, p) && Above(p, path + PathOf(w[i].key))
         <==> p == here || (Above(here, p) && Above(p, here + PathOf(g[i].key)))
    {
      WholePath(h, g[i].key);
      Between(path, h, PathOf(g[i].key), p);
    }
    hide PathOf, Above;
    if p == here {
      assert Above(path, p) && Above(p, path + PathOf(w[0].key));
    }
  }

  lemma WholeLeaves(path: Path, h: string, g: seq<KeyValue>, p: Path)
    requires '.' !in h
    ensures NewLeaf(path, Whole(h, g), p) <==> NewLeaf(path + [h], g, p)
  {
    forall i | 0 <= i < |g| ensures path + PathOf(Whole(h, g)[i].key) == path + [h] + PathOf(g[i].key) {
      WholeAt(path, h, g, i);
    }
  }

  // ---------- options that make a tree ----------

  /** Keys are unique, none is a section of another, and no segment is empty. */
  ghost predicate Proper(opts: seq<KeyValue>) {
    && DistinctKeys(Key, opts)
    && (forall i, j :: 0 <= i < |opts| && 0 <= j < |opts| ==> !Above(PathOf(opts[i].key), PathOf(opts[j].key)))
    && (forall i :: 0 <= i < |opts| ==> NoEmptySegment(PathOf(opts[i].key)))
  }

  predicate NoEmptySegment(p: Path) {
    "" !in p
  }

  lemma ProperSorted(opts: seq<KeyValue>)
    requires Proper(opts)
    ensures Proper(SortOpts(opts))
  {
    hide PathOf, Above;
    var s := SortOpts(opts);
    SortBySorts(Key, opts);
    SameElements(Key, opts);
    DistinctPermuted(Key, opts, s);
    forall i | 0 <= i < |s| ensures exists i' :: 0 <= i' < |opts| && opts[i'] == s[i] {
      assert s[i] in opts;
    }
  }

  lemma {:induction false} GroupDistinct(opts: seq<KeyValue>, h: string)
    requires DistinctKeys(Key, opts)
    ensures DistinctKeys(Key, Group(opts, h))
  {
    if opts != [] {
      var init, kv := opts[..|opts| - 1], opts[|opts| - 1];
      GroupDistinct(init, h);
      if Dotted(kv.key) && HeadOf(kv.key) == h {
        HeadTail(kv.key, h, TailOf(kv.key));
        forall o | o in Group(init, h) ensures o.key != TailOf(kv.key) {
          GroupElement(init, h, o);
          var i :| 0 <= i < |init| && init[i] == KeyValue(h + "." + o.key, o.value);
          assert opts[i] == init[i];
          assert Key(opts[i]) != Key(opts[|opts| - 1]);
        }
      }
    }
  }

  lemma GroupSource(opts: seq<KeyValue>, h: string, i: nat) returns (k: nat)
    requires i < |Group(opts, h)|
    ensures '.' !in h && k < |opts| && PathOf(opts[k].key) == [h] + PathOf(Group(opts, h)[i].key)
  {
    var o := Group(opts, h)[i];
    GroupElement(opts, h, o);
    k :| 0 <= k < |opts| && opts[k] == KeyValue(h + "." + o.key, o.value);
    WholePath(h, o.key);
  }

  lemma GroupNoEmpty(opts: seq<KeyValue>, h: string, i: nat)
    requires Proper(opts) && i < |Group(opts, h)|
    ensures NoEmptySegment(PathOf(Group(opts, h)[i].key)) && h != "" && '.' !in h
  {
    var k := GroupSource(opts, h, i);
    hide PathOf, Group, Above;
    var p := PathOf(Group(opts, h)[i].key);
    assert h == ([h] + p)[0];
    assert forall x :: x in p ==> x in [h] + p;
  }

  lemma GroupPrefixFree(opts: seq<KeyValue>, h: string, i: nat, j: nat)
    requires Proper(opts) && i < |Group(opts, h)| && j < |Group(opts, h)|
    ensures !Above(PathOf(Group(opts, h)[i].key), PathOf(Group(opts, h)[j].key))
  {
    var k := GroupSource(opts, h, i);
    var m := GroupSource(opts, h, j);
    AboveCons(h, PathOf(Group(opts, h)[i].key), PathOf(Group(opts, h)[j].key));
  }

  lemma ProperGroup(opts: seq<KeyValue>, h: string)
    requires Proper(opts)
    ensures Proper(Group(opts, h))
    ensures Group(opts, h) != [] ==> h != "" && '.' !in h
  {
    var g := Group(opts, h);
    GroupDistinct(opts, h);
    hide PathOf, Group, Above, DistinctKeys, NoEmptySegment;
    if g != [] {
      GroupNoEmpty(opts, h, 0);
    }
    forall i | 0 <= i < |g| ensures NoEmptySegment(PathOf(g[i].key)) {
      GroupNoEmpty(opts, h, i);
    }
    forall i, j | 0 <= i < |g| && 0 <= j < |g| ensures !Above(PathOf(g[i].key), PathOf(g[j].key)) {
      GroupPrefixFree(opts, h, i, j);
    }
  }

  lemma AboveCons(h: string, p: Path, q: Path)
    ensures Above([h] + p, [h] + q) <==> Above(p, q)
  {
    if Above(p, q) {
      assert p == q[..|p|];
      assert [h] + p == ([h] + q)[..|p| + 1];
    }
    if Above([h] + p, [h] + q) {
      assert [h] + p == ([h] + q)[..|p| + 1];
      assert p == ([h] + p)[1..] == ([h] + q)[..|p| + 1][1..] == q[..|p|];
    }
  }

  lemma {:induction false} LeavesElements(opts: seq<KeyValue>)
    ensures forall o :: o in Leaves(opts) <==> o in opts && !Dotted(o.key)
  {
    hide Dotted;
    if opts != [] {
      var init, kv := opts[..|opts| - 1], opts[|opts| - 1];
      LeavesElements(init);
      assert opts == init + [kv];
    }
  }

  lemma {:induction false} LeavesDistinct(opts: seq<KeyValue>)
    requires DistinctKeys(Key, opts)
    ensures DistinctKeys(Key, Leaves(opts))
  {
    hide Dotted;
    if opts != [] {
      var init, kv := opts[..|opts| - 1], opts[|opts| - 1];
      LeavesDistinct(init);
      LeavesElements(init);
      forall o | o in Leaves(init) ensures o.key != kv.key {
        var i :| 0 <= i < |init| && init[i] == o;
        assert Key(opts[i]) != Key(opts[|opts| - 1]);
      }
    }
  }

  lemma {:induction false} HeadsElements(opts: seq<KeyValue>, h: string)
    ensures h in Heads(opts) <==> Group(opts, h) != []
  {
    if opts != [] {
      HeadsElements(opts[..|opts| - 1], h);
    }
  }

  function SubOpts(hs: seq<string>, opts: seq<KeyValue>): seq<KeyValue> {
    if hs == [] then [] else Whole(hs[0], SortOpts(Group(opts, hs[0]))) + SubOpts(hs[1..], opts)
  }

  lemma {:induction false} SubOptsElement(hs: seq<string>, opts: seq<KeyValue>, o: KeyValue)
    ensures o in SubOpts(hs, opts) <==> o in opts && Dotted(o.key) && HeadOf(o.key) in hs
  {
    if hs != [] {
      var h := hs[0];
      SubOptsElement(hs[1..], opts, o);
      WholeElement(h, opts, o);
      assert hs == [h] + hs[1..];
    }
  }

  lemma WholeElement(h: string, opts: seq<KeyValue>, o: KeyValue)
    ensures o in Whole(h, SortOpts(Group(opts, h))) <==> o in opts && Dotted(o.key) && HeadOf(o.key) == h
  {
    var g := Group(opts, h);
    var w := Whole(h, SortOpts(g));
    SameElements(Key, g);
    if o in w {
      var i :| 0 <= i < |w| && w[i] == o;
      var x := SortOpts(g)[i];
      assert x in g;
      GroupElement(opts, h, x);
      HeadTail(o.key, h, x.key);
    }
    if o in opts && Dotted(o.key) && HeadOf(o.key) == h {
      var x := o.(key := TailOf(o.key));
      HeadTail(o.key, h, x.key);
      GroupElement(opts, h, x);
      var i :| 0 <= i < |SortOpts(g)| && SortOpts(g)[i] == x;
      assert w[i] == o;
    }
  }

  lemma AllOptions(opts: seq<KeyValue>)
    ensures forall o :: o in Leaves(opts) + SubOpts(SortedHeads(opts), opts) <==> o in opts
  {
    LeavesElements(opts);
    SameElements(Same, Heads(opts));
    forall o
      ensures o in SubOpts(SortedHeads(opts), opts) <==> o in opts && Dotted(o.key)
    {
      SubOptsElement(SortedHeads(opts), opts, o);
      if o in opts && Dotted(o.key) {
        var h := HeadOf(o.key);
        HeadTail(o.key, h, TailOf(o.key));
        GroupElement(opts, h, o.(key := TailOf(o.key)));
        HeadsElements(opts, h);
      }
    }
  }

  // ---------- reading a section back ----------

  predicate StartsWith(current: Path, path: Path) {
    |path| <= |current| && current[..|path|] == path
  }

  /** Nothing of t stands at or below path. */
  ghost predicate Free(t: Tree, path: Path) {
    forall p :: p in t.sections || p in t.leaves ==> !AtOrAbove(path, p)
  }

  lemma HeadAt(path: Path, a: string, p: Path)
    requires AtOrAbove(path + [a], p)
    ensures |p| > |path| && p[|path|] == a
  {
    assert p[|path|] == (path + [a])[|path|];
  }

  /** What stands at or below one child of path stands below no other. */
  lemma OtherHead(path: Path, a: string, b: string, p: Path)
    requires a != b && AtOrAbove(path + [b], p)
    ensures !AtOrAbove(path + [a], p)
  {
    HeadAt(path, b, p);
    if AtOrAbove(path + [a], p) {
      HeadAt(path, a, p);
    }
  }

  lemma FreeAfterLeaf(t: Tree, path: Path, a: string, b: string, v: string)
    requires Free(t, path + [a]) && a != b
    ensures Free(t.(leaves := t.leaves[path + [b] := v]), path + [a])
  {
    assert AtOrAbove(path + [b], path + [b]);
    OtherHead(path, a, b, path + [b]);
  }

  lemma ReadLeaf(path: Path, current: Path, t: Tree, o: KeyValue, lines: seq<Line>)
    requires StartsWith(current, path) && Free(t, path + [o.key])
    requires lines != [] && lines[0] == Line(|path|, o.key, Some(o.value))
    ensures Read(lines, current, t) == Read(lines[1..], path, t.(leaves := t.leaves[path + [o.key] := o.value]))
    ensures path + [o.key] !in t.leaves
  {
    assert AtOrAbove(path + [o.key], path + [o.key]);
  }

  lemma {:induction false} ReadLeaves(path: Path, current: Path, t: Tree, leaves: seq<KeyValue>, rest: seq<Line>)
    returns (current': Path, t': Tree)
    requires StartsWith(current, path) && DistinctKeys(Key, leaves)
    requires forall i :: 0 <= i < |leaves| ==> !Dotted(leaves[i].key) && Free(t, path + [leaves[i].key])
    ensures Read(LeafLines(|path|, leaves) + rest, current, t) == Read(rest, current', t')
    ensures StartsWith(current', path) && Adds(t, path, leaves, t')
    decreases |leaves|
  {
    hide Adds, Free, Read, PathOf;
    var lines := LeafLines(|path|, leaves) + rest;
    if leaves == [] {
      assert lines == rest;
      current', t' := current, t;
      AddsNothing(t, path);
    } else {
      var o, tail := leaves[0], leaves[1..];
      var t1 := t.(leaves := t.leaves[path + [o.key] := o.value]);
      ReadLeaf(path, current, t, o, lines);
      assert lines[1..] == LeafLines(|path|, tail) + rest;
      SortedTail(Key, leaves);
      forall i | 0 <= i < |tail| ensures !Dotted(tail[i].key) && Free(t1, path + [tail[i].key]) {
        assert tail[i] == leaves[i + 1] && Key(leaves[i + 1]) != Key(leaves[0]);
        FreeAfterLeaf(t, path, tail[i].key, o.key, o.value);
      }
      current', t' := ReadLeaves(path, path, t1, tail, rest);
      AddsOneLeaf(t, path, o);
      AddsBoth(t, path, [o], t1, tail, t');
      assert [o] + tail == leaves;
    }
  }

  lemma AddsNothing(t: Tree, path: Path)
    ensures Adds(t, path, [], t)
  {
  }

  /** What the options add below path stands at or below it. */
  lemma AddedBelow(t: Tree, path: Path, opts: seq<KeyValue>, t': Tree)
    requires Adds(t, path, opts, t')
    ensures forall p :: (p in t'.sections && p !in t.sections) || (p in t'.leaves && p !in t.leaves) ==>
              AtOrAbove(path, p)
  {
    hide PathOf;
  }

  /** Nothing of t stands below path. */
  ghost predicate Open(t: Tree, path: Path) {
    forall p :: p in t.sections || p in t.leaves ==> !Above(path, p)
  }

  lemma OpenFree(t: Tree, path: Path, a: string)
    requires Open(t, path)
    ensures Free(t, path + [a])
  {
    forall p | AtOrAbove(path + [a], p) ensures Above(path, p) {
      assert p[..|path|] == (path + [a])[..|path|] == path;
    }
  }

  lemma OpenSection(t: Tree, here: Path)
    requires Free(t, here)
    ensures Open(t.(sections := t.sections + {here}), here)
  {
    forall p | Above(here, p) ensures AtOrAbove(here, p) && p != here {
    }
  }

  lemma FreeAfterSection(t: Tree, path: Path, h: string, opts: seq<KeyValue>, t': Tree, a: string)
    requires Free(t, path + [a]) && a != h
    requires Adds(t.(sections := t.sections + {path + [h]}), path + [h], opts, t')
    ensures Free(t', path + [a])
  {
    var here := path + [h];
    AddedBelow(t.(sections := t.sections + {here}), here, opts, t');
    assert AtOrAbove(here, here);
    hide Adds;
    forall p | p in t'.sections || p in t'.leaves ensures !AtOrAbove(path + [a], p) {
      if AtOrAbove(here, p) {
        OtherHead(path, a, h, p);
      }
    }
  }

  lemma ReadHeader(path: Path, current: Path, t: Tree, h: string, lines: seq<Line>)
    requires StartsWith(current, path) && Free(t, path + [h])
    requires lines != [] && lines[0] == Line(|path|, h, None)
    ensures Read(lines, current, t) == Read(lines[1..], path + [h], t.(sections := t.sections + {path + [h]}))
  {
    assert AtOrAbove(path + [h], path + [h]);
  }

  lemma {:induction false} ReadSection(path: Path, current: Path, t: Tree, h: string, opts: seq<KeyValue>,
                                       rest: seq<Line>)
    returns (current': Path, t': Tree)
    requires StartsWith(current, path) && h != "" && '.' !in h
    requires opts != [] && Proper(opts) && Free(t, path + [h])
    ensures Read(SectionLines(h, |path|, opts) + rest, current, t) == Read(rest, current', t')
    ensures StartsWith(current', path) && Adds(t, path, Whole(h, opts), t')
    ensures forall a :: a != h && Free(t, path + [a]) ==> Free(t', path + [a])
    decreases Depth(opts), 2, 0
  {
    hide Adds, Free, Read, BodyLines, Proper, Open;
    var here := path + [h];
    var t1 := t.(sections := t.sections + {here});
    var lines := SectionLines(h, |path|, opts) + rest;
    ReadHeader(path, current, t, h, lines);
    assert lines[1..] == BodyLines(|here|, opts) + rest;
    OpenSection(t, here);
    current', t' := ReadBody(here, here, t1, opts, rest);
    AddsSection(t, path, h, opts, t');
    forall a | a != h && Free(t, path + [a]) ensures Free(t', path + [a]) {
      FreeAfterSection(t, path, h, opts, t', a);
    }
    assert current'[..|here|][..|path|] == path;
  }

  lemma {:induction false} ReadBody(path: Path, current: Path, t: Tree, opts: seq<KeyValue>, rest: seq<Line>)
    returns (current': Path, t': Tree)
    requires StartsWith(current, path) && opts != [] && Proper(opts) && Open(t, path)
    ensures Read(BodyLines(|path|, opts) + rest, current, t) == Read(rest, current', t')
    ensures StartsWith(current', path) && Adds(t, path, opts, t')
    decreases Depth(opts), 1, 0
  {
    hide Adds, Free, Read, Proper, Open, SubLines, SectionLines, Leaves, SortedHeads, SubOpts, LeafLines, SortOpts;
    var s := SortOpts(opts);
    DepthSorted(opts);
    SortedOptions(opts);
    ProperSorted(opts);
    var leaves, hs := Leaves(s), SortedHeads(s);
    BodyReady(path, t, s);
    var subs := SubLines(|path|, hs, s, Depth(s));
    var c1, t1 := ReadLeaves(path, current, t, leaves, subs + rest);
    forall i | 0 <= i < |hs| ensures Free(t1, path + [hs[i]]) {
      FreeAfterLeaves(path, t, s, t1, hs[i]);
    }
    current', t' := ReadSubs(path, c1, t1, hs, s, rest);
    assert BodyLines(|path|, opts) + rest == LeafLines(|path|, leaves) + (subs + rest);
    AddsBoth(t, path, leaves, t1, SubOpts(hs, s), t');
    AllOptions(s);
    AddsSame(t, path, leaves + SubOpts(hs, s), opts, t');
  }

  lemma SortedOptions(opts: seq<KeyValue>)
    ensures |SortOpts(opts)| == |opts| && forall o :: o in SortOpts(opts) <==> o in opts
  {
    SameElements(Key, opts);
  }

  lemma BodyReady(path: Path, t: Tree, s: seq<KeyValue>)
    requires Proper(s) && Open(t, path)
    ensures DistinctKeys(Key, Leaves(s))
    ensures forall i :: 0 <= i < |Leaves(s)| ==> !Dotted(Leaves(s)[i].key) && Free(t, path + [Leaves(s)[i].key])
    ensures DistinctKeys(Same, SortedHeads(s))
    ensures forall i :: 0 <= i < |SortedHeads(s)| ==> Group(s, SortedHeads(s)[i]) != []
  {
    hide Leaves, Heads, Group, PathOf, Dotted, Free, SortBy, DistinctKeys, Open;
    LeavesElements(s);
    LeavesDistinct(s);
    forall i | 0 <= i < |Leaves(s)| ensures !Dotted(Leaves(s)[i].key) && Free(t, path + [Leaves(s)[i].key]) {
      assert Leaves(s)[i] in Leaves(s);
      OpenFree(t, path, Leaves(s)[i].key);
    }
    var hs := Heads(s);
    HeadsDistinct(s);
    SortBySorts(Same, hs);
    SameElements(Same, hs);
    DistinctPermuted(Same, hs, SortedHeads(s));
    forall i | 0 <= i < |SortedHeads(s)| ensures Group(s, SortedHeads(s)[i]) != [] {
      assert SortedHeads(s)[i] in hs;
      HeadsElements(s, SortedHeads(s)[i]);
    }
  }

  lemma LeafNotHead(s: seq<KeyValue>, o: KeyValue, h: string)
    requires Proper(s) && o in s && !Dotted(o.key) && Group(s, h) != []
    ensures o.key != h
  {
    var k := GroupSource(s, h, 0);
    var j :| 0 <= j < |s| && s[j] == o;
    assert PathOf(o.key) == [o.key];
    assert [h] == ([h] + PathOf(Group(s, h)[0].key))[..1];
    assert !Above(PathOf(s[j].key), PathOf(s[k].key));
  }

  lemma OnlyLeaves(path: Path, leaves: seq<KeyValue>, p: Path)
    requires forall i :: 0 <= i < |leaves| ==> !Dotted(leaves[i].key)
    ensures !NewSection(path, leaves, p)
    ensures NewLeaf(path, leaves, p) <==> exists i :: 0 <= i < |leaves| && p == path + [leaves[i].key]
  {
    forall i | 0 <= i < |leaves| ensures PathOf(leaves[i].key) == [leaves[i].key] {
    }
    assert forall q :: Above(path, p) && Above(p, q) ==> |q| > |path| + 1;
  }

  /** A leaf is never named like a section, so the sections are still free after the leaves. */
  lemma FreeAfterLeaves(path: Path, t: Tree, s: seq<KeyValue>, t1: Tree, h: string)
    requires Proper(s) && Open(t, path) && Adds(t, path, Leaves(s), t1) && Group(s, h) != []
    ensures Free(t1, path + [h])
  {
    OpenFree(t, path, h);
    LeavesElements(s);
    var leaves := Leaves(s);
    forall i | 0 <= i < |leaves| ensures !Dotted(leaves[i].key) && leaves[i].key != h {
      assert leaves[i] in Leaves(s);
      LeafNotHead(s, leaves[i], h);
    }
    hide PathOf, Leaves, Group, NewSection, NewLeaf, Proper;
    forall p | p in t1.sections || p in t1.leaves ensures !AtOrAbove(path + [h], p) {
      OnlyLeaves(path, leaves, p);
      if NewLeaf(path, leaves, p) {
        var i :| 0 <= i < |leaves| && p == path + [leaves[i].key];
        assert AtOrAbove(p, p);
        OtherHead(path, h, leaves[i].key, p);
      }
    }
  }

  lemma {:induction false} ReadSubs(path: Path, current: Path, t: Tree, hs: seq<string>, s: seq<KeyValue>,
                                    rest: seq<Line>)
    returns (current': Path, t': Tree)
    requires StartsWith(current, path) && s != [] && Proper(s) && DistinctKeys(Same, hs)
    requires forall i :: 0 <= i < |hs| ==> Group(s, hs[i]) != [] && Free(t, path + [hs[i]])
    ensures Read(SubLines(|path|, hs, s, Depth(s)) + rest, current, t) == Read(rest, current', t')
    ensures StartsWith(current', path) && Adds(t, path, SubOpts(hs, s), t')
    decreases Depth(s), 0, |hs|
  {
    hide Adds, Free, Read, Proper, Open, SectionLines, Group;
    if hs == [] {
      current', t' := current, t;
      AddsNothing(t, path);
      assert SubLines(|path|, hs, s, Depth(s)) + rest == rest;
    } else {
      var h, tail := hs[0], hs[1..];
      var g := SortOpts(Group(s, h));
      DepthGroup(s, h);
      DepthSorted(Group(s, h));
      ProperGroup(s, h);
      ProperSorted(Group(s, h));
      SameElements(Key, Group(s, h));
      var after := SubLines(|path|, tail, s, Depth(s)) + rest;
      var c1, t1 := ReadSection(path, current, t, h, g, after);
      SortedTail(Same, hs);
      forall i | 0 <= i < |tail| ensures Group(s, tail[i]) != [] && Free(t1, path + [tail[i]]) {
        assert tail[i] == hs[i + 1] && Same(hs[i + 1]) != Same(hs[0]);
      }
      current', t' := ReadSubs(path, c1, t1, tail, s, rest);
      assert SubLines(|path|, hs, s, Depth(s)) + rest == SectionLines(h, |path|, g) + after;
      AddsBoth(t, path, Whole(h, g), t1, SubOpts(tail, s), t');
    }
  }

  // ---------- the text and the map hold the same tree ----------

  lemma ProperInit(kvs: seq<KeyValue>)
    requires kvs != [] && Proper(kvs)
    ensures Proper(kvs[..|kvs| - 1])
  {
    hide PathOf;
  }

  lemma WithSectionsExactly(t: Tree, path: Path, p: Path)
    requires path != [] && [] in t.sections
    ensures p in WithSections(t, Init(path)).sections <==> p in t.sections || (Above([], p) && Above(p, path))
  {
    var q := Init(path);
    if Above(p, path) {
      assert p == path[..|p|] == q[..|p|];
    }
    if i :| 0 <= i <= |q| && p == q[..i] {
      assert p == path[..i];
      if i > 0 { assert Above([], p) && Above(p, path); }
    }
  }

  /** A new option at a path that nothing shares, covers or contains only adds to the tree. */
  lemma InsertAdds(t: Tree, kv: KeyValue)
    requires var path := PathOf(kv.key);
             && [] in t.sections && Last(path) != "" && !Blocked(t, path)
             && (forall p :: p in t.sections || p in t.leaves ==> !AtOrAbove(path, p))
    ensures Adds(t, [], [kv], Inserted(t, PathOf(kv.key), kv.value).value)
  {
    var path := PathOf(kv.key);
    hide PathOf;
    var t' := Inserted(t, path, kv.value).value;
    assert [] + path == path;
    forall p
      ensures NewSection([], [kv], p) <==> Above([], p) && Above(p, path)
      ensures NewLeaf([], [kv], p) <==> p == path
      ensures p in t'.sections <==> p in t.sections || (Above([], p) && Above(p, path))
    {
      assert [kv][0] == kv;
      WithSectionsExactly(t, path, p);
      NotBoth(p, path);
    }
  }

  lemma NotBoth(p: Path, q: Path)
    ensures !(Above(p, q) && AtOrAbove(q, p))
  {
  }

  lemma NothingThere(kvs: seq<KeyValue>, t: Tree, p: Path)
    requires kvs != [] && Proper(kvs) && Adds(EMPTY, [], kvs[..|kvs| - 1], t)
    requires p in t.sections || p in t.leaves
    ensures !AtOrAbove(PathOf(kvs[|kvs| - 1].key), p)
  {
    hide Proper, NewSection, NewLeaf, PathOf, ValuesAdded;
    var init := kvs[..|kvs| - 1];
    if NewSection([], init, p) {
      NoSectionThere(kvs, p);
    } else if NewLeaf([], init, p) {
      NoLeafThere(kvs, p);
    } else {
      assert p == [];
      PathNotEmpty(kvs[|kvs| - 1].key);
    }
  }

  lemma PathNotEmpty(key: string)
    ensures !AtOrAbove(PathOf(key), [])
  {
  }

  lemma NoSectionThere(kvs: seq<KeyValue>, p: Path)
    requires kvs != [] && Proper(kvs) && NewSection([], kvs[..|kvs| - 1], p)
    ensures !AtOrAbove(PathOf(kvs[|kvs| - 1].key), p)
  {
    hide PathOf;
    var n := |kvs| - 1;
    var i :| 0 <= i < n && Above([], p) && Above(p, [] + PathOf(kvs[..n][i].key));
    assert [] + PathOf(kvs[..n][i].key) == PathOf(kvs[i].key);
    AboveTransitive(PathOf(kvs[n].key), p, PathOf(kvs[i].key));
  }

  lemma NoLeafThere(kvs: seq<KeyValue>, p: Path)
    requires kvs != [] && Proper(kvs) && NewLeaf([], kvs[..|kvs| - 1], p)
    ensures !AtOrAbove(PathOf(kvs[|kvs| - 1].key), p)
  {
    var n := |kvs| - 1;
    var i :| 0 <= i < n && p == [] + PathOf(kvs[..n][i].key);
    assert p == PathOf(kvs[i].key);
    AboveOrEqual(PathOf(kvs[n].key), p);
    JoinSplit(kvs[i].key, '.');
    JoinSplit(kvs[n].key, '.');
    assert Key(kvs[i]) != Key(kvs[n]);
  }

  lemma ProperNeverClashes(kvs: seq<KeyValue>)
    requires Proper(kvs)
    ensures !HasClash(kvs)
    ensures kvs != [] ==> Last(PathOf(kvs[|kvs| - 1].key)) != ""
  {
    if kvs != [] {
      var path := PathOf(kvs[|kvs| - 1].key);
      assert NoEmptySegment(path) && Last(path) in path;
    }
  }

  lemma BuiltFromInit(kvs: seq<KeyValue>)
    requires kvs != [] && Built(kvs).Some?
    ensures Built(kvs[..|kvs| - 1]).Some?
    ensures var t, kv := Built(kvs[..|kvs| - 1]).value, kvs[|kvs| - 1];
            !Blocked(t, PathOf(kv.key)) && Built(kvs) == Inserted(t, PathOf(kv.key), kv.value)
  {
  }

  lemma RootStays(kvs: seq<KeyValue>, t: Tree)
    requires Adds(EMPTY, [], kvs, t)
    ensures [] in t.sections
  {
  }

  lemma {:induction false} BuiltAdds(kvs: seq<KeyValue>)
    requires Proper(kvs)
    ensures Built(kvs).Some? && Adds(EMPTY, [], kvs, Built(kvs).value)
  {
    hide PathOf, NewSection, NewLeaf, HasClash, Proper, Adds, Blocked, Inserted, AtOrAbove;
    ProperNeverClashes(kvs);
    FailsExactly(kvs);
    if kvs == [] {
      AddsNothing(EMPTY, []);
    } else {
      var n := |kvs| - 1;
      var init, kv := kvs[..n], kvs[n];
      ProperInit(kvs);
      BuiltAdds(init);
      BuiltFromInit(kvs);
      var t := Built(init).value;
      RootStays(init, t);
      forall p | p in t.sections || p in t.leaves ensures !AtOrAbove(PathOf(kv.key), p) {
        NothingThere(kvs, t, p);
      }
      InsertAdds(t, kv);
      AddsBoth(EMPTY, [], init, t, [kv], Built(kvs).value);
      assert init + [kv] == kvs;
    }
  }

  /**
   For proper options the lines read back by indentation give exactly the tree that
   ConvertKeyValuesToMap builds, sections and leaves.
   */
  lemma LinesHoldTheTree(kvs: seq<KeyValue>)
    requires Proper(kvs)
    ensures Built(kvs).Some? && Read(SectionLines("", 0, kvs), [], EMPTY) == Built(kvs)
  {
    BuiltAdds(kvs);
    if kvs != [] {
      assert Open(EMPTY, []) && StartsWith([], []);
      var lines := BodyLines(0, kvs);
      var c, t := ReadBody([], [], EMPTY, kvs, []);
      assert lines + [] == lines;
      AddsDetermines(EMPTY, [], kvs, t, Built(kvs).value);
    }
  }

  /** The text does not depend on the order of the options. */
  lemma OrderIgnored(a: seq<KeyValue>, b: seq<KeyValue>)
    requires multiset(a) == multiset(b) && DistinctKeys(Key, a)
    ensures SectionLines("", 0, a) == SectionLines("", 0, b)
  {
    SortIgnoresOrder(Key, a, b);
    assert |a| == |multiset(a)| == |multiset(b)| == |b|;
  }
}
