/**
 The YAML text of a configuration: CreateYAML, copySection and copyOpt of clc/config/config.go.
 Options are grouped by the first segment of their keys, recursively, and every level is
 written in sorted order.
 */
module ConfigYaml {
  import opened ConfigTree
  import opened Sorting
  import opened Text
  import opened Wrappers

  // ---------- what is written ----------

  /** A line of the text: a section header, or an option with its value. */
  datatype Line = Line(level: nat, name: string, value: Option<string>)

  function Indent(level: nat): string {
    if level == 0 then "" else "  " + Indent(level - 1)
  }

  function LineText(l: Line): string {
    Indent(l.level) + l.name + (match l.value case None => ":" case Some(v) => ": " + v)
  }

  function Render(lines: seq<Line>): string {
    if lines == [] then "" else Render(lines[..|lines| - 1]) + LineText(lines[|lines| - 1]) + "\n"
  }

  function Key(kv: KeyValue): string { kv.key }

  function SortOpts(opts: seq<KeyValue>): seq<KeyValue> {
    SortBy(Key, opts)
  }

  predicate Dotted(key: string) {
    '.' in key
  }

  function HeadOf(key: string): string
    requires Dotted(key)
  {
    key[..IndexOf(key, '.')]
  }

  function TailOf(key: string): string
    requires Dotted(key)
  {
    key[IndexOf(key, '.') + 1..]
  }

  function Leaves(opts: seq<KeyValue>): (r: seq<KeyValue>) {
    if opts == [] then []
    else
      var kv := opts[|opts| - 1];
      Leaves(opts[..|opts| - 1]) + if Dotted(kv.key) then [] else [kv]
  }

  /** The options below section h, their keys without the first segment. */
  function Group(opts: seq<KeyValue>, h: string): seq<KeyValue> {
    if opts == [] then []
    else
      var kv := opts[|opts| - 1];
      Group(opts[..|opts| - 1], h)
      + if Dotted(kv.key) && HeadOf(kv.key) == h then [kv.(key := TailOf(kv.key))] else []
  }

  /** The sections, each once, in the order in which they first appear. */
  function Heads(opts: seq<KeyValue>): seq<string> {
    if opts == [] then []
    else
      var hs, key := Heads(opts[..|opts| - 1]), opts[|opts| - 1].key;
      if Dotted(key) && HeadOf(key) !in hs then hs + [HeadOf(key)] else hs
  }

  function SortedHeads(opts: seq<KeyValue>): seq<string> {
    SortBy(Same, Heads(opts))
  }

  function LeafLines(level: nat, leaves: seq<KeyValue>): seq<Line> {
    seq(|leaves|, i requires 0 <= i < |leaves| => Line(level, leaves[i].key, Some(leaves[i].value)))
  }

  /** One more than the length of the longest key. */
  ghost function Depth(opts: seq<KeyValue>): (d: nat) {
    if opts == [] then 0
    else
      var d, kv := Depth(opts[1..]), opts[0];
      if |kv.key| + 1 > d then |kv.key| + 1 else d
  }

  lemma {:induction false} DepthExact(opts: seq<KeyValue>)
    ensures forall kv :: kv in opts ==> |kv.key| < Depth(opts)
    ensures opts != [] ==> exists kv :: kv in opts && |kv.key| + 1 == Depth(opts)
  {
    if opts != [] {
      DepthExact(opts[1..]);
      assert forall x :: x in opts ==> x == opts[0] || x in opts[1..];
      assert opts[0] in opts;
    }
  }

  lemma HeadTail(key: string, h: string, tail: string)
    requires '.' !in h
    ensures key == h + "." + tail <==> Dotted(key) && HeadOf(key) == h && TailOf(key) == tail
  {
    if key == h + "." + tail {
      IndexOfAt(h, '.', tail);
    }
    if Dotted(key) {
      assert key == HeadOf(key) + "." + TailOf(key);
    }
  }

  lemma {:induction false} GroupElement(opts: seq<KeyValue>, h: string, o: KeyValue)
    ensures o in Group(opts, h) <==> KeyValue(h + "." + o.key, o.value) in opts && '.' !in h
  {
    if opts != [] {
      var init, kv := opts[..|opts| - 1], opts[|opts| - 1];
      var whole := KeyValue(h + "." + o.key, o.value);
      GroupElement(init, h, o);
      assert whole in opts <==> whole in init || whole == kv;
      if '.' !in h {
        HeadTail(kv.key, h, o.key);
      }
    }
  }

  lemma DepthSorted(opts: seq<KeyValue>)
    ensures Depth(SortOpts(opts)) == Depth(opts)
  {
    SameElements(Key, opts);
    DepthExact(opts);
    DepthExact(SortOpts(opts));
  }

  lemma DepthGroup(opts: seq<KeyValue>, h: string)
    requires opts != []
    ensures Depth(Group(opts, h)) < Depth(opts)
  {
    var g := Group(opts, h);
    DepthExact(opts);
    DepthExact(g);
    if g != [] {
      var o :| o in g && |o.key| + 1 == Depth(g);
      GroupElement(opts, h, o);
      assert KeyValue(h + "." + o.key, o.value) in opts;
    }
  }

  /** The lines of section name, or of the whole text for the name "". */
  ghost function SectionLines(name: string, level: nat, opts: seq<KeyValue>): seq<Line>
    decreases Depth(opts), 1, 0
  {
    if opts == [] then []
    else if name == "" then BodyLines(level, opts)
    else [Line(level, name, None)] + BodyLines(level + 1, opts)
  }

  ghost function BodyLines(level: nat, opts: seq<KeyValue>): seq<Line>
    requires opts != []
    decreases Depth(opts), 0, |opts| + 1
  {
    var s := SortOpts(opts);
    DepthSorted(opts);
    SameElements(Key, opts);
    LeafLines(level, Leaves(s)) + SubLines(level, SortedHeads(s), s, Depth(s))
  }

  ghost function SubLines(level: nat, hs: seq<string>, opts: seq<KeyValue>, depth: nat): seq<Line>
    requires opts != [] && depth == Depth(opts)
    decreases depth, 0, 0, |hs|
  {
    if hs == [] then []
    else
      var g := Group(opts, hs[0]);
      DepthGroup(opts, hs[0]);
      DepthSorted(g);
      SectionLines(hs[0], level, SortOpts(g)) + SubLines(level, hs[1..], opts, depth)
  }

  // ---------- writing it ----------

  class StringBuilder {
    var text: string

    constructor ()
      ensures text == ""
    {
      text := "";
    }

    method WriteString(s: string)
      modifies this
      ensures text == old(text) + s
    {
      text := text + s;
    }
  }

  lemma {:induction false} RenderAppend(a: seq<Line>, b: seq<Line>)
    ensures Render(a + b) == Render(a) + Render(b)
  {
    hide LineText;
    if b == [] {
      assert a + b == a;
    } else {
      var n := |b| - 1;
      assert (a + b)[..|a + b| - 1] == a + b[..n];
      RenderAppend(a, b[..n]);
    }
  }

  lemma RenderOne(l: Line)
    ensures Render([l]) == LineText(l) + "\n"
  {
    assert [l][..0] == [];
  }

  /** slices.SortFunc on the options: in place. */
  method SortInPlace(opts: array<KeyValue>)
    modifies opts
    ensures opts[..] == SortOpts(old(opts[..]))
  {
    var sorted := SortOpts(opts[..]);
    SameElements(Key, opts[..]);
    forall i | 0 <= i < opts.Length {
      opts[i] := sorted[i];
    }
  }

  method CopyOpt(level: nat, sb: StringBuilder, opt: KeyValue)
    modifies sb
    ensures sb.text == old(sb.text) + Render([Line(level, opt.key, Some(opt.value))])
  {
    RenderOne(Line(level, opt.key, Some(opt.value)));
    sb.WriteString(Indent(level));
    sb.WriteString(opt.key);
    sb.WriteString(": ");
    sb.WriteString(opt.value);
    sb.WriteString("\n");
  }

  method CopyHeader(level: nat, sb: StringBuilder, name: string)
    modifies sb
    ensures sb.text == old(sb.text) + Render([Line(level, name, None)])
  {
    RenderOne(Line(level, name, None));
    sb.WriteString(Indent(level));
    sb.WriteString(name);
    sb.WriteString(":\n");
  }

  method CopyLeaves(level: nat, sb: StringBuilder, leaves: seq<KeyValue>)
    modifies sb
    ensures sb.text == old(sb.text) + Render(LeafLines(level, leaves))
  {
    hide LineText, Render, Indent;
    ghost var lines := LeafLines(level, leaves);
    assert Render(lines[..0]) == "" by { RenderEmpty(); }
    for i := 0 to |leaves|
      invariant sb.text == old(sb.text) + Render(lines[..i])
    {
      CopyOpt(level, sb, leaves[i]);
      assert lines[..i + 1] == lines[..i] + [lines[i]];
      RenderAppend(lines[..i], [lines[i]]);
    }
    assert lines[..|leaves|] == lines;
  }

  /** The first loop of copySection: options without a dot are leaves, the others go to their section. */
  method Partition(opts: seq<KeyValue>) returns (leaves: seq<KeyValue>, sub: map<string, seq<KeyValue>>)
    ensures leaves == Leaves(opts)
    ensures forall h :: h in sub <==> h in Heads(opts)
    ensures forall h :: h in sub ==> sub[h] == Group(opts, h)
  {
    leaves, sub := [], map[];
    for i := 0 to |opts|
      invariant leaves == Leaves(opts[..i])
      invariant forall h :: h in sub <==> h in Heads(opts[..i])
      invariant forall h :: h in sub ==> sub[h] == Group(opts[..i], h)
    {
      assert opts[..i + 1][..i] == opts[..i];
      var opt := opts[i];
      if !Dotted(opt.key) {
        leaves := leaves + [opt];
      } else {
        var kh, kr := HeadOf(opt.key), TailOf(opt.key);
        if kh !in sub {
          NoGroup(opts[..i], kh);
        }
        sub := sub[kh := (if kh in sub then sub[kh] else []) + [opt.(key := kr)]];
      }
    }
    assert opts[..|opts|] == opts;
  }

  lemma {:induction false} NoGroup(opts: seq<KeyValue>, h: string)
    requires h !in Heads(opts)
    ensures Group(opts, h) == []
  {
    if opts != [] {
      NoGroup(opts[..|opts| - 1], h);
    }
  }

  lemma {:induction false} HeadsDistinct(opts: seq<KeyValue>)
    ensures DistinctKeys(Same, Heads(opts))
  {
    if opts != [] {
      HeadsDistinct(opts[..|opts| - 1]);
    }
  }

  /** The names of the sections, taken from the map in any order, then sorted. */
  method SectionNames(sub: map<string, seq<KeyValue>>, ghost opts: seq<KeyValue>) returns (names: seq<string>)
    requires forall h :: h in sub <==> h in Heads(opts)
    ensures names == SortedHeads(opts)
    ensures forall h :: h in names <==> h in sub
  {
    var todo := sub.Keys;
    var picked := [];
    while todo != {}
      invariant todo <= sub.Keys
      invariant forall h :: h in picked <==> h in sub && h !in todo
      invariant DistinctKeys(Same, picked)
      decreases |todo|
    {
      var k :| k in todo;
      todo := todo - {k};
      picked := picked + [k];
    }
    HeadsDistinct(opts);
    SameDistinct(picked, Heads(opts));
    SortIgnoresOrder(Same, picked, Heads(opts));
    names := SortBy(Same, picked);
    SameElements(Same, picked);
  }

  lemma SameDistinct(a: seq<string>, b: seq<string>)
    requires DistinctKeys(Same, a) && DistinctKeys(Same, b)
    requires forall x :: x in a <==> x in b
    ensures multiset(a) == multiset(b)
  {
    forall x ensures multiset(a)[x] == multiset(b)[x] {
      if x in a {
        var i :| 0 <= i < |a| && a[i] == x;
        var j :| 0 <= j < |b| && b[j] == x;
        Once(Same, a, i);
        Once(Same, b, j);
      } else {
        assert x !in multiset(a) && x !in multiset(b);
      }
    }
  }

  method CopySection(name: string, level: nat, sb: StringBuilder, opts: array<KeyValue>)
    modifies opts, sb
    ensures opts[..] == SortOpts(old(opts[..]))
    ensures sb.text == old(sb.text) + Render(SectionLines(name, level, old(opts[..])))
    decreases Depth(opts[..]), 1
  {
    hide Render, LeafLines, SubLines;
    ghost var given := opts[..];
    assert given == [] ==> Render([]) == "" by { RenderEmpty(); }
    DepthSorted(given);
    SameElements(Key, given);
    SortInPlace(opts);
    if opts.Length == 0 {
      return;
    }
    var s := opts[..];
    var leaves, sub := Partition(s);
    var inner := level;
    if name != "" {
      CopyHeader(level, sb, name);
      inner := level + 1;
    }
    CopyLeaves(inner, sb, leaves);
    var names := SectionNames(sub, s);
    CopySubsections(inner, sb, names, sub, s);
    RenderAppend(LeafLines(inner, leaves), SubLines(inner, names, s, Depth(s)));
    assert BodyLines(inner, given) == LeafLines(inner, leaves) + SubLines(inner, names, s, Depth(s));
    RenderAppend([Line(level, name, None)], BodyLines(inner, given));
  }

  lemma SubLinesStep(level: nat, names: seq<string>, i: nat, opts: seq<KeyValue>, done: seq<Line>)
    requires i < |names| && opts != []
    requires SubLines(level, names, opts, Depth(opts)) == done + SubLines(level, names[i..], opts, Depth(opts))
    ensures SubLines(level, names, opts, Depth(opts))
         == done + SectionLines(names[i], level, SortOpts(Group(opts, names[i])))
            + SubLines(level, names[i + 1..], opts, Depth(opts))
  {
    hide SectionLines, SortOpts, Group;
    var lines := SectionLines(names[i], level, SortOpts(Group(opts, names[i])));
    var tail := SubLines(level, names[i + 1..], opts, Depth(opts));
    assert names[i..][1..] == names[i + 1..] && names[i..][0] == names[i];
    assert SubLines(level, names[i..], opts, Depth(opts)) == lines + tail;
    assert done + (lines + tail) == done + lines + tail;
  }

  method CopySubsection(name: string, level: nat, sb: StringBuilder, group: seq<KeyValue>)
    modifies sb
    ensures sb.text == old(sb.text) + Render(SectionLines(name, level, SortOpts(group)))
    decreases Depth(group), 2
  {
    var g := SortOpts(group);
    DepthSorted(group);
    var v := new KeyValue[|g|](j requires 0 <= j < |g| => g[j]);
    assert v[..] == g;
    CopySection(name, level, sb, v);
  }

  method CopySubsections(level: nat, sb: StringBuilder, names: seq<string>, sub: map<string, seq<KeyValue>>,
                         ghost opts: seq<KeyValue>)
    requires opts != []
    requires forall h :: h in names ==> h in sub && sub[h] == Group(opts, h)
    modifies sb
    ensures sb.text == old(sb.text) + Render(SubLines(level, names, opts, Depth(opts)))
    decreases Depth(opts), 0
  {
    hide SectionLines, Render, Group;
    ghost var done := [];
    assert Render(done) == "" by { RenderEmpty(); }
    assert names[0..] == names;
    for i := 0 to |names|
      invariant sb.text == old(sb.text) + Render(done)
      invariant SubLines(level, names, opts, Depth(opts)) == done + SubLines(level, names[i..], opts, Depth(opts))
    {
      DepthGroup(opts, names[i]);
      CopySubsection(names[i], level, sb, sub[names[i]]);
      ghost var lines := SectionLines(names[i], level, SortOpts(sub[names[i]]));
      SubLinesStep(level, names, i, opts, done);
      RenderAppend(done, lines);
      done := done + lines;
    }
    assert names[|names|..] == [];
    assert done + [] == done;
  }

  lemma RenderEmpty()
    ensures Render([]) == ""
  {
  }

  /** The options end up sorted: the caller's slice is the one that is sorted. */
  method CreateYAML(opts: array<KeyValue>) returns (text: string)
    modifies opts
    ensures opts[..] == SortOpts(old(opts[..]))
    ensures text == Render(SectionLines("", 0, old(opts[..])))
  {
    var sb := new StringBuilder();
    CopySection("", 0, sb, opts);
    text := sb.text;
  }

  lemma {:induction false} IndentIs(level: nat)
    ensures |Indent(level)| == 2 * level && forall c :: c in Indent(level) ==> c == ' '
  {
    if level > 0 { IndentIs(level - 1); }
  }

  /** A line is indented by two spaces for each level, and its value stands behind a colon and a space. */
  lemma LineTextIs(l: Line)
    ensures var s, n := LineText(l), 2 * l.level;
            && n <= |s| && (forall i :: 0 <= i < n ==> s[i] == ' ')
            && (l.value.None? ==> s[n..] == l.name + ":")
            && (l.value.Some? ==> s[n..] == l.name + ": " + l.value.value)
  {
    hide Indent;
    IndentIs(l.level);
    forall i | 0 <= i < 2 * l.level ensures LineText(l)[i] == ' ' {
      assert LineText(l)[i] == Indent(l.level)[i] && Indent(l.level)[i] in Indent(l.level);
    }
    assert LineText(l)[2 * l.level..] == l.name + match l.value case None => ":" case Some(v) => ": " + v;
  }
}
