/**
 From the characters of the YAML text back to the tree, and the two files that 'config add'
 writes from the same slice of options (base/commands/config/config_add.go).
 */
module ConfigText {
  import opened ConfigReading
  import opened ConfigTree
  import opened ConfigYaml
  import opened Sorting
  import opened Text
  import opened Wrappers

  // ---------- lines ----------

  function Spaces(s: string): (n: nat)
    ensures n <= |s|
  {
    if s != "" && s[0] == ' ' then 1 + Spaces(s[1..]) else 0
  }

  function ParseLine(s: string): Option<Line> {
    var n := Spaces(s);
    if n % 2 != 0 then None else ParseBody(n / 2, s[n..])
  }

  function ParseBody(level: nat, s: string): Option<Line> {
    var i := IndexOf(s, ':');
    if i < 0 then None
    else
      var after := s[i + 1..];
      if after == "" then Some(Line(level, s[..i], None))
      else if after[0] == ' ' then Some(Line(level, s[..i], Some(after[1..])))
      else None
  }

  function ParseText(text: string): Option<seq<Line>>
    decreases |text|
  {
    if text == "" then Some([])
    else
      var i := IndexOf(text, '\n');
      if i < 0 then None
      else
        var line :- ParseLine(text[..i]);
        var lines :- ParseText(text[i + 1..]);
        Some([line] + lines)
  }

  /** A name that stands as a plain key: no colon, no line break, no leading space. */
  predicate PlainName(s: string) {
    ':' !in s && '\n' !in s && !HasPrefix(s, " ")
  }

  predicate PlainLine(l: Line) {
    PlainName(l.name) && (l.value.Some? ==> '\n' !in l.value.value)
  }

  lemma {:induction false} SpacesOfIndent(level: nat, s: string)
    requires !HasPrefix(s, " ")
    ensures Spaces(Indent(level) + s) == 2 * level && (Indent(level) + s)[2 * level..] == s
    ensures '\n' !in Indent(level)
  {
    if level == 0 {
      assert Indent(level) + s == s;
    } else {
      SpacesOfIndent(level - 1, s);
      var tail := Indent(level - 1) + s;
      IndentIs(level);
      assert Indent(level) + s == "  " + tail;
      hide Spaces, Indent;
      TwoMoreSpaces(tail);
      assert ("  " + tail)[2 * level..] == tail[2 * (level - 1)..];
    }
  }

  lemma IndentIs(level: nat)
    requires level > 0
    ensures Indent(level) == "  " + Indent(level - 1)
  {
  }

  lemma TwoMoreSpaces(tail: string)
    ensures Spaces("  " + tail) == 2 + Spaces(tail)
  {
    var text := "  " + tail;
    assert text[1..] == " " + tail && text[1..][1..] == tail;
  }

  function BodyText(l: Line): string {
    l.name + [':'] + match l.value case None => "" case Some(v) => " " + v
  }

  lemma BodyRoundTrip(l: Line)
    requires PlainLine(l)
    ensures ParseBody(l.level, BodyText(l)) == Some(l)
    ensures '\n' !in BodyText(l) && !HasPrefix(BodyText(l), " ")
  {
    var after := match l.value case None => "" case Some(v) => " " + v;
    IndexOfAt(l.name, ':', after);
    var body := BodyText(l);
    assert body[..|l.name|] == l.name && body[|l.name| + 1..] == after;
    if l.value.Some? {
      assert after[1..] == l.value.value;
    }
  }

  lemma LineTextIs(l: Line)
    ensures LineText(l) == Indent(l.level) + BodyText(l)
  {
  }

  lemma LineRoundTrip(l: Line)
    requires PlainLine(l)
    ensures ParseLine(LineText(l)) == Some(l) && '\n' !in LineText(l)
  {
    hide LineText, Indent, Spaces, ParseBody, BodyText, PlainLine, HasPrefix;
    LineTextIs(l);
    BodyRoundTrip(l);
    SpacesOfIndent(l.level, BodyText(l));
  }

  lemma ParseFirst(line: string, rest: string)
    requires '\n' !in line
    ensures ParseLine(line).Some? && ParseText(rest).Some?
        ==> ParseText(line + ['\n'] + rest) == Some([ParseLine(line).value] + ParseText(rest).value)
  {
    hide ParseLine;
    var text := line + ['\n'] + rest;
    IndexOfAt(line, '\n', rest);
    assert text[..|line|] == line && text[|line| + 1..] == rest;
  }

  lemma {:induction false} TextRoundTrip(lines: seq<Line>)
    requires forall i :: 0 <= i < |lines| ==> PlainLine(lines[i])
    ensures ParseText(Render(lines)) == Some(lines)
  {
    RenderEmpty();
    if lines != [] {
      hide LineText, ParseLine, ParseText, Render, PlainLine;
      var l, rest := lines[0], lines[1..];
      TextRoundTrip(rest);
      LineRoundTrip(l);
      RenderAppend([l], rest);
      RenderOne(l);
      assert lines == [l] + rest;
      assert Render(lines) == LineText(l) + ['\n'] + Render(rest);
      ParseFirst(LineText(l), Render(rest));
    }
  }

  // ---------- options that need no quoting ----------

  ghost predicate Plain(opts: seq<KeyValue>) {
    forall i :: 0 <= i < |opts| ==> PlainOption(opts[i])
  }

  ghost predicate PlainOption(o: KeyValue) {
    '\n' !in o.value && forall s :: s in PathOf(o.key) ==> PlainName(s)
  }

  lemma PlainSorted(opts: seq<KeyValue>)
    requires Plain(opts)
    ensures Plain(SortOpts(opts))
  {
    SameElements(Key, opts);
    hide PlainOption;
    forall i | 0 <= i < |SortOpts(opts)| ensures PlainOption(SortOpts(opts)[i]) {
      assert SortOpts(opts)[i] in opts;
    }
  }

  lemma PlainGroup(opts: seq<KeyValue>, h: string)
    requires Plain(opts)
    ensures Plain(Group(opts, h)) && (Group(opts, h) != [] ==> PlainName(h))
  {
    forall i | 0 <= i < |Group(opts, h)| ensures PlainOption(Group(opts, h)[i]) && PlainName(h) {
      var o := Group(opts, h)[i];
      GroupElement(opts, h, o);
      var k :| 0 <= k < |opts| && opts[k] == KeyValue(h + "." + o.key, o.value);
      assert PlainOption(opts[k]);
      WholePath(h, o.key);
      assert h == ([h] + PathOf(o.key))[0];
      assert forall s :: s in PathOf(o.key) ==> s in [h] + PathOf(o.key);
    }
    if Group(opts, h) != [] {
      assert PlainOption(Group(opts, h)[0]);
    }
  }

  ghost predicate PlainLines(lines: seq<Line>) {
    forall i :: 0 <= i < |lines| ==> PlainLine(lines[i])
  }

  lemma PlainLeaves(level: nat, opts: seq<KeyValue>)
    requires Plain(opts)
    ensures PlainLines(LeafLines(level, Leaves(opts)))
  {
    var leaves := Leaves(opts);
    LeavesElements(opts);
    forall i | 0 <= i < |leaves| ensures PlainLine(LeafLines(level, leaves)[i]) {
      var o := leaves[i];
      assert o in leaves;
      var k :| 0 <= k < |opts| && opts[k] == o;
      assert PlainOption(opts[k]) && PathOf(o.key) == [o.key];
      assert o.key in PathOf(o.key);
    }
  }

  lemma {:induction false} PlainSection(name: string, level: nat, opts: seq<KeyValue>)
    requires Plain(opts) && PlainName(name)
    ensures PlainLines(SectionLines(name, level, opts))
    decreases Depth(opts), 2, 0
  {
    if opts != [] {
      hide BodyLines, Plain;
      PlainBody(level, opts);
      PlainBody(level + 1, opts);
    }
  }

  lemma {:induction false} PlainBody(level: nat, opts: seq<KeyValue>)
    requires opts != [] && Plain(opts)
    ensures PlainLines(BodyLines(level, opts))
    decreases Depth(opts), 1, 0
  {
    var s := SortOpts(opts);
    SortedOptions(opts);
    DepthSorted(opts);
    PlainSorted(opts);
    hide Plain, SubLines, LeafLines, SortOpts;
    PlainLeaves(level, s);
    PlainSubs(level, SortedHeads(s), s);
  }

  lemma {:induction false} PlainSubs(level: nat, hs: seq<string>, s: seq<KeyValue>)
    requires s != [] && Plain(s)
    ensures PlainLines(SubLines(level, hs, s, Depth(s)))
    decreases Depth(s), 0, |hs|
  {
    if hs != [] {
      var g := Group(s, hs[0]);
      DepthGroup(s, hs[0]);
      DepthSorted(g);
      PlainGroup(s, hs[0]);
      PlainSorted(g);
      SortedOptions(g);
      hide Plain, SectionLines, SortOpts, Group;
      PlainSubs(level, hs[1..], s);
      if g == [] {
        EmptySection(hs[0], level);
      } else {
        PlainSection(hs[0], level, SortOpts(g));
      }
    }
  }

  lemma EmptySection(name: string, level: nat)
    ensures SectionLines(name, level, []) == []
  {
  }

  // ---------- the results ----------

  function ReadText(text: string): Option<Tree> {
    var lines :- ParseText(text);
    Read(lines, [], EMPTY)
  }

  /** The text of plain and proper options reads back as exactly the tree of their section map. */
  lemma TextHoldsTheTree(kvs: seq<KeyValue>)
    requires Proper(kvs) && Plain(kvs)
    ensures Built(kvs).Some? && ReadText(Render(SectionLines("", 0, kvs))) == Built(kvs)
  {
    LinesHoldTheTree(kvs);
    PlainSection("", 0, kvs);
    TextRoundTrip(SectionLines("", 0, kvs));
  }

  /** Some option that sets a leaf is a section of another one, whichever comes first. */
  ghost predicate Conflict(kvs: seq<KeyValue>) {
    exists i, j :: 0 <= i < |kvs| && 0 <= j < |kvs| && Sets(kvs[i]) && Above(PathOf(kvs[i].key), PathOf(kvs[j].key))
  }

  lemma {:induction false} PrefixLess(a: string, b: string)
    requires a < b
    ensures Less(a, b)
  {
    if a != "" {
      assert a[0] == b[0] && a[1..] < b[1..];
      PrefixLess(a[1..], b[1..]);
    }
  }

  lemma {:induction false} JoinPrefix(p: Path, q: Path)
    requires p != [] && p < q
    ensures Join(p, '.') < Join(q, '.')
  {
    assert p == [p[0]] + p[1..] && q == [p[0]] + q[1..];
    JoinCons(p[0], q[1..], '.');
    if |p| > 1 {
      JoinPrefix(p[1..], q[1..]);
      JoinCons(p[0], p[1..], '.');
    }
  }

  /** A key sorts before every key below it. */
  lemma AboveSortsFirst(a: string, b: string)
    requires Above(PathOf(a), PathOf(b))
    ensures Less(a, b)
  {
    JoinPrefix(PathOf(a), PathOf(b));
    JoinSplit(a, '.');
    JoinSplit(b, '.');
    PrefixLess(a, b);
  }

  /** After sorting, every conflict is a clash: the walk meets the leaf first. */
  lemma SortedClashes(kvs: seq<KeyValue>)
    ensures HasClash(SortOpts(kvs)) <==> Conflict(kvs)
  {
    var s := SortOpts(kvs);
    SortBySorts(Key, kvs);
    SameElements(Key, kvs);
    hide PathOf, SortBy, Above;
    if Conflict(kvs) {
      var i, j :| 0 <= i < |kvs| && 0 <= j < |kvs| && Sets(kvs[i]) && Above(PathOf(kvs[i].key), PathOf(kvs[j].key));
      assert kvs[i] in s && kvs[j] in s;
      var i' :| 0 <= i' < |s| && s[i'] == kvs[i];
      var j' :| 0 <= j' < |s| && s[j'] == kvs[j];
      AboveSortsFirst(kvs[i].key, kvs[j].key);
      LessIrreflexive(kvs[i].key);
      assert j' < i' ==> !Less(Key(s[i']), Key(s[j']));
      assert Clash(s, i', j');
    }
    if HasClash(s) {
      var i, j :| Clash(s, i, j);
      assert s[i] in kvs && s[j] in kvs;
      var i' :| 0 <= i' < |kvs| && kvs[i'] == s[i];
      var j' :| 0 <= j' < |kvs| && kvs[j'] == s[j];
    }
  }

  lemma ProperHasNoConflict(kvs: seq<KeyValue>)
    requires Proper(kvs)
    ensures !Conflict(kvs)
  {
  }

  /**
   What 'config add' does with its options: the text first, then the section map for the JSON
   file. The first step sorts the slice that the second one reads, so the command fails on
   the type assertion exactly when there is a conflict, in whatever order the options were
   given; and for plain and proper options the two files hold the same tree.
   */
  method AddConfig(opts: array<KeyValue>) returns (text: string, m: Option<Section>, ghost nodes: map<Path, Section>)
    modifies opts
    ensures m.None? <==> Conflict(old(opts[..]))
    ensures text == Render(SectionLines("", 0, old(opts[..])))
    ensures m.Some? ==>
              && Built(SortOpts(old(opts[..]))).Some?
              && Represents(nodes, Built(SortOpts(old(opts[..]))).value)
              && [] in nodes && nodes[[]] == m.value
    ensures Proper(old(opts[..])) && Plain(old(opts[..])) ==>
              && m.Some?
              && ReadText(text) == Built(SortOpts(old(opts[..])))
              && Built(SortOpts(old(opts[..]))) == Built(old(opts[..]))
  {
    ghost var given := opts[..];
    text := CreateYAML(opts);
    m, nodes := ConvertKeyValuesToMap(opts[..]);
    SortedClashes(given);
    FailsExactly(SortOpts(given));
    if Proper(given) && Plain(given) {
      ProperHasNoConflict(given);
      SameTree(given);
      TextHoldsTheTree(given);
    }
  }

  lemma SameTree(kvs: seq<KeyValue>)
    requires Proper(kvs)
    ensures Built(SortOpts(kvs)) == Built(kvs)
  {
    ProperSorted(kvs);
    BuiltAdds(kvs);
    BuiltAdds(SortOpts(kvs));
    SortedOptions(kvs);
    AddsSame(EMPTY, [], SortOpts(kvs), kvs, Built(SortOpts(kvs)).value);
    AddsDetermines(EMPTY, [], kvs, Built(SortOpts(kvs)).value, Built(kvs).value);
  }
}
