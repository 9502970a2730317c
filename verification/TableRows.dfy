/**
 Laying out rows as a table: MakeTableFromRows of internal/output/utils.go. Every row may have
 its own columns, and complex values are broken out into columns of their own; the table has
 one header for all of them.

 Breaking out a value and turning a value to text are libraries; they come in as functions.
 */
module TableRows {
  import opened OrderedSets
  import opened Text
  import opened Wrappers

  datatype Type =
    | Byte | Int8 | UInt16 | Int16 | Int32 | Int64 | Float32 | Float64 | BigInteger | Decimal
    | Bool | UUID | String | JSON | Portable | Compact | Nil | Skip | Other(id: int)

  /** The values that matter here are strings; NoValue is nil. */
  datatype Value = NoValue | Str(s: string) | Object(id: int)

  datatype Column = Column(name: string, typ: Type, value: Value)

  type Row = seq<Column>

  /** RowExtensions (None is an error) and Text of a column. */
  datatype Lib = Lib(extend: Column -> Option<seq<Column>>, text: Column -> string)

  const NAME_KEY := "__key"
  const STD_NAMES: seq<string> := ["__key", "__key_type", "this", "this_type"]
  const THIS_PREFIX := "this."
  const NOT_DECODED := Str("?")

  // ---------- what a column contributes to its row ----------

  datatype Entry = Entry(name: string, column: Column)

  function SubName(col: Column, sub: Column): string {
    if sub.name == "" then col.name else col.name + "." + sub.name
  }

  function SubEntries(col: Column, subs: seq<Column>): seq<Entry> {
    if subs == [] then []
    else
      var sub := subs[|subs| - 1];
      SubEntries(col, subs[..|subs| - 1]) + [Entry(SubName(col, sub), sub.(name := SubName(col, sub)))]
  }

  predicate BreaksOut(col: Column) {
    col.name != NAME_KEY && col.typ in {JSON, Portable, Compact} && col.value != NOT_DECODED
  }

  function ColumnEntries(lib: Lib, col: Column): seq<Entry> {
    if !BreaksOut(col) then [Entry(col.name, col)]
    else
      match lib.extend(col)
      case None => [Entry(col.name, Column("", String, NOT_DECODED))]
      case Some(subs) => SubEntries(col, subs) + [Entry(col.name, Column("", Skip, NoValue))]
  }

  function RowEntries(lib: Lib, row: Row): seq<Entry> {
    if row == [] then [] else RowEntries(lib, row[..|row| - 1]) + ColumnEntries(lib, row[|row| - 1])
  }

  function AllEntries(lib: Lib, rows: seq<Row>): seq<Entry> {
    if rows == [] then [] else AllEntries(lib, rows[..|rows| - 1]) + RowEntries(lib, rows[|rows| - 1])
  }

  function Names(es: seq<Entry>): seq<string> {
    seq(|es|, i requires 0 <= i < |es| => es[i].name)
  }

  /** The column last written under the name. */
  function LastOf(es: seq<Entry>, name: string): Option<Column> {
    if es == [] then None
    else if es[|es| - 1].name == name then Some(es[|es| - 1].column)
    else LastOf(es[..|es| - 1], name)
  }

  // ---------- the header and the cells ----------

  function StdPresent(std: seq<string>, names: seq<string>): seq<string> {
    if std == [] then []
    else StdPresent(std[..|std| - 1], names) + if std[|std| - 1] in names then [std[|std| - 1]] else []
  }

  function Header(es: seq<Entry>): seq<string> {
    var names := AddedAll([], Names(es));
    StdPresent(STD_NAMES, names) + WithoutAll(names, STD_NAMES)
  }

  function Cell(es: seq<Entry>, name: string): Column {
    LastOf(es, name).GetOr(Column(name, Nil, NoValue))
  }

  function Cells(es: seq<Entry>, header: seq<string>): Row {
    seq(|header|, i requires 0 <= i < |header| => Cell(es, header[i]))
  }

  function AlignmentForType(typ: Type): int {
    if typ in {Byte, Int8, UInt16, Int16, Int32, Int64, Float32, Float64, BigInteger, Decimal} then -1 else 1
  }

  function MinPositive(a: int, b: int): (m: int)
    ensures m >= 0 && (m > 0 <==> a > 0 || b > 0)
    ensures m > 0 ==> m == a || m == b
    ensures (a > 0 ==> m <= a) && (b > 0 ==> m <= b)
  {
    if a <= 0 then (if b > 0 then b else 0)
    else if b <= 0 then a
    else if a < b then a else b
  }

  function TrimThis(h: string): string {
    if HasPrefix(h, THIS_PREFIX) then h[5..] else h
  }

  datatype Head = Head(header: string, align: int)

  /** The width of a column is the longest of its header and its texts. */
  ghost predicate IsWidth(lib: Lib, h: string, grid: seq<Row>, i: nat, w: int)
    requires forall k :: 0 <= k < |grid| ==> i < |grid[k]|
  {
    && w >= |h|
    && (forall k :: 0 <= k < |grid| ==> w >= |lib.text(grid[k][i])|)
    && (w == |h| || exists k :: 0 <= k < |grid| && w == |lib.text(grid[k][i])|)
  }

  /** The first row decides the alignment; without rows it stays 0. */
  function FirstAlignment(grid: seq<Row>, i: nat): int
    requires forall k :: 0 <= k < |grid| ==> i < |grid[k]|
  {
    if grid == [] then 0 else AlignmentForType(grid[0][i].typ)
  }

  ghost predicate IsHead(lib: Lib, h: string, grid: seq<Row>, i: nat, maxWidth: int, head: Head)
    requires forall k :: 0 <= k < |grid| ==> i < |grid[k]|
  {
    && head.header == TrimThis(h)
    && exists w :: IsWidth(lib, h, grid, i, w) && head.align == FirstAlignment(grid, i) * MinPositive(maxWidth, w)
  }

  lemma NamesAppend(es: seq<Entry>, e: Entry)
    ensures AddedAll([], Names(es + [e])) == Added(AddedAll([], Names(es)), e.name)
  {
    assert Names(es + [e]) == Names(es) + [e.name];
    AddedAllAppend([], Names(es), e.name);
  }

  /** What newRow holds after the entries. */
  ghost predicate Holds(newRow: map<string, Column>, es: seq<Entry>) {
    forall name: string :: LastOf(es, name) == if name in newRow then Some(newRow[name]) else None
  }

  lemma HoldsNothing()
    ensures Holds(map[], [])
  {
  }

  lemma RowEntriesAppend(lib: Lib, row: Row, k: nat)
    requires k < |row|
    ensures RowEntries(lib, row[..k + 1]) == RowEntries(lib, row[..k]) + ColumnEntries(lib, row[k])
  {
    assert row[..k + 1][..k] == row[..k];
  }

  lemma HoldsAppend(newRow: map<string, Column>, es: seq<Entry>, e: Entry)
    requires Holds(newRow, es)
    ensures Holds(newRow[e.name := e.column], es + [e])
  {
    assert (es + [e])[..|es|] == es;
  }

  /** hd.Add(name) together with newRow[name] = column. */
  method Write(hd: OrderedSet<string>, newRow: map<string, Column>, e: Entry, ghost all: seq<Entry>,
               ghost es: seq<Entry>)
    returns (r: map<string, Column>)
    requires hd.Valid() && hd.Contents() == AddedAll([], Names(all)) && Holds(newRow, es)
    modifies hd
    ensures hd.Valid() && hd.Contents() == AddedAll([], Names(all + [e])) && Holds(r, es + [e])
  {
    NamesAppend(all, e);
    HoldsAppend(newRow, es, e);
    var _ := hd.Add(e.name);
    r := newRow[e.name := e.column];
  }

  /** The entries of one column. */
  method WriteColumn(lib: Lib, hd: OrderedSet<string>, newRow: map<string, Column>, col: Column,
                     ghost all: seq<Entry>, ghost es: seq<Entry>)
    returns (r: map<string, Column>)
    requires hd.Valid() && hd.Contents() == AddedAll([], Names(all)) && Holds(newRow, es)
    modifies hd
    ensures hd.Valid() && hd.Contents() == AddedAll([], Names(all + ColumnEntries(lib, col)))
    ensures Holds(r, es + ColumnEntries(lib, col))
  {
    hide Names, AddedAll, Holds, LastOf;
    r := newRow;
    if col.name == NAME_KEY {
      r := Write(hd, r, Entry(col.name, col), all, es);
      return;
    }
    if col.typ in {JSON, Portable, Compact} && col.value != NOT_DECODED {
      var nc := lib.extend(col);
      if nc.None? {
        r := Write(hd, r, Entry(col.name, Column("", String, NOT_DECODED)), all, es);
        return;
      }
      assert all + [] == all && es + [] == es;
      for k := 0 to |nc.value|
        invariant hd.Valid() && hd.Contents() == AddedAll([], Names(all + SubEntries(col, nc.value[..k])))
        invariant Holds(r, es + SubEntries(col, nc.value[..k]))
      {
        var sub := nc.value[k];
        var name := SubName(col, sub);
        ghost var done := SubEntries(col, nc.value[..k]);
        r := Write(hd, r, Entry(name, sub.(name := name)), all + done, es + done);
        assert nc.value[..k + 1][..k] == nc.value[..k];
        ghost var e := Entry(name, sub.(name := name));
        assert all + (done + [e]) == all + done + [e] && es + (done + [e]) == es + done + [e];
      }
      assert nc.value[..|nc.value|] == nc.value;
      ghost var done := SubEntries(col, nc.value);
      ghost var e := Entry(col.name, Column("", Skip, NoValue));
      assert all + (done + [e]) == all + done + [e] && es + (done + [e]) == es + done + [e];
      r := Write(hd, r, Entry(col.name, Column("", Skip, NoValue)), all + done, es + done);
      return;
    }
    r := Write(hd, r, Entry(col.name, col), all, es);
  }

  /** One row of the input becomes a map; its names go to the header. */
  method WriteRow(lib: Lib, hd: OrderedSet<string>, row: Row, ghost all: seq<Entry>)
      returns (newRow: map<string, Column>)
    requires hd.Valid() && hd.Contents() == AddedAll([], Names(all))
    modifies hd
    ensures hd.Valid() && hd.Contents() == AddedAll([], Names(all + RowEntries(lib, row)))
    ensures Holds(newRow, RowEntries(lib, row))
  {
    hide Names, AddedAll, Holds, ColumnEntries;
    newRow := map[];
    HoldsNothing();
    assert all + [] == all;
    for k := 0 to |row|
      invariant hd.Valid() && hd.Contents() == AddedAll([], Names(all + RowEntries(lib, row[..k])))
      invariant Holds(newRow, RowEntries(lib, row[..k]))
    {
      ghost var done, now := RowEntries(lib, row[..k]), ColumnEntries(lib, row[k]);
      newRow := WriteColumn(lib, hd, newRow, row[k], all + done, done);
      RowEntriesAppend(lib, row, k);
      assert all + (done + now) == all + done + now;
    }
    assert row[..|row|] == row;
  }

  /** The standard names come first; the others follow in the order in which they were added. */
  method TakeHeader(hd: OrderedSet<string>, ghost es: seq<Entry>) returns (header: seq<string>)
    requires hd.Valid() && hd.Contents() == AddedAll([], Names(es))
    modifies hd
    ensures header == Header(es)
  {
    ghost var names := hd.Contents();
    var stdHeader := [];
    for k := 0 to |STD_NAMES|
      invariant hd.Valid() && hd.Contents() == names
      invariant stdHeader == StdPresent(STD_NAMES[..k], names)
    {
      assert STD_NAMES[..k + 1][..k] == STD_NAMES[..k];
      var present := hd.Contains(STD_NAMES[k]);
      if present {
        stdHeader := stdHeader + [STD_NAMES[k]];
      }
    }
    assert STD_NAMES[..|STD_NAMES|] == STD_NAMES;
    for k := 0 to |STD_NAMES|
      invariant hd.Valid()
      invariant WithoutAll(hd.Contents(), STD_NAMES[k..]) == WithoutAll(names, STD_NAMES)
    {
      assert STD_NAMES[k..][1..] == STD_NAMES[k + 1..];
      var _ := hd.Delete(STD_NAMES[k]);
    }
    header := hd.Items();
    header := stdHeader + header;
  }

  lemma AllEntriesAppend(lib: Lib, rows: seq<Row>, k: nat)
    requires k < |rows|
    ensures AllEntries(lib, rows[..k + 1]) == AllEntries(lib, rows[..k]) + RowEntries(lib, rows[k])
  {
    assert rows[..k + 1][..k] == rows[..k];
  }

  /** The first loop: the row maps and the set of names. */
  method BreakOut(lib: Lib, rows: array<Row>, hd: OrderedSet<string>) returns (drows: seq<map<string, Column>>)
    requires hd.Valid() && hd.Contents() == []
    modifies hd
    ensures hd.Valid() && hd.Contents() == AddedAll([], Names(AllEntries(lib, rows[..])))
    ensures |drows| == rows.Length && forall k :: 0 <= k < rows.Length ==> Holds(drows[k], RowEntries(lib, rows[k]))
  {
    hide Names, AddedAll, Holds, RowEntries;
    drows := [];
    NamesOfNone();
    for k := 0 to rows.Length
      invariant hd.Valid() && hd.Contents() == AddedAll([], Names(AllEntries(lib, rows[..][..k])))
      invariant |drows| == k && forall j :: 0 <= j < k ==> Holds(drows[j], RowEntries(lib, rows[j]))
    {
      AllEntriesAppend(lib, rows[..], k);
      var newRow := WriteRow(lib, hd, rows[k], AllEntries(lib, rows[..][..k]));
      drows := drows + [newRow];
    }
    assert rows[..][..rows.Length] == rows[..];
  }

  lemma NamesOfNone()
    ensures AddedAll([], Names([])) == []
  {
  }

  /** One row of the output, widening the columns; the first row also sets the alignment. */
  method FillRow(lib: Lib, header: seq<string>, drow: map<string, Column>, ghost es: seq<Entry>, width: array<int>,
                 align: array<int>, alignSet: bool)
    returns (row: Row)
    requires Holds(drow, es) && width.Length == align.Length == |header| && width != align
    modifies width, align
    ensures row == Cells(es, header)
    ensures forall i :: 0 <= i < |header| ==>
      && width[i] == Max(old(width[i]), |lib.text(row[i])|)
      && align[i] == if alignSet then old(align[i]) else AlignmentForType(row[i].typ)
  {
    row := [];
    for i := 0 to |header|
      invariant |row| == i && forall j :: 0 <= j < i ==> row[j] == Cell(es, header[j])
      invariant forall j :: 0 <= j < i ==> width[j] == Max(old(width[j]), |lib.text(row[j])|)
      invariant forall j :: 0 <= j < i ==> align[j] == if alignSet then old(align[j]) else AlignmentForType(row[j].typ)
      invariant forall j :: i <= j < |header| ==> width[j] == old(width[j]) && align[j] == old(align[j])
    {
      var h := header[i];
      assert LastOf(es, h) == if h in drow then Some(drow[h]) else None;
      var v := if h in drow then drow[h] else Column(h, Nil, NoValue);
      row := row + [v];
      var sv := lib.text(v);
      if |sv| > width[i] {
        width[i] := |sv|;
      }
      if !alignSet {
        align[i] := AlignmentForType(v.typ);
      }
    }
  }

  function Abs(a: int): nat {
    if a < 0 then -a else a
  }

  function Max(a: int, b: int): int {
    if a > b then a else b
  }

  lemma WidthGrows(lib: Lib, h: string, grid: seq<Row>, i: nat, w: int, row: Row)
    requires (forall k :: 0 <= k < |grid| ==> i < |grid[k]|) && i < |row|
    requires IsWidth(lib, h, grid, i, w)
    ensures IsWidth(lib, h, grid + [row], i, Max(w, |lib.text(row[i])|))
  {
    var all := grid + [row];
    assert all[|grid|] == row;
    if w > |lib.text(row[i])| && w != |h| {
      var k :| 0 <= k < |grid| && w == |lib.text(grid[k][i])|;
      assert all[k] == grid[k];
    }
  }

  lemma FirstDecides(grid: seq<Row>, row: Row, i: nat)
    requires (forall k :: 0 <= k < |grid| ==> i < |grid[k]|) && i < |row|
    ensures forall k :: 0 <= k < |grid + [row]| ==> i < |(grid + [row])[k]|
    ensures FirstAlignment(grid + [row], i)
         == if grid == [] then AlignmentForType(row[i].typ) else FirstAlignment(grid, i)
  {
  }

  lemma HeaderWidth(lib: Lib, h: string, i: nat)
    ensures IsWidth(lib, h, [], i, |h|) && FirstAlignment([], i) == 0
  {
  }

  /** The widths and alignments that these rows ask for. */
  ghost predicate Measured(lib: Lib, header: seq<string>, grid: seq<Row>, width: seq<int>, align: seq<int>) {
    && |width| == |align| == |header|
    && (forall k :: 0 <= k < |grid| ==> |grid[k]| == |header|)
    && (forall i :: 0 <= i < |header| ==> IsWidth(lib, header[i], grid, i, width[i]))
    && (forall i :: 0 <= i < |header| ==> align[i] == FirstAlignment(grid, i))
  }

  lemma NothingMeasured(lib: Lib, header: seq<string>, width: seq<int>, align: seq<int>)
    requires |width| == |align| == |header|
    requires forall i :: 0 <= i < |header| ==> width[i] == |header[i]| && align[i] == 0
    ensures Measured(lib, header, [], width, align)
  {
    hide IsWidth, FirstAlignment;
    forall i | 0 <= i < |header| ensures IsWidth(lib, header[i], [], i, width[i]) && align[i] == FirstAlignment([], i) {
      HeaderWidth(lib, header[i], i);
    }
  }

  lemma MeasuredNext(lib: Lib, header: seq<string>, grid: seq<Row>, width: seq<int>, align: seq<int>, row: Row,
                     width': seq<int>, align': seq<int>)
    requires Measured(lib, header, grid, width, align) && |row| == |width'| == |align'| == |header|
    requires forall i :: 0 <= i < |header| ==> width'[i] == Max(width[i], |lib.text(row[i])|)
    requires forall i :: 0 <= i < |header| ==>
               align'[i] == if grid != [] then align[i] else AlignmentForType(row[i].typ)
    ensures Measured(lib, header, grid + [row], width', align')
  {
    hide IsWidth, FirstAlignment, Max, AlignmentForType;
    forall i | 0 <= i < |header|
      ensures IsWidth(lib, header[i], grid + [row], i, width'[i]) && align'[i] == FirstAlignment(grid + [row], i)
    {
      WidthGrows(lib, header[i], grid, i, width[i], row);
      FirstDecides(grid, row, i);
    }
  }

  lemma MeasuredIs(lib: Lib, header: seq<string>, grid: seq<Row>, width: seq<int>, align: seq<int>)
    requires Measured(lib, header, grid, width, align)
    ensures |width| == |align| == |header| && forall k :: 0 <= k < |grid| ==> |grid[k]| == |header|
    ensures forall i :: 0 <= i < |header| ==>
              IsWidth(lib, header[i], grid, i, width[i]) && align[i] == FirstAlignment(grid, i)
  {
    hide IsWidth, FirstAlignment;
  }

  ghost predicate Filled(lib: Lib, header: seq<string>, before: seq<Row>, grid: seq<Row>) {
    && |grid| <= |before|
    && forall k :: 0 <= k < |grid| ==> grid[k] == Cells(RowEntries(lib, before[k]), header)
  }

  lemma FilledNext(lib: Lib, header: seq<string>, before: seq<Row>, grid: seq<Row>, row: Row)
    requires Filled(lib, header, before, grid) && |grid| < |before|
    requires row == Cells(RowEntries(lib, before[|grid|]), header)
    ensures Filled(lib, header, before, grid + [row]) && |row| == |header|
  {
  }

  lemma NothingFilled(lib: Lib, header: seq<string>, before: seq<Row>)
    ensures Filled(lib, header, before, [])
  {
  }

  method MakeTableFromRows(lib: Lib, rows: array<Row>, maxWidth: int) returns (columns: seq<Head>)
    modifies rows
    ensures var header := Header(AllEntries(lib, old(rows[..])));
            && Filled(lib, header, old(rows[..]), rows[..])
            && |columns| == |header|
            && forall i :: 0 <= i < |header| ==> IsHead(lib, header[i], rows[..], i, maxWidth, columns[i])
  {
    hide Header, AllEntries, RowEntries, Holds, Names, LastOf, IsHead, Max, AlignmentForType, Filled, Cells, Measured;
    ghost var before := rows[..];
    var hd := new OrderedSet<string>();
    var drows := BreakOut(lib, rows, hd);
    var header := TakeHeader(hd, AllEntries(lib, before));
    var width := new int[|header|](i requires 0 <= i < |header| => |header[i]|);
    var align := new int[|header|](_ => 0);
    var alignSet := false;
    assert rows[..0] == [];
    NothingFilled(lib, header, before);
    NothingMeasured(lib, header, width[..], align[..]);
    for ri := 0 to rows.Length
      invariant rows[ri..] == before[ri..]
      invariant Filled(lib, header, before, rows[..ri])
      invariant alignSet == (ri > 0)
      invariant Measured(lib, header, rows[..ri], width[..], align[..])
    {
      ghost var grid, widths, aligns := rows[..ri], width[..], align[..];
      var row := FillRow(lib, header, drows[ri], RowEntries(lib, before[ri]), width, align, alignSet);
      alignSet := true;
      rows[ri] := row;
      assert rows[..ri + 1] == grid + [row];
      FilledNext(lib, header, before, grid, row);
      MeasuredNext(lib, header, grid, widths, aligns, row, width[..], align[..]);
    }
    assert rows[..rows.Length] == rows[..];
    MeasuredIs(lib, header, rows[..], width[..], align[..]);
    columns := MakeColumns(lib, header, rows[..], width, align, maxWidth);
  }

  /** The last loop: the prefix of the value is removed from the headers. */
  method MakeColumns(ghost lib: Lib, header: seq<string>, ghost grid: seq<Row>, width: array<int>, align: array<int>,
                     maxWidth: int)
    returns (columns: seq<Head>)
    requires width.Length == align.Length == |header| && forall k :: 0 <= k < |grid| ==> |grid[k]| == |header|
    requires forall i :: 0 <= i < |header| ==>
               IsWidth(lib, header[i], grid, i, width[i]) && align[i] == FirstAlignment(grid, i)
    ensures |columns| == |header| && forall i :: 0 <= i < |header| ==>
              IsHead(lib, header[i], grid, i, maxWidth, columns[i])
  {
    columns := [];
    for i := 0 to |header|
      invariant |columns| == i
      invariant forall j :: 0 <= j < i ==> IsHead(lib, header[j], grid, j, maxWidth, columns[j])
    {
      columns := columns + [Head(TrimThis(header[i]), align[i] * MinPositive(maxWidth, width[i]))];
    }
  }

  // ---------- what the table shows ----------

  /** The cell under a name is the column written last under it, or a nil column when there is none. */
  lemma {:induction false} CellIsLast(es: seq<Entry>, name: string)
    ensures name !in Names(es) ==> Cell(es, name) == Column(name, Nil, NoValue)
    ensures name in Names(es) ==>
              exists k :: && 0 <= k < |es| && es[k].name == name && es[k].column == Cell(es, name)
                          && forall j :: k < j < |es| ==> es[j].name != name
    ensures LastOf(es, name).Some? <==> name in Names(es)
  {
    if es != [] {
      var n := |es| - 1;
      CellIsLast(es[..n], name);
      assert Names(es) == Names(es[..n]) + [es[n].name];
      if es[n].name == name {
        assert es[n].column == Cell(es, name);
      } else if name in Names(es) {
        var k :| && 0 <= k < n && es[..n][k].name == name && es[..n][k].column == Cell(es[..n], name)
                 && forall j :: k < j < n ==> es[..n][j].name != name;
        forall j | k < j < |es| ensures es[j].name != name {
          if j < n { assert es[..n][j] == es[j]; }
        }
        assert es[k] == es[..n][k];
      }
    }
  }

  function Rank(names: seq<string>, h: string): int {
    if h in STD_NAMES then First(STD_NAMES, h) else |STD_NAMES| + First(names, h)
  }

  lemma {:induction false} StdPresentKeeps(std: seq<string>, names: seq<string>)
    requires NoDuplicates(std)
    ensures forall h :: h in StdPresent(std, names) <==> h in std && h in names
    ensures Ascending(h => First(std, h), StdPresent(std, names))
  {
    if std != [] {
      var n := |std| - 1;
      var t := StdPresent(std[..n], names);
      StdPresentKeeps(std[..n], names);
      assert std == std[..n] + [std[n]];
      forall i, j | 0 <= i < j < |StdPresent(std, names)|
        ensures First(std, StdPresent(std, names)[i]) < First(std, StdPresent(std, names)[j])
      {
        assert t[i] in t;
        FirstIn(std[..n], t[i], std[n]);
        if j < |t| {
          assert t[j] in t;
          FirstIn(std[..n], t[j], std[n]);
        } else {
          NotAgain(std);
          FirstIn(std[..n], std[n], std[n]);
        }
      }
    }
  }

  lemma NotAgain(std: seq<string>)
    requires NoDuplicates(std) && std != []
    ensures std[|std| - 1] !in std[..|std| - 1]
  {
    var x := std[|std| - 1];
    assert forall i :: 0 <= i < |std| - 1 ==> std[i] != x;
  }

  lemma RanksDiffer(names: seq<string>, s: seq<string>)
    requires Ascending(h => Rank(names, h), s)
    ensures NoDuplicates(s)
  {
  }

  /** The header has every name once, and this order is the only one it can have. */
  lemma HeaderOrder(es: seq<Entry>)
    ensures forall h :: h in Header(es) <==> h in Names(es)
    ensures Ascending(h => Rank(Names(es), h), Header(es)) && NoDuplicates(Header(es))
  {
    hide Names, AddedAll, StdPresent, WithoutAll, First, NoDuplicates;
    var names := AddedAll([], Names(es));
    StdIsPlain();
    NothingTwice();
    AddedAllKeeps([], Names(es));
    FirstComesFirst(Names(es));
    var std, rest := StdPresent(STD_NAMES, names), WithoutAll(names, STD_NAMES);
    StdPresentKeeps(STD_NAMES, names);
    WithoutAllKeeps(names, STD_NAMES);
    WithoutAllAscending(h => First(Names(es), h), names, STD_NAMES);
    RanksAscend(Names(es), std, rest);
    RanksDiffer(Names(es), Header(es));
  }

  lemma StdIsPlain()
    ensures NoDuplicates(STD_NAMES)
  {
  }

  lemma NothingTwice()
    ensures NoDuplicates<string>([])
  {
  }

  lemma RanksAscend(names: seq<string>, std: seq<string>, rest: seq<string>)
    requires (forall h :: h in std ==> h in STD_NAMES) && Ascending(h => First(STD_NAMES, h), std)
    requires (forall h :: h in rest ==> h !in STD_NAMES) && Ascending(h => First(names, h), rest)
    ensures Ascending(h => Rank(names, h), std + rest)
  {
    hide First;
    forall i, j | 0 <= i < j < |std + rest|
      ensures Rank(names, (std + rest)[i]) < Rank(names, (std + rest)[j])
    {
      if j < |std| {
        assert std[i] in std && std[j] in std;
      } else if i >= |std| {
        assert rest[i - |std|] in rest && rest[j - |std|] in rest;
      } else {
        assert std[i] in std && rest[j - |std|] in rest;
        FirstIn(STD_NAMES, std[i], "");
        assert First(names, rest[j - |std|]) >= 0;
      }
    }
  }

  lemma {:induction false} EntriesAreIncluded(lib: Lib, rows: seq<Row>, k: nat)
    requires k < |rows|
    ensures forall e :: e in RowEntries(lib, rows[k]) ==> e in AllEntries(lib, rows)
  {
    hide RowEntries;
    var n := |rows| - 1;
    if k < n { EntriesAreIncluded(lib, rows[..n], k); }
  }

  lemma {:induction false} EntriesComeFromRows(lib: Lib, rows: seq<Row>, e: Entry) returns (k: nat)
    requires e in AllEntries(lib, rows)
    ensures k < |rows| && e in RowEntries(lib, rows[k])
  {
    k := |rows| - 1;
    if e !in RowEntries(lib, rows[k]) { k := EntriesComeFromRows(lib, rows[..k], e); }
  }

  lemma NameOf(es: seq<Entry>, e: Entry)
    requires e in es
    ensures e.name in Names(es)
  {
    var k :| 0 <= k < |es| && es[k] == e;
    assert Names(es)[k] == e.name;
  }

  /** Nothing a row contributes is missing from the header, and nothing else is in it. */
  lemma HeaderIsComplete(lib: Lib, rows: seq<Row>, h: string)
    ensures h in Header(AllEntries(lib, rows))
       <==> exists k :: 0 <= k < |rows| && h in Names(RowEntries(lib, rows[k]))
  {
    var all := AllEntries(lib, rows);
    HeaderOrder(all);
    if h in Names(all) {
      var i :| 0 <= i < |all| && Names(all)[i] == h;
      var k := EntriesComeFromRows(lib, rows, all[i]);
      NameOf(RowEntries(lib, rows[k]), all[i]);
    }
    if k :| 0 <= k < |rows| && h in Names(RowEntries(lib, rows[k])) {
      var es := RowEntries(lib, rows[k]);
      var i :| 0 <= i < |es| && Names(es)[i] == h;
      assert es[i] in es;
      EntriesAreIncluded(lib, rows, k);
      NameOf(all, es[i]);
    }
  }

  lemma {:induction false} SubNamesDiffer(col: Column, subs: seq<Column>)
    requires col.name != NAME_KEY
    ensures forall e :: e in SubEntries(col, subs) ==> e.name != NAME_KEY
  {
    if subs != [] {
      var sub := subs[|subs| - 1];
      SubNamesDiffer(col, subs[..|subs| - 1]);
      var dotted := col.name + "." + sub.name;
      assert '.' !in NAME_KEY && dotted[|col.name|] == '.';
    }
  }

  function LastKey(row: Row): Option<Column> {
    if row == [] then None
    else if row[|row| - 1].name == NAME_KEY then Some(row[|row| - 1])
    else LastKey(row[..|row| - 1])
  }

  lemma {:induction false} LastOfAppend(a: seq<Entry>, b: seq<Entry>, name: string)
    ensures LastOf(a + b, name) == if LastOf(b, name).Some? then LastOf(b, name) else LastOf(a, name)
    decreases |b|
  {
    if b == [] {
      assert a + b == a;
    } else {
      assert (a + b)[..|a + b| - 1] == a + b[..|b| - 1];
      LastOfAppend(a, b[..|b| - 1], name);
    }
  }

  /** The key of a row is shown whole, whatever its type. */
  lemma {:induction false} KeyStaysWhole(lib: Lib, row: Row)
    ensures LastOf(RowEntries(lib, row), NAME_KEY) == LastKey(row)
  {
    if row != [] {
      var n := |row| - 1;
      var col, now := row[n], ColumnEntries(lib, row[n]);
      KeyStaysWhole(lib, row[..n]);
      LastOfAppend(RowEntries(lib, row[..n]), now, NAME_KEY);
      if col.name != NAME_KEY {
        if BreaksOut(col) && lib.extend(col).Some? { SubNamesDiffer(col, lib.extend(col).value); }
        CellIsLast(now, NAME_KEY);
        forall k | 0 <= k < |now| ensures Names(now)[k] != NAME_KEY { assert now[k] in now; }
      }
    }
  }

  predicate DistinctNames(subs: seq<Column>) {
    forall i, k :: 0 <= i < k < |subs| ==> subs[i].name != subs[k].name
  }

  lemma SubNamesAre(col: Column, a: Column, b: Column)
    ensures SubName(col, a) == col.name <==> a.name == ""
    ensures a.name != b.name ==> SubName(col, a) != SubName(col, b)
  {
    if a.name != "" && b.name != "" && SubName(col, a) == SubName(col, b) {
      assert a.name == SubName(col, a)[|col.name| + 1..] == SubName(col, b)[|col.name| + 1..] == b.name;
    }
  }

  lemma {:induction false} PartIsWritten(col: Column, subs: seq<Column>, i: nat)
    requires i < |subs| && DistinctNames(subs)
    ensures LastOf(SubEntries(col, subs), SubName(col, subs[i])) == Some(subs[i].(name := SubName(col, subs[i])))
  {
    var n := |subs| - 1;
    SubNamesAre(col, subs[n], subs[i]);
    if i < n { PartIsWritten(col, subs[..n], i); }
  }

  /**
   Where no later column of the row writes under its name, a part is shown exactly when it has a
   name. A part without one is meant to appear under the name of the whole, but that cell is
   overwritten by the skip mark: a JSON text holding just a number is never shown.
   */
  lemma PartIsShownExactly(lib: Lib, before: Row, col: Column, after: Row, i: nat, sub: Column)
    requires BreaksOut(col) && lib.extend(col).Some? && DistinctNames(lib.extend(col).value)
    requires i < |lib.extend(col).value| && sub == lib.extend(col).value[i] && sub.typ != Skip
    requires SubName(col, sub) !in Names(RowEntries(lib, after))
    ensures Cell(RowEntries(lib, before + [col] + after), SubName(col, sub)) == sub.(name := SubName(col, sub))
       <==> sub.name != ""
    ensures sub.name == "" ==>
              Cell(RowEntries(lib, before + [col] + after), col.name) == Column("", Skip, NoValue)
  {
    hide RowEntries, SubName, BreaksOut, Names;
    var subs := lib.extend(col).value;
    var name := SubName(col, subs[i]);
    RowsOf(lib, before, col, after);
    CellIsLast(RowEntries(lib, after), name);
    LastOfAppend(RowEntries(lib, before) + ColumnEntries(lib, col), RowEntries(lib, after), name);
    LastOfAppend(RowEntries(lib, before), ColumnEntries(lib, col), name);
    LastOfAppend(SubEntries(col, subs), [Entry(col.name, Column("", Skip, NoValue))], name);
    SubNamesAre(col, subs[i], subs[i]);
    PartIsWritten(col, subs, i);
    SkipMark(col, name);
  }

  /** Otherwise the cell is what the later column writes. */
  lemma LaterColumnWins(lib: Lib, before: Row, col: Column, after: Row, name: string)
    requires name in Names(RowEntries(lib, after))
    ensures Cell(RowEntries(lib, before + [col] + after), name) == Cell(RowEntries(lib, after), name)
  {
    hide RowEntries, Names;
    RowsOf(lib, before, col, after);
    CellIsLast(RowEntries(lib, after), name);
    LastOfAppend(RowEntries(lib, before) + ColumnEntries(lib, col), RowEntries(lib, after), name);
  }

  lemma SkipMark(col: Column, name: string)
    ensures var mark := Column("", Skip, NoValue);
            LastOf([Entry(col.name, mark)], name) == if name == col.name then Some(mark) else None
  {
    assert [Entry(col.name, Column("", Skip, NoValue))][..0] == [];
  }

  lemma {:induction false} RowsOf(lib: Lib, before: Row, col: Column, after: Row)
    ensures RowEntries(lib, before + [col] + after)
         == RowEntries(lib, before) + ColumnEntries(lib, col) + RowEntries(lib, after)
    decreases |after|
  {
    hide ColumnEntries, RowEntries;
    if after == [] {
      assert before + [col] + after == before + [col];
      RowEntriesNext(lib, before, col);
      NoRowEntries(lib);
    } else {
      var init, c := after[..|after| - 1], after[|after| - 1];
      RowsOf(lib, before, col, init);
      assert before + [col] + after == before + [col] + init + [c] && after == init + [c];
      RowEntriesNext(lib, before + [col] + init, c);
      RowEntriesNext(lib, init, c);
    }
  }

  lemma RowEntriesNext(lib: Lib, row: Row, c: Column)
    ensures RowEntries(lib, row + [c]) == RowEntries(lib, row) + ColumnEntries(lib, c)
  {
    assert (row + [c])[..|row|] == row;
  }

  lemma NoRowEntries(lib: Lib)
    ensures RowEntries(lib, []) == []
  {
  }

  lemma TrimThisIs(h: string)
    ensures h == if HasPrefix(h, THIS_PREFIX) then THIS_PREFIX + TrimThis(h) else TrimThis(h)
    ensures HasPrefix(THIS_PREFIX + h, THIS_PREFIX) && TrimThis(THIS_PREFIX + h) == h
  {
  }

  ghost predicate LooksAlike(header: seq<string>) {
    exists i, j :: 0 <= i < j < |header| && TrimThis(header[i]) == TrimThis(header[j])
  }

  /** Two columns look alike exactly when a name also occurs behind the prefix that is cut off. */
  lemma SameLook(header: seq<string>)
    requires NoDuplicates(header)
    ensures LooksAlike(header)
       <==> exists h :: h in header && !HasPrefix(h, THIS_PREFIX) && THIS_PREFIX + h in header
  {
    hide TrimThis, HasPrefix;
    if LooksAlike(header) {
      var i, j :| 0 <= i < j < |header| && TrimThis(header[i]) == TrimThis(header[j]);
      TrimThisIs(header[i]);
      TrimThisIs(header[j]);
      var h := if HasPrefix(header[i], THIS_PREFIX) then header[j] else header[i];
      assert h in header && !HasPrefix(h, THIS_PREFIX) && THIS_PREFIX + h in header;
    }
    if h :| h in header && !HasPrefix(h, THIS_PREFIX) && THIS_PREFIX + h in header {
      TrimThisIs(h);
      var i :| 0 <= i < |header| && header[i] == h;
      var j :| 0 <= j < |header| && header[j] == THIS_PREFIX + h;
      assert i != j;
      var lo, hi := if i < j then i else j, if i < j then j else i;
      assert TrimThis(header[lo]) == TrimThis(header[hi]);
    }
  }

  /** A column is as wide as the longest thing in it, unless the console is narrower. */
  lemma HeadFits(lib: Lib, h: string, grid: seq<Row>, i: nat, maxWidth: int, head: Head)
    requires forall k :: 0 <= k < |grid| ==> i < |grid[k]|
    requires grid != [] && IsHead(lib, h, grid, i, maxWidth, head)
    ensures maxWidth > 0 ==> Abs(head.align) <= maxWidth
    ensures Abs(head.align) < |h| ==> Abs(head.align) == maxWidth
    ensures forall k :: 0 <= k < |grid| && Abs(head.align) < |lib.text(grid[k][i])| ==> Abs(head.align) == maxWidth
    ensures head.align == 0
       <==> maxWidth <= 0 && h == "" && forall k :: 0 <= k < |grid| ==> lib.text(grid[k][i]) == ""
  {
    var w :| IsWidth(lib, h, grid, i, w) && head.align == FirstAlignment(grid, i) * MinPositive(maxWidth, w);
  }

  // ---------- which columns are broken out, and under which names ----------

  /** A part stands under the name of the whole, a dot and its own name. */
  lemma SubNameIs(col: Column, sub: Column)
    ensures sub.name != "" ==> SubName(col, sub) == col.name + "." + sub.name
    ensures sub.name == "" ==> SubName(col, sub) == col.name
  {
  }

  /** JSON, portable and compact values are broken out unless they are the key or were not decoded; nothing else is. */
  lemma BrokenOutExactly(lib: Lib, col: Column)
    ensures (col.typ.JSON? || col.typ.Portable? || col.typ.Compact?) && col.name != "__key" && col.value != Str("?") ==>
              ColumnEntries(lib, col) ==
              match lib.extend(col)
              case None => [Entry(col.name, Column("", String, Str("?")))]
              case Some(subs) => SubEntries(col, subs) + [Entry(col.name, Column("", Skip, NoValue))]
    ensures (!col.typ.JSON? && !col.typ.Portable? && !col.typ.Compact?) || col.name == "__key" || col.value == Str("?")
            ==> ColumnEntries(lib, col) == [Entry(col.name, col)]
  {
  }

  /** The standard names come first, in this order, and all others behind them. */
  lemma StandardRanks(names: seq<string>, h: string)
    ensures Rank(names, "__key") == 0 && Rank(names, "__key_type") == 1
    ensures Rank(names, "this") == 2 && Rank(names, "this_type") == 3
    ensures h !in {"__key", "__key_type", "this", "this_type"} ==> Rank(names, h) == 4 + First(names, h)
  {
    assert STD_NAMES[1..] == ["__key_type", "this", "this_type"];
    assert STD_NAMES[1..][1..] == ["this", "this_type"];
    assert STD_NAMES[1..][1..][1..] == ["this_type"];
  }

  /** What stands above a column is its name without the prefix "this.". */
  lemma HeaderText(lib: Lib, h: string, grid: seq<Row>, i: nat, maxWidth: int, head: Head)
    requires (forall k :: 0 <= k < |grid| ==> i < |grid[k]|) && IsHead(lib, h, grid, i, maxWidth, head)
    ensures if "this." <= h then h == "this." + head.header else h == head.header
  {
    TrimThisIs(h);
  }
}
