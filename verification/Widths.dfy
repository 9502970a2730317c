/**
 The widths of a streamed table: makeTableHeaderFromRow of internal/output/utils.go. The rows
 to come are not known, so every column gets a width from its type, and the columns of no
 fixed width share what is left of the console.
 */
module Widths {
  import opened TableRows
  import opened TablePrinting

  const PADDING := 3
  const WIDTH_CAP := 1000

  predicate Fixed(typ: Type) {
    typ in {Byte, UInt16, Int16, Int32, Int64, Float32, Float64, Bool, UUID}
  }

  /** The longest text of a type of fixed width. */
  function TextSize(typ: Type): nat
    requires Fixed(typ)
  {
    match typ
    case Byte => |"127"|
    case UInt16 => |"32767"|
    case Int16 => |"32767"|
    case Int32 => |"2147483647"|
    case Int64 => |"9223372036854775807"|
    case Float32 => |"3.4028234663852886e+38"|
    case Float64 => |"1.7976931348623157e+308"|
    case Bool => |"false"|
    case _ => |"00000000-0000-0000-0000-000000000000"|
  }

  function WidthForType(typ: Type, headerWidth: nat, defaultWidth: int): int {
    Max(headerWidth, if Fixed(typ) then TextSize(typ) else defaultWidth)
  }

  /** Go's division, which truncates toward zero. */
  function Quotient(a: int, b: int): int
    requires b > 0
  {
    if a >= 0 then a / b else -(-a / b)
  }

  function FixedSize(row: Row): int {
    if row == [] then 0
    else
      var c := row[|row| - 1];
      FixedSize(row[..|row| - 1]) + if Fixed(c.typ) then WidthForType(c.typ, |c.name|, |c.name|) + PADDING else 0
  }

  function FlexibleCount(row: Row): nat {
    if row == [] then 0 else FlexibleCount(row[..|row| - 1]) + if Fixed(row[|row| - 1].typ) then 0 else 1
  }

  /** There is room for the columns of fixed width and for the padding of all others. */
  predicate Room(row: Row, maxWidth: int) {
    FixedSize(row) + FlexibleCount(row) * PADDING <= maxWidth
  }

  lemma QuotientBounds(a: int, b: int, q: int)
    requires b > 0 && q == Quotient(a, b)
    ensures a >= 0 ==> b * q <= a < b * q + b
    ensures q >= PADDING <==> a >= b * PADDING
  {
    if a >= 0 {
      assert a == b * (a / b) + a % b;
      if q >= PADDING { Scaled(b, PADDING, q); } else { Scaled(b, q + 1, PADDING); }
    } else {
      assert -a / b >= 0;
      assert b * PADDING >= 0;
    }
  }

  lemma Scaled(b: int, p: int, q: int)
    requires b > 0 && p <= q
    ensures b * p <= b * q && b * (q + 1) == b * q + b && b * (p + 1) == b * p + b
  {
  }

  /** The flexible columns share the room equally, and less than one rune for each is left over. */
  ghost predicate IsShare(row: Row, maxWidth: int, share: int) {
    if maxWidth < 1 || FlexibleCount(row) == 0 || !Room(row, maxWidth) then share == 1
    else
      && share >= 0
      && FixedSize(row) + FlexibleCount(row) * (share + PADDING) <= maxWidth
      && maxWidth < FixedSize(row) + FlexibleCount(row) * (share + PADDING) + FlexibleCount(row)
  }

  method DefaultWidthForFlexibleColumns(header: Row, maxWidth: int) returns (r: int)
    ensures IsShare(header, maxWidth, r)
  {
    if maxWidth < 1 {
      return 1;
    }
    var fixedSize, flexibleCount := 0, 0;
    for i := 0 to |header|
      invariant fixedSize == FixedSize(header[..i]) && flexibleCount == FlexibleCount(header[..i])
    {
      assert header[..i + 1][..i] == header[..i];
      var h := header[i];
      if Fixed(h.typ) {
        fixedSize := fixedSize + WidthForType(h.typ, |h.name|, |h.name|) + PADDING;
      } else {
        flexibleCount := flexibleCount + 1;
      }
    }
    assert header[..|header|] == header;
    if flexibleCount == 0 {
      return 1;
    }
    var q := Quotient(maxWidth - fixedSize, flexibleCount);
    QuotientBounds(maxWidth - fixedSize, flexibleCount, q);
    var w := q - PADDING;
    if w < 0 {
      return 1;
    }
    return w;
  }

  // ---------- the header ----------

  function HeadOf(c: Column, dw: int): Head {
    Head(c.name, AlignmentForType(c.typ) * WidthForType(c.typ, |c.name|, dw))
  }

  function Heads(row: Row, dw: int): seq<Head> {
    if row == [] then [] else Heads(row[..|row| - 1], dw) + [HeadOf(row[|row| - 1], dw)]
  }

  /** The columns as the table prints them. */
  function Layouts(hd: seq<Head>): seq<Layout> {
    seq(|hd|, i requires 0 <= i < |hd| => LayoutOf(hd[i].align))
  }

  predicate FlexibleNamesFit(row: Row, dw: int) {
    forall i :: 0 <= i < |row| && !Fixed(row[i].typ) ==> |row[i].name| <= dw
  }

  lemma LayoutsAppend(hd: seq<Head>, h: Head)
    ensures Layouts(hd + [h]) == Layouts(hd) + [LayoutOf(h.align)]
  {
  }

  lemma LineSizeAppend(layout: seq<Layout>, l: Layout)
    ensures LineSize(layout + [l]) == LineSize(layout) + l.width + if layout == [] then 2 else 3
  {
    assert (layout + [l])[..|layout|] == layout;
  }

  lemma HeadWidth(c: Column, dw: int)
    requires dw >= 0
    ensures LayoutOf(HeadOf(c, dw).align).width == WidthForType(c.typ, |c.name|, dw)
  {
  }

  /** By how much the names of the flexible columns are longer than the width meant for them. */
  function Excess(row: Row, dw: int): nat {
    if row == [] then 0
    else
      var c := row[|row| - 1];
      Excess(row[..|row| - 1], dw) + if Fixed(c.typ) then 0 else Max(|c.name| - dw, 0)
  }

  lemma {:induction false} NoExcess(row: Row, dw: int)
    ensures Excess(row, dw) == 0 <==> FlexibleNamesFit(row, dw)
  {
    if row != [] {
      var n := |row| - 1;
      NoExcess(row[..n], dw);
      assert forall i :: 0 <= i < n ==> row[..n][i] == row[i];
    }
  }

  /** What a line of the table takes: a flexible name that is too long widens the line by its excess. */
  lemma {:induction false} LineTakes(row: Row, dw: int)
    requires dw >= 0 && row != []
    ensures LineSize(Layouts(Heads(row, dw))) + 1
         == FixedSize(row) + FlexibleCount(row) * (dw + PADDING) + Excess(row, dw)
  {
    hide WidthForType, LayoutOf, HeadOf, LineSize, Layouts;
    var n := |row| - 1;
    var c, hd := row[n], Heads(row[..n], dw);
    LayoutsAppend(hd, HeadOf(c, dw));
    LineSizeAppend(Layouts(hd), LayoutOf(HeadOf(c, dw).align));
    HeadWidth(c, dw);
    WidthIs(c, dw);
    Distribute(FlexibleCount(row[..n]), dw + PADDING);
    HeadsSize(row[..n], dw);
    if n > 0 {
      LineTakes(row[..n], dw);
    } else {
      NoColumns(dw);
    }
  }

  lemma NoColumns(dw: int)
    ensures LineSize(Layouts(Heads([], dw))) == 0
  {
  }

  lemma {:induction false} HeadsSize(row: Row, dw: int)
    ensures |Layouts(Heads(row, dw))| == |row|
  {
    if row != [] { HeadsSize(row[..|row| - 1], dw); }
  }

  lemma WidthIs(c: Column, dw: int)
    ensures WidthForType(c.typ, |c.name|, dw)
         == if Fixed(c.typ) then WidthForType(c.typ, |c.name|, |c.name|) else dw + Max(|c.name| - dw, 0)
  {
  }

  lemma Distribute(k: int, x: int)
    ensures (k + 1) * x == k * x + x && 0 * x == 0
  {
  }

  /** The largest width of a column is an arbitrary decision. */
  function CapWidth(dw: int): int {
    if dw > WIDTH_CAP then WIDTH_CAP else dw
  }

  method MakeTableHeaderFromRow(row: Row, maxWidth: int) returns (hd: seq<Head>)
    ensures exists share :: IsShare(row, maxWidth, share) && hd == Heads(row, CapWidth(share))
  {
    var dw := DefaultWidthForFlexibleColumns(row, maxWidth);
    ghost var share := dw;
    if dw > WIDTH_CAP {
      dw := WIDTH_CAP;
    }
    hd := [];
    for i := 0 to |row|
      invariant hd == Heads(row[..i], dw)
    {
      assert row[..i + 1][..i] == row[..i];
      hd := hd + [Head(row[i].name, AlignmentForType(row[i].typ) * WidthForType(row[i].typ, |row[i].name|, dw))];
    }
    assert row[..|row|] == row;
    assert IsShare(row, maxWidth, share) && hd == Heads(row, CapWidth(share));
  }

  /**
   The lines of the table fit the console exactly when there was room for the padding and the
   long names take no more than what sharing the room left over.
   */
  lemma LinesFitExactly(row: Row, maxWidth: int, share: int)
    requires maxWidth >= 1 && FlexibleCount(row) > 0 && IsShare(row, maxWidth, share)
    ensures LineSize(Layouts(Heads(row, CapWidth(share)))) < maxWidth
       <==> && Room(row, maxWidth)
            && Excess(row, CapWidth(share))
               <= maxWidth - FixedSize(row) - FlexibleCount(row) * (CapWidth(share) + PADDING)
  {
    hide LineSize, Layouts, Heads, FixedSize, Excess;
    var k, dw := FlexibleCount(row), CapWidth(share);
    LineTakes(row, dw);
    if !Room(row, maxWidth) { Scaled(k, PADDING, dw + PADDING); }
  }

  /**
   Names within the share fit whenever there is room; below the largest width, an excess of one
   rune for each flexible column never fits.
   */
  lemma LinesFit(row: Row, maxWidth: int, share: int)
    requires maxWidth >= 1 && FlexibleCount(row) > 0 && IsShare(row, maxWidth, share)
    ensures FlexibleNamesFit(row, CapWidth(share))
            ==> (LineSize(Layouts(Heads(row, CapWidth(share)))) < maxWidth <==> Room(row, maxWidth))
    ensures FlexibleNamesFit(row, share) && Room(row, maxWidth) && share <= WIDTH_CAP
            ==> maxWidth - LineSize(Layouts(Heads(row, share))) <= FlexibleCount(row)
    ensures share <= WIDTH_CAP && Excess(row, share) >= FlexibleCount(row)
            ==> LineSize(Layouts(Heads(row, share))) >= maxWidth
  {
    hide FlexibleNamesFit, LineSize, Layouts, Heads, FixedSize, Excess;
    var k, dw := FlexibleCount(row), CapWidth(share);
    LinesFitExactly(row, maxWidth, share);
    NoExcess(row, dw);
    LineTakes(row, dw);
    Distribute(k, dw + PADDING);
    if Room(row, maxWidth) { Scaled(k, dw + PADDING, share + PADDING); }
  }

  lemma {:induction false} HeadsAt(row: Row, dw: int, i: nat)
    requires i < |row|
    ensures |Heads(row, dw)| == |row| && Heads(row, dw)[i] == HeadOf(row[i], dw)
  {
    var n := |row| - 1;
    if i < n {
      HeadsAt(row[..n], dw, i);
    } else if n > 0 {
      HeadsAt(row[..n], dw, 0);
    }
  }

  lemma ZeroShare(row: Row, maxWidth: int, share: int)
    requires IsShare(row, maxWidth, share)
    ensures share == 0
       <==> maxWidth >= 1 && 0 <= maxWidth - FixedSize(row) - FlexibleCount(row) * PADDING < FlexibleCount(row)
  {
    hide FixedSize;
    var k := FlexibleCount(row);
    Distribute(k, 0);
    if share > 0 && k > 0 { Scaled(k, PADDING + 1, share + PADDING); }
    assert k * (0 + PADDING) == k * PADDING;
  }

  predicate HasUnnamedFlexible(row: Row) {
    exists i :: 0 <= i < |row| && !Fixed(row[i].typ) && row[i].name == ""
  }

  lemma ZeroWidths(row: Row, dw: int)
    requires dw >= 0
    ensures HasZeroWidth(Layouts(Heads(row, dw))) <==> dw == 0 && HasUnnamedFlexible(row)
  {
    hide Heads, LayoutOf, HeadOf;
    var layout := Layouts(Heads(row, dw));
    HeadsSize(row, dw);
    forall i | 0 <= i < |row|
      ensures layout[i].width == WidthForType(row[i].typ, |row[i].name|, dw)
    {
      HeadsAt(row, dw, i);
      HeadWidth(row[i], dw);
    }
    if HasUnnamedFlexible(row) {
      var i :| 0 <= i < |row| && !Fixed(row[i].typ) && row[i].name == "";
      assert layout[i].width == dw;
    }
  }

  /**
   Printing the table panics on a column of width zero. That takes a flexible column without a
   name and a console with room for the padding but not for one more rune in each flexible column.
   */
  lemma PanicsExactly(row: Row, maxWidth: int, share: int)
    requires IsShare(row, maxWidth, share)
    ensures HasZeroWidth(Layouts(Heads(row, CapWidth(share))))
       <==> && HasUnnamedFlexible(row) && maxWidth >= 1
            && 0 <= maxWidth - FixedSize(row) - FlexibleCount(row) * PADDING < FlexibleCount(row)
  {
    hide FixedSize, FlexibleCount, IsShare, HasZeroWidth, HasUnnamedFlexible;
    ZeroShare(row, maxWidth, share);
    ShareIsNatural(row, maxWidth, share);
    ZeroWidths(row, CapWidth(share));
  }

  lemma ShareIsNatural(row: Row, maxWidth: int, share: int)
    requires IsShare(row, maxWidth, share)
    ensures share >= 0
  {
  }

  // ---------- numbers and texts ----------

  /** The types of numbers. */
  predicate IsNumber(typ: Type) {
    match typ
    case Byte | Int8 | UInt16 | Int16 | Int32 | Int64 => true
    case Float32 | Float64 => true
    case BigInteger | Decimal => true
    case _ => false
  }

  /** Numbers stand at the right of their column, everything else at the left. */
  lemma NumbersStandRight(typ: Type, w: nat, v: string)
    requires |v| < w
    ensures var cell, spaces := Fill(v, LayoutOf(AlignmentForType(typ) * w)), seq(w - |v|, _ => ' ');
            cell == if IsNumber(typ) then spaces + v else v + spaces
  {
    FillIs(v, LayoutOf(AlignmentForType(typ) * w));
  }

  /** The types of fixed width, and how long their longest texts are. */
  lemma FixedWidths(typ: Type)
    ensures Fixed(typ) <==> match typ
                            case Byte | UInt16 | Int16 | Int32 | Int64 => true
                            case Float32 | Float64 | Bool | UUID => true
                            case _ => false
    ensures TextSize(Byte) == 3 && TextSize(UInt16) == TextSize(Int16) == 5
    ensures TextSize(Int32) == 10 && TextSize(Int64) == 19
    ensures TextSize(Float32) == 22 && TextSize(Float64) == 23 && TextSize(Bool) == 5 && TextSize(UUID) == 36
  {
  }

  /** The share is the room divided by the columns without the padding, and one where there is no room. */
  lemma ShareExactly(row: Row, maxWidth: int, share: int)
    ensures IsShare(row, maxWidth, share) <==>
            share == if maxWidth >= 1 && FlexibleCount(row) > 0 && Room(row, maxWidth)
                     then (maxWidth - FixedSize(row)) / FlexibleCount(row) - 3 else 1
  {
    hide FixedSize, FlexibleCount;
    var k := FlexibleCount(row);
    if maxWidth >= 1 && k > 0 && Room(row, maxWidth) {
      DivisionIs(k, maxWidth - FixedSize(row), share + PADDING);
      AtLeastPadding(k, maxWidth - FixedSize(row));
    }
  }

  lemma DivisionIs(k: int, a: int, s: int)
    requires k > 0 && a >= 0
    ensures s == a / k <==> k * s <= a < k * s + k
  {
    var q := a / k;
    QuotientBounds(a, k, q);
    if s < q { Scaled(k, s + 1, q); Scaled(k, s, s); }
    if s > q { Scaled(k, q + 1, s); Scaled(k, q, q); }
  }

  lemma AtLeastPadding(k: int, a: int)
    requires k > 0 && a >= k * PADDING
    ensures a >= 0 && a / k >= PADDING
  {
    QuotientBounds(a, k, a / k);
  }
}
