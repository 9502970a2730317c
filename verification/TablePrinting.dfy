/**
 Printing the rows of a table: internal/table/table.go. A cell is cut into lines that fit its
 column, and the row is as high as its highest cell.

 A text is a sequence of runes of width one.
 */
module TablePrinting {
  import opened Sequences
  import opened Text
  import opened Wrappers

  const MAX_WIDTH := 65535

  // ---------- the simple form of line cutting ----------

  /** The paragraph in pieces of w runes; only the last may be shorter. */
  function Chunks(p: string, w: nat): seq<string>
    requires w > 0
    decreases |p|
  {
    if |p| <= w then [p] else [p[..w]] + Chunks(p[w..], w)
  }

  function ChunksOfAll(ps: seq<string>, w: nat): seq<string>
    requires w > 0
  {
    if ps == [] then [] else Chunks(ps[0], w) + ChunksOfAll(ps[1..], w)
  }

  /** Every paragraph cut into pieces; an empty last paragraph gives no line. */
  function CutIntoLines(text: string, w: nat): seq<string>
    requires w > 0
  {
    var ps := Split(text, '\n');
    ChunksOfAll(ps[..|ps| - 1], w) + if Last(ps) == "" then [] else Chunks(Last(ps), w)
  }

  // ---------- how the pieces change with one more rune ----------

  function Pieces(text: string, w: nat): seq<string>
    requires w > 0
  {
    ChunksOfAll(Split(text, '\n'), w)
  }

  lemma {:induction false} ChunksAppend(p: string, w: nat, c: char)
    requires w > 0
    ensures var cs := Chunks(p, w);
            && cs != [] && |Last(cs)| <= w && (Last(cs) == "" <==> p == "")
            && Chunks(p + [c], w) == if |Last(cs)| < w then cs[..|cs| - 1] + [Last(cs) + [c]] else cs + [[c]]
    decreases |p|
  {
    if |p| > w {
      var rest := Chunks(p[w..], w);
      ChunksAppend(p[w..], w, c);
      assert (p + [c])[..w] == p[..w] && (p + [c])[w..] == p[w..] + [c];
      assert ([p[..w]] + rest)[..|rest|] == [p[..w]] + rest[..|rest| - 1];
    } else if |p| == w {
      assert (p + [c])[..w] == p && (p + [c])[w..] == [c];
    }
  }

  lemma {:induction false} ChunksOfAllAppend(ps: seq<string>, qs: seq<string>, w: nat)
    requires w > 0
    ensures ChunksOfAll(ps + qs, w) == ChunksOfAll(ps, w) + ChunksOfAll(qs, w)
  {
    if ps == [] {
      assert ps + qs == qs;
    } else {
      assert (ps + qs)[1..] == ps[1..] + qs;
      ChunksOfAllAppend(ps[1..], qs, w);
    }
  }

  lemma LastOfConcat<T>(a: seq<T>, b: seq<T>)
    requires b != []
    ensures Last(a + b) == Last(b) && (a + b)[..|a + b| - 1] == a + b[..|b| - 1]
    ensures |b| == 1 ==> Last(b) == b[0]
  {
  }

  lemma {:induction false} SplitAppend(text: string, d: char, c: char)
    ensures var ps := Split(text, d);
            Split(text + [c], d) == if c == d then ps + [""] else ps[..|ps| - 1] + [Last(ps) + [c]]
    decreases |text|
  {
    hide Split, IndexOf, Last;
    var i := IndexOf(text, d);
    if i < 0 {
      SplitNone(text, d);
      LastOfConcat([], [text]);
      if c == d {
        assert text + [c] + "" == text + [c];
        SplitAt(text, d, "");
        SplitNone("", d);
      } else {
        SplitNone(text + [c], d);
      }
    } else {
      var a, b := text[..i], text[i + 1..];
      var ps := Split(b, d);
      assert text == a + [d] + b && text + [c] == a + [d] + (b + [c]);
      SplitAt(a, d, b);
      SplitAt(a, d, b + [c]);
      SplitAppend(b, d, c);
      LastOfConcat([a], ps);
    }
  }

  lemma ChunksOfOne(ps: seq<string>, p: string, w: nat)
    requires w > 0
    ensures ChunksOfAll(ps + [p], w) == ChunksOfAll(ps, w) + Chunks(p, w)
  {
    ChunksOfAllAppend(ps, [p], w);
    assert ChunksOfAll([p], w) == Chunks(p, w) + ChunksOfAll([], w);
  }

  lemma PiecesSplitLast(text: string, w: nat)
    requires w > 0
    ensures var ps := Split(text, '\n');
            Pieces(text, w) == ChunksOfAll(ps[..|ps| - 1], w) + Chunks(Last(ps), w)
  {
    var ps := Split(text, '\n');
    assert ps == ps[..|ps| - 1] + [Last(ps)];
    ChunksOfOne(ps[..|ps| - 1], Last(ps), w);
  }

  lemma PiecesAppend(text: string, w: nat, c: char)
    requires w > 0
    ensures var ls := Pieces(text, w);
            && ls != [] && |Last(ls)| <= w
            && Pieces(text + [c], w)
            == if c == '\n' then ls + [""]
               else if |Last(ls)| < w then ls[..|ls| - 1] + [Last(ls) + [c]]
               else ls + [[c]]
  {
    hide Split, IndexOf, ChunksOfAll, Chunks, Last;
    var ps := Split(text, '\n');
    var p, before := Last(ps), ChunksOfAll(ps[..|ps| - 1], w);
    PiecesSplitLast(text, w);
    ChunksAppend(p, w, c);
    LastOfConcat(before, Chunks(p, w));
    SplitAppend(text, '\n', c);
    if c == '\n' {
      ChunksOfOne(ps, "", w);
      ChunkOfNone(w);
    } else {
      ChunksOfOne(ps[..|ps| - 1], p + [c], w);
    }
  }

  lemma ChunkOfNone(w: nat)
    requires w > 0
    ensures Chunks("", w) == [""] && Pieces("", w) == [""]
  {
    SplitNone("", '\n');
    assert ChunksOfAll([""], w) == Chunks("", w) + ChunksOfAll([], w);
  }

  lemma CutIsPieces(text: string, w: nat)
    requires w > 0
    ensures var ls := Pieces(text, w);
            && ls != []
            && CutIntoLines(text, w) == if Last(ls) == "" then ls[..|ls| - 1] else ls
  {
    hide Split, IndexOf, ChunksOfAll, Chunks, Last;
    var ps := Split(text, '\n');
    PiecesSplitLast(text, w);
    ChunksAppend(Last(ps), w, ' ');
    LastOfConcat(ChunksOfAll(ps[..|ps| - 1], w), Chunks(Last(ps), w));
    ChunkOfNone(w);
  }

  // ---------- the loop with the reused buffer ----------

  /** None is the panic on a width that is not positive. */
  method SplitLines(text: string, width: int) returns (r: Option<seq<string>>)
    ensures r == if width <= 0 then None else Some(CutIntoLines(text, if width > MAX_WIDTH then MAX_WIDTH else width))
  {
    hide CutIntoLines, Pieces, Last;
    var maxWidth := width;
    if maxWidth > MAX_WIDTH {
      maxWidth := MAX_WIDTH;
    }
    if maxWidth <= 0 {
      return None;
    }
    var line := new char[maxWidth](_ => ' ');
    var ls: seq<string> := [];
    var cursor := 0;
    ChunkOfNone(maxWidth);
    for i := 0 to |text|
      invariant 0 <= cursor <= maxWidth
      invariant ls + [line[..cursor]] == Pieces(text[..i], maxWidth)
    {
      PiecesAppend(text[..i], maxWidth, text[i]);
      LastOfConcat(ls, [line[..cursor]]);
      assert text[..i + 1] == text[..i] + [text[i]];
      if text[i] == '\n' {
        ls := ls + [line[..cursor]];
        cursor := 0;
        assert line[..cursor] == "";
        continue;
      }
      if cursor >= maxWidth {
        ls := ls + [line[..cursor]];
        cursor := 0;
      }
      ghost var sofar := line[..cursor];
      line[cursor] := text[i];
      assert [text[i]] == [] + [text[i]];
      assert line[..cursor + 1] == sofar + [text[i]];
      cursor := cursor + 1;
    }
    assert text[..|text|] == text;
    CutIsPieces(text, maxWidth);
    LastOfConcat(ls, [line[..cursor]]);
    // the last line
    if cursor > 0 {
      ls := ls + [line[..cursor]];
    }
    return Some(ls);
  }

  // ---------- what the lines hold ----------

  function WithoutBreaks(text: string): string {
    if text == "" then "" else (if text[0] == '\n' then "" else [text[0]]) + WithoutBreaks(text[1..])
  }

  lemma {:induction false} ChunksHold(p: string, w: nat)
    requires w > 0
    ensures Concat(Chunks(p, w)) == p
    ensures forall k :: 0 <= k < |Chunks(p, w)| ==> |Chunks(p, w)[k]| <= w
    ensures forall k :: 0 <= k < |Chunks(p, w)| - 1 ==> |Chunks(p, w)[k]| == w
    decreases |p|
  {
    if |p| > w {
      ChunksHold(p[w..], w);
      assert p == p[..w] + p[w..];
    }
  }

  lemma {:induction false} ChunksOfAllHold(ps: seq<string>, w: nat)
    requires w > 0
    ensures Concat(ChunksOfAll(ps, w)) == Concat(ps)
    ensures forall k :: 0 <= k < |ChunksOfAll(ps, w)| ==> |ChunksOfAll(ps, w)[k]| <= w
  {
    if ps != [] {
      ChunksHold(ps[0], w);
      ChunksOfAllHold(ps[1..], w);
      ConcatAppend(Chunks(ps[0], w), ChunksOfAll(ps[1..], w));
    }
  }

  lemma {:induction false} BreaksAppend(a: string, b: string)
    ensures WithoutBreaks(a + b) == WithoutBreaks(a) + WithoutBreaks(b)
  {
    if a == "" {
      assert a + b == b;
    } else {
      assert (a + b)[1..] == a[1..] + b;
      BreaksAppend(a[1..], b);
    }
  }

  lemma {:induction false} NoBreaks(a: string)
    requires '\n' !in a
    ensures WithoutBreaks(a) == a
  {
    if a != "" { NoBreaks(a[1..]); }
  }

  lemma BreakVanishes(a: string, b: string)
    requires '\n' !in a
    ensures WithoutBreaks(a + ['\n'] + b) == a + WithoutBreaks(b)
  {
    hide WithoutBreaks;
    NoBreaks(a);
    assert a + ['\n'] + b == a + (['\n'] + b);
    BreaksAppend(a, ['\n'] + b);
    LeadingBreak(b);
  }

  lemma LeadingBreak(b: string)
    ensures WithoutBreaks(['\n'] + b) == WithoutBreaks(b)
  {
    assert (['\n'] + b)[1..] == b;
  }

  lemma {:induction false} SplitHolds(text: string)
    ensures Concat(Split(text, '\n')) == WithoutBreaks(text)
    decreases |text|
  {
    hide Split, IndexOf, WithoutBreaks, Concat;
    var i := IndexOf(text, '\n');
    if i < 0 {
      SplitNone(text, '\n');
      NoBreaks(text);
      ConcatCons(text, []);
      assert [text] + [] == [text];
      ConcatNone<char>();
    } else {
      var a, b := text[..i], text[i + 1..];
      assert text == a + ['\n'] + b;
      SplitHolds(b);
      SplitAt(a, '\n', b);
      BreakVanishes(a, b);
      ConcatCons(a, Split(b, '\n'));
    }
  }

  /** No line is wider than the column, and no rune but the line breaks is lost. */
  lemma LinesHoldTheText(text: string, w: nat)
    requires w > 0
    ensures Concat(CutIntoLines(text, w)) == WithoutBreaks(text)
    ensures forall k :: 0 <= k < |CutIntoLines(text, w)| ==> |CutIntoLines(text, w)[k]| <= w
  {
    hide CutIntoLines, Split, IndexOf, ChunksOfAll, WithoutBreaks, Concat;
    var ls := Pieces(text, w);
    ChunksOfAllHold(Split(text, '\n'), w);
    SplitHolds(text);
    CutIsPieces(text, w);
    if Last(ls) == "" {
      assert ls == ls[..|ls| - 1] + [""];
      ConcatAppend(ls[..|ls| - 1], [""]);
      ConcatCons("", []);
      ConcatNone<char>();
      assert [""] + [] == [""];
    }
  }

  lemma OnlyTheEmptyTextHasNoLine(text: string, w: nat)
    requires w > 0
    ensures CutIntoLines(text, w) == [] <==> text == ""
  {
    hide Split, IndexOf, WithoutBreaks;
    var ps := Split(text, '\n');
    JoinSplit(text, '\n');
    ChunksAppend(Last(ps), w, ' ');
    if |ps| > 1 {
      ChunksAppend(ps[0], w, ' ');
      assert ChunksOfAll(ps[..|ps| - 1], w) != [];
      SplitNone("", '\n');
    }
  }

  // ---------- printing a row ----------

  /** What the header row of a table leaves behind: a column is filled on the left when its alignment is negative. */
  datatype Layout = Layout(width: nat, fillLeft: bool)

  function LayoutOf(align: int): Layout {
    if align < 0 then Layout(-align, true) else Layout(align, false)
  }

  function Spaces(n: nat): (s: string)
    ensures |s| == n
  {
    if n == 0 then "" else " " + Spaces(n - 1)
  }

  function Fill(v: string, l: Layout): string {
    if |v| >= l.width then v
    else if l.fillLeft then Spaces(l.width - |v|) + v else v + Spaces(l.width - |v|)
  }

  function PieceOf(ls: seq<string>, li: nat): string {
    if li < |ls| then ls[li] else ""
  }

  /** The first n cells of line li. */
  function LineOf(rowLines: seq<seq<string>>, layout: seq<Layout>, li: nat, n: nat): string
    requires n <= |rowLines| == |layout|
  {
    if n == 0 then ""
    else
      LineOf(rowLines, layout, li, n - 1)
      + (if n == 1 then " " else "| ") + Fill(PieceOf(rowLines[n - 1], li), layout[n - 1]) + " "
  }

  function RowLines(row: seq<string>, layout: seq<Layout>): seq<seq<string>>
    requires |row| == |layout| && forall i :: 0 <= i < |layout| ==> layout[i].width > 0
  {
    seq(|row|, i requires 0 <= i < |row| => CutIntoLines(row[i], Capped(layout[i].width)))
  }

  function Capped(w: nat): (c: nat)
    ensures w > 0 ==> c > 0
    ensures c <= w
  {
    if w > MAX_WIDTH then MAX_WIDTH else w
  }

  ghost predicate IsHeight(rowLines: seq<seq<string>>, h: int) {
    && (forall i :: 0 <= i < |rowLines| ==> |rowLines[i]| <= h)
    && (h == 0 || exists i :: 0 <= i < |rowLines| && |rowLines[i]| == h)
  }

  /** The size of a line: what a table needs is the widths and 3 for each column, less one. */
  function LineSize(layout: seq<Layout>): nat {
    if layout == [] then 0
    else LineSize(layout[..|layout| - 1]) + layout[|layout| - 1].width + if |layout| == 1 then 2 else 3
  }

  predicate HasZeroWidth(layout: seq<Layout>) {
    exists i :: 0 <= i < |layout| && layout[i].width == 0
  }

  /** One pass over the cells. */
  method PrintLine(ghost row: seq<string>, layout: seq<Layout>, rowLines: seq<seq<string>>, li: nat)
      returns (line: string)
    requires |row| == |layout| && forall i :: 0 <= i < |layout| ==> layout[i].width > 0
    requires rowLines == RowLines(row, layout)
    ensures line == LineOf(rowLines, layout, li, |row|) && |line| == LineSize(layout)
  {
    hide CutIntoLines, LineOf, LineSize, Fill;
    line := "";
    LineOfNone(rowLines, layout, li);
    for ci := 0 to |layout|
      invariant line == LineOf(rowLines, layout, li, ci) && |line| == LineSize(layout[..ci])
    {
      var v := if |rowLines[ci]| > li then rowLines[ci][li] else "";
      LineOfNext(rowLines, layout, li, ci);
      PieceFits(row[ci], layout[ci], li);
      line := line + ((if ci == 0 then " " else "| ") + Fill(v, layout[ci]) + " ");
    }
    assert layout[..|layout|] == layout;
  }

  /**
   The lines of the row as printed, with a line break between two of them, and the number of
   runes in them; None is the panic on a column of width zero.
   */
  method WPrintRow(row: seq<string>, layout: seq<Layout>) returns (r: Option<(seq<string>, nat)>)
    requires |row| == |layout|
    ensures r.None? <==> HasZeroWidth(layout)
    ensures r.Some? ==>
              var (out, n) := r.value;
              && IsHeight(RowLines(row, layout), |out|)
              && (forall li :: 0 <= li < |out| ==> out[li] == LineOf(RowLines(row, layout), layout, li, |row|))
              && (forall li :: 0 <= li < |out| ==> |out[li]| == LineSize(layout))
              && n == |out| * LineSize(layout)
  {
    hide CutIntoLines, LineOf, LineSize, IsHeight;
    var maxLines := 0;
    var rowLines: seq<seq<string>> := [];
    NoHeight();
    for i := 0 to |row|
      invariant |rowLines| == i && IsHeight(rowLines, maxLines)
      invariant maxLines >= 0
      invariant forall j :: 0 <= j < i ==>
                  layout[j].width > 0 && rowLines[j] == CutIntoLines(row[j], Capped(layout[j].width))
    {
      var ls := SplitLines(row[i], layout[i].width);
      if ls.None? {
        return None;
      }
      ghost var before, wasMax := rowLines, maxLines;
      if |ls.value| > maxLines {
        maxLines := |ls.value|;
      }
      rowLines := rowLines + [ls.value];
      HeightGrows(before, wasMax, ls.value);
    }
    assert rowLines == RowLines(row, layout);
    var out: seq<string> := [];
    var n := 0;
    for li := 0 to maxLines
      invariant |out| == li && n == li * LineSize(layout)
      invariant forall k :: 0 <= k < li ==> out[k] == LineOf(rowLines, layout, k, |row|) && |out[k]| == LineSize(layout)
    {
      var line := PrintLine(row, layout, rowLines, li);
      SizeStep(li, LineSize(layout));
      n := n + |line|;
      out := out + [line];
    }
    return Some((out, n));
  }

  lemma SizeStep(k: int, size: int)
    ensures (k + 1) * size == k * size + size
  {
  }

  lemma HeightGrows(rowLines: seq<seq<string>>, h: int, ls: seq<string>)
    requires IsHeight(rowLines, h)
    requires h >= 0
    ensures IsHeight(rowLines + [ls], if |ls| > h then |ls| else h)
  {
    var all := rowLines + [ls];
    assert all[|rowLines|] == ls;
    if |ls| <= h && h > 0 {
      var i :| 0 <= i < |rowLines| && |rowLines[i]| == h;
      assert all[i] == rowLines[i];
    }
  }

  lemma LineOfNone(rowLines: seq<seq<string>>, layout: seq<Layout>, li: nat)
    requires |rowLines| == |layout|
    ensures LineOf(rowLines, layout, li, 0) == "" && LineSize(layout[..0]) == 0
  {
  }

  lemma LineOfNext(rowLines: seq<seq<string>>, layout: seq<Layout>, li: nat, ci: nat)
    requires ci < |rowLines| == |layout|
    ensures LineOf(rowLines, layout, li, ci + 1)
         == LineOf(rowLines, layout, li, ci)
            + ((if ci == 0 then " " else "| ") + Fill(PieceOf(rowLines[ci], li), layout[ci]) + " ")
    ensures LineSize(layout[..ci + 1]) == LineSize(layout[..ci]) + layout[ci].width + if ci == 0 then 2 else 3
  {
    hide Fill;
    assert layout[..ci + 1][..ci] == layout[..ci];
  }

  /** A piece of a cell takes the width of its column. */
  lemma PieceFits(text: string, l: Layout, li: nat)
    requires l.width > 0
    ensures |Fill(PieceOf(CutIntoLines(text, Capped(l.width)), li), l)| == l.width
  {
    hide CutIntoLines;
    LinesHoldTheText(text, Capped(l.width));
  }

  lemma NoHeight()
    ensures IsHeight([], 0)
  {
  }

  function Repeat(s: string, n: nat): (r: string)
    ensures |r| == n * |s|
  {
    if n == 0 then "" else s + Repeat(s, n - 1)
  }

  // ---------- the separator ----------

  /** A text that is not cut: it fits its column, and at most its last rune is a line break. */
  predicate OneLine(text: string, w: nat) {
    var t := if text != "" && Last(text) == '\n' then text[..|text| - 1] else text;
    '\n' !in t && |t| <= w
  }

  lemma CutCons(a: string, b: string, w: nat)
    requires w > 0 && '\n' !in a
    ensures CutIntoLines(a + ['\n'] + b, w) == Chunks(a, w) + CutIntoLines(b, w)
  {
    hide Split, IndexOf, Chunks, ChunksOfAll, Last;
    SplitAt(a, '\n', b);
    var ps := Split(b, '\n');
    LastOfConcat([a], ps);
    ChunksOfAllCons(a, ps[..|ps| - 1], w);
    var lines, tail := ChunksOfAll(ps[..|ps| - 1], w), if Last(ps) == "" then [] else Chunks(Last(ps), w);
    assert Chunks(a, w) + lines + tail == Chunks(a, w) + (lines + tail);
  }

  lemma ChunksOfAllCons(a: string, ps: seq<string>, w: nat)
    requires w > 0
    ensures ChunksOfAll([a] + ps, w) == Chunks(a, w) + ChunksOfAll(ps, w)
  {
    assert ([a] + ps)[1..] == ps;
  }

  lemma {:induction false} ChunkCount(p: string, w: nat)
    requires w > 0
    ensures |Chunks(p, w)| >= 1 && (|Chunks(p, w)| == 1 <==> |p| <= w)
    decreases |p|
  {
    if |p| > w { ChunkCount(p[w..], w); }
  }

  lemma OneLineExactly(text: string, w: nat)
    requires w > 0
    ensures |CutIntoLines(text, w)| <= 1 <==> OneLine(text, w)
  {
    hide Split, CutIntoLines, Chunks;
    var i := IndexOf(text, '\n');
    if i < 0 {
      WholeText(text, w);
      ChunkCount(text, w);
    } else {
      var a, b := text[..i], text[i + 1..];
      assert text == a + ['\n'] + b;
      CutCons(a, b, w);
      ChunkCount(a, w);
      OnlyTheEmptyTextHasNoLine(b, w);
      if b != "" {
        assert text[..|text| - 1][i] == '\n';
      } else {
        assert Last(text) == '\n' && text[..|text| - 1] == a;
      }
    }
  }

  lemma WholeText(text: string, w: nat)
    requires w > 0 && '\n' !in text
    ensures CutIntoLines(text, w) == if text == "" then [] else Chunks(text, w)
  {
    SplitNone(text, '\n');
  }

  predicate TakesOneLine(header: seq<string>, layout: seq<Layout>)
    requires |header| == |layout|
  {
    && (forall i :: 0 <= i < |header| ==> OneLine(header[i], Capped(layout[i].width)))
    && exists i :: 0 <= i < |header| && header[i] != ""
  }

  lemma HeightIsOne(header: seq<string>, layout: seq<Layout>, h: int)
    requires |header| == |layout| && forall i :: 0 <= i < |layout| ==> layout[i].width > 0
    requires h >= 0 && IsHeight(RowLines(header, layout), h)
    ensures h == 1 <==> TakesOneLine(header, layout)
  {
    hide CutIntoLines, OneLine;
    var rowLines := RowLines(header, layout);
    forall i | 0 <= i < |header|
      ensures |rowLines[i]| <= 1 <==> OneLine(header[i], Capped(layout[i].width))
      ensures rowLines[i] == [] <==> header[i] == ""
    {
      OneLineExactly(header[i], Capped(layout[i].width));
      OnlyTheEmptyTextHasNoLine(header[i], Capped(layout[i].width));
    }
    if i :| 0 <= i < |header| && header[i] != "" { assert rowLines[i] != []; }
    if i :| 0 <= i < |rowLines| && |rowLines[i]| == h { assert h > 0 ==> header[i] != ""; }
  }

  /** How often the separator is repeated for a header that takes h lines. */
  function SeparatorCount(h: nat, layout: seq<Layout>, sepSize: nat): nat
    requires sepSize > 0
  {
    h * LineSize(layout) / sepSize
  }

  /** Within a line, but no whole separator shorter. */
  predicate AsLongAsLine(size: int, layout: seq<Layout>, sepSize: nat) {
    LineSize(layout) - sepSize < size <= LineSize(layout)
  }

  lemma Multiples(h: nat, size: nat, sepSize: nat)
    requires 0 < sepSize <= size
    ensures size - sepSize < h * size / sepSize * sepSize <= size <==> h == 1
  {
    var a := h * size;
    var n := a / sepSize;
    assert n * sepSize == a - a % sepSize;
    if h >= 2 { assert a == 2 * size + (h - 2) * size && (h - 2) * size >= 0; }
  }

  /**
   The line above and below the header. Its size is that of all lines of the header together, so
   it is as long as a line of the table exactly when the header takes one line.
   */
  method MakeSeparator(header: seq<string>, layout: seq<Layout>, sep: string) returns (r: Option<string>)
    requires |header| == |layout| && sep != ""
    ensures r.None? <==> HasZeroWidth(layout)
    ensures r.Some? ==>
              exists h: nat :: && IsHeight(RowLines(header, layout), h)
                               && r.value == Repeat(sep, SeparatorCount(h, layout, |sep|))
    ensures r.Some? && |sep| <= LineSize(layout) ==>
              (AsLongAsLine(|r.value|, layout, |sep|) <==> TakesOneLine(header, layout))
  {
    hide IsHeight, RowLines, LineOf, LineSize, Repeat, TakesOneLine;
    var size := WPrintRow(header, layout);
    if size.None? {
      return None;
    }
    var (lines, n) := size.value;
    HeightIsOne(header, layout, |lines|);
    if |sep| <= LineSize(layout) { Multiples(|lines|, LineSize(layout), |sep|); }
    return Some(Repeat(sep, n / |sep|));
  }

  // ---------- the format of a line ----------

  /** The cells of a line, each filled up to its width. */
  function FilledCells(rowLines: seq<seq<string>>, layout: seq<Layout>, li: nat, n: nat): seq<string>
    requires n <= |rowLines| == |layout|
  {
    seq(n, i requires 0 <= i < n => Fill(PieceOf(rowLines[i], li), layout[i]))
  }

  function JoinedBy(cells: seq<string>, sep: string): string {
    if cells == [] then ""
    else if |cells| == 1 then cells[0]
    else JoinedBy(cells[..|cells| - 1], sep) + sep + cells[|cells| - 1]
  }

  /** A line is its cells with bars between them and a space at each end. */
  lemma {:induction false} LineIs(rowLines: seq<seq<string>>, layout: seq<Layout>, li: nat, n: nat)
    requires 0 < n <= |rowLines| == |layout|
    ensures LineOf(rowLines, layout, li, n) == " " + JoinedBy(FilledCells(rowLines, layout, li, n), " | ") + " "
  {
    hide Fill, PieceOf;
    if n > 1 {
      var cells, before := FilledCells(rowLines, layout, li, n), FilledCells(rowLines, layout, li, n - 1);
      LineIs(rowLines, layout, li, n - 1);
      assert cells[..n - 1] == before;
      Bars(JoinedBy(before, " | "), cells[n - 1]);
    }
  }

  lemma Bars(a: string, b: string)
    ensures " " + a + " " + "| " + b + " " == " " + (a + " | " + b) + " "
  {
  }

  /** A cell is filled with spaces up to its width, on the left when it stands to the right. */
  lemma FillIs(v: string, l: Layout)
    ensures |v| >= l.width ==> Fill(v, l) == v
    ensures |v| < l.width ==>
              var spaces := seq(l.width - |v|, _ => ' ');
              Fill(v, l) == if l.fillLeft then spaces + v else v + spaces
  {
    if |v| < l.width { SpacesAre(l.width - |v|); }
  }

  lemma {:induction false} SpacesAre(n: nat)
    ensures Spaces(n) == seq(n, _ => ' ')
  {
    if n > 0 { SpacesAre(n - 1); }
  }

  /** A cell that has fewer lines than its row is blank in the others. */
  lemma ShortCellsAreBlank(ls: seq<string>, li: nat, l: Layout)
    ensures li < |ls| ==> PieceOf(ls, li) == ls[li]
    ensures li >= |ls| ==> Fill(PieceOf(ls, li), l) == seq(l.width, _ => ' ')
  {
    if li >= |ls| {
      FillIs("", l);
      assert seq(l.width, _ => ' ') + "" == seq(l.width, _ => ' ') == "" + seq(l.width, _ => ' ');
    }
  }

  /** No column is cut into lines of more than 65535 runes. */
  lemma WidthLimit(w: nat)
    ensures Capped(w) == if w < 0x1_0000 then w else 0xFFFF
  {
  }
}
