/**
  Soft wrapping of whole lines: wrapLines and prefixContinuationRows
  (internal/ui/ansisplit.go), wrapHeight (internal/ui/logview.go) and logicalToVisual
  (internal/ui/detailview.go).

  Broken is the partition of a line's cells into rows. The log view's splitter and the
  detail view's wrapLines are proved to cut a line in the same places, and a column found
  through the row mapping is proved to show the same cell on screen as in the line.
 */
module Wrap {
  import opened Ansi
  import opened Windows
  import opened Split

  const INDICATOR_WIDTH := 2

  /** The prefix put before continuation rows. */
  const INDICATOR: seq<Token> := [Sgr(2), Sgr(38), Cell("->", 1), Reset, Cell(" ", 1)]

  function ContinuationWidth(vpWidth: int): Pos {
    if vpWidth - INDICATOR_WIDTH <= 0 then 1 else vpWidth - INDICATOR_WIDTH
  }

  function WrapHeight(displayWidth: int, vpWidth: int): int {
    var vp := if vpWidth <= 0 then 1 else vpWidth;
    if displayWidth <= vp then 1
    else
      var cont := ContinuationWidth(vp);
      1 + (displayWidth - vp + cont - 1) / cont
  }

  // ---- the partition ----

  /** How many leading cells fit in `room` columns. */
  function Fit(gs: seq<Glyph>, room: int): (k: nat)
    ensures k <= |gs|
  {
    if gs == [] || gs[0].w > room then 0 else 1 + Fit(gs[1..], room - gs[0].w)
  }

  /** A row takes what fits, and one cell at least. */
  function RowLength(gs: seq<Glyph>, limit: Pos): (k: nat)
    requires gs != []
    ensures 1 <= k <= |gs|
  {
    Max(1, Fit(gs, limit))
  }

  function Broken(gs: seq<Glyph>, limit: Pos, cont: Pos): seq<seq<Glyph>>
    decreases |gs|
  {
    if gs == [] then []
    else
      var k := RowLength(gs, limit);
      [gs[..k]] + Broken(gs[k..], cont, cont)
  }

  lemma {:induction false} FitIsMaximal(gs: seq<Glyph>, room: nat)
    ensures GlyphWidth(gs[..Fit(gs, room)]) <= room
    ensures Fit(gs, room) < |gs| ==> GlyphWidth(gs[..Fit(gs, room)]) + gs[Fit(gs, room)].w > room
  {
    if gs != [] && gs[0].w <= room {
      var k := Fit(gs[1..], room - gs[0].w);
      FitIsMaximal(gs[1..], room - gs[0].w);
      assert gs[..k + 1][1..] == gs[1..][..k];
      assert gs[..k + 1][0] == gs[0];
    }
  }

  lemma {:induction false} BrokenIsGreedy(gs: seq<Glyph>, limit: Pos, cont: Pos)
    ensures Flatten(Broken(gs, limit, cont)) == gs
    ensures IsGreedy(Broken(gs, limit, cont), limit, cont)
    decreases |gs|
  {
    if gs != [] {
      var k := RowLength(gs, limit);
      var first, tail := gs[..k], gs[k..];
      var rest := Broken(tail, cont, cont);
      BrokenIsGreedy(tail, cont, cont);
      FitIsMaximal(gs, limit);
      assert Broken(gs, limit, cont) == [first] + rest;
      assert ([first] + rest)[1..] == rest;
      assert first + tail == gs;
      if rest != [] {
        assert rest[0][0] == tail[0] == gs[k];
        if Fit(gs, limit) == 0 {
          assert first == [gs[0]] && GlyphWidth(first) == gs[0].w;
        }
      }
    }
  }

  /** Main result: the one-pass splitter cuts a line exactly where Broken does. */
  lemma {:induction false} SplitCutsLikeBroken(line: seq<Token>, vpWidth: Pos, contWidth: Pos)
    ensures Parts(Rows(line, vpWidth, contWidth)) == Broken(Shown(line, []), vpWidth, contWidth)
  {
    RowsKeepCells(line, vpWidth, contWidth);
    RowsBreakGreedily(line, vpWidth, contWidth);
    BrokenIsGreedy(Shown(line, []), vpWidth, contWidth);
    GreedyUnique(Parts(Rows(line, vpWidth, contWidth)), Broken(Shown(line, []), vpWidth, contWidth), vpWidth,
                 contWidth);
  }

  // ---- counting rows ----

  predicate Narrow(gs: seq<Glyph>) { forall i :: 0 <= i < |gs| ==> gs[i].w == 1 }

  lemma {:induction false} NarrowFit(gs: seq<Glyph>, room: nat)
    requires Narrow(gs)
    ensures Fit(gs, room) == Min(|gs|, room)
    ensures GlyphWidth(gs) == |gs|
  {
    if gs != [] {
      NarrowFit(gs[1..], if room > 0 then room - 1 else 0);
    }
  }

  lemma DivStep(n: int, c: int)
    requires 1 <= c
    ensures (n + c) / c == n / c + 1
  {
    var q, r := n / c, n % c;
    assert n == q * c + r;
    assert (q + 1) * c == q * c + c;
    DivUnique(n + c, c, q + 1, r);
  }

  lemma DivUnique(n: int, c: int, q: int, r: int)
    requires 1 <= c && n == q * c + r && 0 <= r < c
    ensures n / c == q
  {
    var d := q - n / c;
    assert n == (n / c) * c + n % c;
    assert d * c == n % c - r;
    if d >= 1 {
      AtLeastOne(d, c);
    } else if d <= -1 {
      AtLeastOne(-d, c);
    }
  }

  lemma AtLeastOne(d: int, c: int)
    requires 1 <= d && 1 <= c
    ensures d * c >= c && (-d) * c <= -c && -(d * c) == (-d) * c
  {
    assert d * c == (d - 1) * c + c;
  }

  lemma {:induction false} NarrowRows(gs: seq<Glyph>, cont: Pos)
    requires Narrow(gs)
    ensures |Broken(gs, cont, cont)| == (|gs| + cont - 1) / cont
    decreases |gs|
  {
    if gs == [] {
      DivUnique(cont - 1, cont, 0, cont - 1);
    } else {
      NarrowFit(gs, cont);
      var k := RowLength(gs, cont);
      NarrowRows(gs[k..], cont);
      if |gs| <= cont {
        assert gs[k..] == [];
        DivUnique(|gs| + cont - 1, cont, 1, |gs| - 1);
      } else {
        DivStep(|gs| - cont + cont - 1, cont);
      }
    }
  }

  /** Main result: for a line of single-column cells wrapHeight is the number of rows. */
  lemma {:induction false} WrapHeightCountsRows(gs: seq<Glyph>, vpWidth: Pos)
    requires Narrow(gs) && gs != []
    ensures |Broken(gs, vpWidth, ContinuationWidth(vpWidth))| == WrapHeight(GlyphWidth(gs), vpWidth)
  {
    var cont := ContinuationWidth(vpWidth);
    NarrowFit(gs, vpWidth);
    var k := RowLength(gs, vpWidth);
    NarrowRows(gs[k..], cont);
    if |gs| <= vpWidth {
      assert gs[k..] == [];
    }
  }

  // ---- exactly when the count is right ----

  /** The columns left free at the ends of all rows but the last. A row with a cell too wide
      for it has fewer than none. */
  function Lost(parts: seq<seq<Glyph>>, limit: int, cont: int): int {
    if |parts| <= 1 then 0 else limit - GlyphWidth(parts[0]) + Lost(parts[1..], cont, cont)
  }

  /** The last row has room for what the rows before it lost, and holds more than that. */
  predicate FillsRows(gs: seq<Glyph>, vpWidth: Pos) {
    var parts, cont := PartsOf(gs, vpWidth), ContinuationWidth(vpWidth);
    if |parts| <= 1 then GlyphWidth(gs) <= vpWidth
    else 0 < GlyphWidth(parts[|parts| - 1]) - Lost(parts, vpWidth, cont) <= cont
  }

  lemma {:induction false} LostStep(parts: seq<seq<Glyph>>, limit: int, cont: int)
    requires parts != []
    ensures GlyphWidth(Flatten(parts)) == GlyphWidth(parts[0]) + GlyphWidth(Flatten(parts[1..]))
    ensures |parts| == 1 ==> GlyphWidth(Flatten(parts)) == GlyphWidth(parts[0])
    ensures Lost(parts, limit, cont) ==
            if |parts| <= 1 then 0 else limit - GlyphWidth(parts[0]) + Lost(parts[1..], cont, cont)
  {
    GlyphWidthAppend(parts[0], Flatten(parts[1..]));
    assert |parts| == 1 ==> GlyphWidth(Flatten(parts[1..])) == 0;
  }

  lemma {:induction false} WidthByRows(parts: seq<seq<Glyph>>, limit: int, cont: int)
    requires |parts| >= 2
    ensures GlyphWidth(Flatten(parts)) ==
            limit + (|parts| - 2) * cont - Lost(parts, limit, cont) + GlyphWidth(parts[|parts| - 1])
    decreases |parts|
  {
    hide *;
    var tail := parts[1..];
    LostStep(parts, limit, cont);
    LostStep(tail, cont, cont);
    if |tail| >= 2 {
      WidthByRows(tail, cont, cont);
      assert (|parts| - 2) * cont == cont + (|tail| - 2) * cont;
    }
  }

  /** `n` rows hold `x` columns more than the first row's, `d` of them in the last. */
  lemma RowsFromWidth(x: int, n: nat, cont: Pos, d: int)
    requires n >= 2 && x > 0 && x == (n - 2) * cont + d
    ensures 1 + (x + cont - 1) / cont == n <==> 0 < d <= cont
  {
    assert x + cont - 1 == (n - 1) * cont + (d - 1);
    if 0 < d <= cont {
      DivUnique(x + cont - 1, cont, n - 1, d - 1);
    } else {
      var q := (x + cont - 1) / cont;
      assert x + cont - 1 == q * cont + (x + cont - 1) % cont;
    }
  }

  /** Main result on wrapHeight, for cells of any width: it is the number of rows if and only
      if what the rows lose is made up for in the last one. */
  lemma {:induction false} WrapHeightExact(gs: seq<Glyph>, vpWidth: Pos)
    ensures |PartsOf(gs, vpWidth)| == WrapHeight(GlyphWidth(gs), vpWidth) <==> FillsRows(gs, vpWidth)
  {
    hide *;
    var parts, cont := PartsOf(gs, vpWidth), ContinuationWidth(vpWidth);
    var x := GlyphWidth(gs) - vpWidth;
    RowsOrOne(gs, vpWidth);
    if x > 0 {
      PartsOfLine(gs, vpWidth);
      if |parts| >= 2 {
        WidthByRows(parts, vpWidth, cont);
        RowsFromWidth(x, |parts|, cont, GlyphWidth(parts[|parts| - 1]) - Lost(parts, vpWidth, cont));
      } else {
        DivGrows(cont, x + cont - 1, cont);
        DivUnique(cont, cont, 1, 0);
      }
    }
  }

  lemma {:induction false} RowsOrOne(gs: seq<Glyph>, vpWidth: Pos)
    ensures var parts, cont, w := PartsOf(gs, vpWidth), ContinuationWidth(vpWidth), GlyphWidth(gs);
            && parts != []
            && (w <= vpWidth ==> |parts| == 1 && WrapHeight(w, vpWidth) == 1)
            && (w > vpWidth ==> WrapHeight(w, vpWidth) == 1 + (w - vpWidth + cont - 1) / cont)
            && (FillsRows(gs, vpWidth) <==>
                  if |parts| == 1 then w <= vpWidth
                  else 0 < GlyphWidth(parts[|parts| - 1]) - Lost(parts, vpWidth, cont) <= cont)
  {
    PartsOfLine(gs, vpWidth);
    hide GlyphWidth, Lost, Broken, Flatten;
  }

  /** No row is wider than its room when every cell fits in every row. */
  lemma {:induction false} RowsFit(gs: seq<Glyph>, limit: Pos, cont: Pos)
    requires OneOrTwo(gs) && limit >= 2 && cont >= 2
    ensures var parts := Broken(gs, limit, cont);
            && Lost(parts, limit, cont) >= 0
            && (parts != [] ==> GlyphWidth(parts[|parts| - 1]) <= Max(limit, cont))
            && (|parts| == 1 ==> GlyphWidth(gs) <= limit)
            && (|parts| >= 2 ==> GlyphWidth(parts[|parts| - 1]) <= cont)
    decreases |gs|
  {
    hide Broken, Lost, Fit, RowLength, GlyphWidth;
    if gs == [] {
      BrokenNothing(limit, cont);
    } else {
      var k, first, tail := FirstPart(gs, limit, cont);
      var rest := Broken(tail, cont, cont);
      RowsFit(tail, cont, cont);
      LostStep([first] + rest, limit, cont);
      assert ([first] + rest)[1..] == rest;
    }
  }

  lemma {:induction false} BrokenNothing(limit: Pos, cont: Pos)
    ensures Broken([], limit, cont) == [] && Lost([], limit, cont) == 0
  {
  }

  /** The first row and what comes after it. */
  lemma {:induction false} FirstPart(gs: seq<Glyph>, limit: Pos, cont: Pos)
    returns (k: nat, first: seq<Glyph>, tail: seq<Glyph>)
    requires gs != [] && OneOrTwo(gs) && limit >= 2
    ensures 1 <= k <= |gs| && first == gs[..k] && tail == gs[k..] && OneOrTwo(tail)
    ensures Broken(gs, limit, cont) == [first] + Broken(tail, cont, cont)
    ensures GlyphWidth(first) <= limit
    ensures Broken(tail, cont, cont) == [] ==> first == gs
  {
    k := RowLength(gs, limit);
    first, tail := gs[..k], gs[k..];
    FitIsMaximal(gs, limit);
    assert Fit(gs, limit) >= 1;
    assert tail == [] ==> first == gs;
    hide GlyphWidth, Fit;
  }

  /** For cells of one or two columns, and two columns of room in continuation rows: the
      count is right exactly if the rows lose less than the last one holds. */
  lemma {:induction false} WrapHeightOfWideCells(gs: seq<Glyph>, vpWidth: Pos)
    requires OneOrTwo(gs) && vpWidth >= 4
    ensures var parts := PartsOf(gs, vpWidth);
            FillsRows(gs, vpWidth) <==>
            |parts| <= 1 || Lost(parts, vpWidth, ContinuationWidth(vpWidth)) < GlyphWidth(parts[|parts| - 1])
  {
    if GlyphWidth(gs) > vpWidth {
      PartsOfLine(gs, vpWidth);
      RowsFit(gs, vpWidth, ContinuationWidth(vpWidth));
    }
  }

  lemma NarrowFills(gs: seq<Glyph>, vpWidth: Pos)
    requires Narrow(gs)
    ensures FillsRows(gs, vpWidth)
  {
    if GlyphWidth(gs) > vpWidth {
      WrapHeightCountsRows(gs, vpWidth);
    }
    WrapHeightExact(gs, vpWidth);
  }

  /** A cell of two columns is no harm by itself: it fits in a row of three. */
  lemma WideCellCounted()
    ensures FillsRows([Glyph("w", 2, [])], 3)
  {
    assert [Glyph("w", 2, [])][1..] == [];
  }

  /** With a wide cell the count may be wrong: three columns of room leave one for continuation
      rows, where two wide cells take two rows of their own but count as four columns. */
  lemma WideCellsBreakWrapHeight()
    ensures var wide := Glyph("w", 2, []);
            |Broken([wide, wide, wide], 3, 1)| == 3 && WrapHeight(GlyphWidth([wide, wide, wide]), 3) == 4
  {
    var wide := Glyph("w", 2, []);
    var g3, g2, g1 := [wide, wide, wide], [wide, wide], [wide];
    assert g3[1..] == g2 && g2[1..] == g1 && g1[1..] == [];
    assert g3[..1] == g1 && g2[..1] == g1 && g1[..1] == g1;
    assert Fit(g3, 3) == 1 && Fit(g2, 1) == 0 && Fit(g1, 1) == 0;
    assert GlyphWidth(g1) == 2 && GlyphWidth(g2) == 4 && GlyphWidth(g3) == 6;
    assert Broken(g1, 1, 1) == [g1] + [];
    assert Broken(g2, 1, 1) == [g1] + Broken(g1, 1, 1);
    assert Broken(g3, 3, 1) == [g1] + Broken(g2, 1, 1);
  }

  // ---- wrapLines ----

  /** Which line a row shows, and from which of its columns. */
  datatype LineMap = LineMap(logicalLine: int, colOffset: int)

  /** ansi.Cut: the cells that lie wholly inside columns [a, b). */
  function Cut(gs: seq<Glyph>, col: int, a: int, b: int): seq<Glyph> {
    if gs == [] then []
    else (if a <= col && col + gs[0].w <= b then [gs[0]] else []) + Cut(gs[1..], col + gs[0].w, a, b)
  }

  function PartsOf(gs: seq<Glyph>, width: int): seq<seq<Glyph>> {
    if width <= 0 || GlyphWidth(gs) <= width then [gs]
    else Broken(gs, width, ContinuationWidth(width))
  }

  /** The indicator before every part but, unless `firstIsCont`, the first. */
  function Prefixed(parts: seq<seq<Glyph>>, firstIsCont: bool): (r: seq<seq<Glyph>>)
    ensures |r| == |parts|
    ensures forall i :: 0 <= i < |parts| ==>
              r[i] == if i > 0 || firstIsCont then Shown(INDICATOR, []) + parts[i] else parts[i]
  {
    seq(|parts|, i requires 0 <= i < |parts| =>
      if i > 0 || firstIsCont then Shown(INDICATOR, []) + parts[i] else parts[i])
  }

  function MapLine(line: int, parts: seq<seq<Glyph>>, col: int): (m: seq<LineMap>)
    ensures |m| == |parts|
  {
    if parts == [] then []
    else [LineMap(line, col)] + MapLine(line, parts[1..], col + GlyphWidth(parts[0]))
  }

  function WrapAll(lines: seq<seq<Glyph>>, width: int): seq<seq<Glyph>> {
    if lines == [] then []
    else Prefixed(PartsOf(lines[0], width), false) + WrapAll(lines[1..], width)
  }

  function MapAll(lines: seq<seq<Glyph>>, width: int, first: int): (m: seq<LineMap>)
    ensures |m| == |WrapAll(lines, width)|
  {
    if lines == [] then []
    else MapLine(first, PartsOf(lines[0], width), 0) + MapAll(lines[1..], width, first + 1)
  }

  predicate OneOrTwo(gs: seq<Glyph>) { forall i :: 0 <= i < |gs| ==> gs[i].w <= 2 }

  lemma {:induction false} CutPast(gs: seq<Glyph>, col: int, a: int, b: int)
    requires b <= col
    ensures Cut(gs, col, a, b) == []
  {
    if gs != [] {
      CutPast(gs[1..], col + gs[0].w, a, b);
    }
  }

  lemma {:induction false} CutFits(gs: seq<Glyph>, col: int, a: int, b: int)
    requires a <= col
    ensures Cut(gs, col, a, b) == gs[..Fit(gs, b - col)]
  {
    if gs != [] {
      var col' := col + gs[0].w;
      if col' <= b {
        CutFits(gs[1..], col', a, b);
        var k := Fit(gs[1..], b - col');
        assert gs[..k + 1] == [gs[0]] + gs[1..][..k];
      } else {
        CutPast(gs[1..], col', a, b);
      }
    }
  }

  /** A cut that starts on a cell boundary. */
  lemma CutSkips(gs: seq<Glyph>, col: int, a: int, b: int)
    requires gs != [] && col < a
    ensures Cut(gs, col, a, b) == Cut(gs[1..], col + gs[0].w, a, b)
  {
  }

  lemma {:induction false} WidthStep(gs: seq<Glyph>)
    ensures GlyphWidth(gs) == if gs == [] then 0 else gs[0].w + GlyphWidth(gs[1..])
  {
  }

  lemma {:induction false} CutAt(done: seq<Glyph>, rem: seq<Glyph>, col: int, b: int)
    requires col + GlyphWidth(done) <= b
    ensures Cut(done + rem, col, col + GlyphWidth(done), b) == rem[..Fit(rem, b - col - GlyphWidth(done))]
  {
    hide *;
    WidthStep(done);
    if done == [] {
      assert done + rem == rem;
      CutFits(rem, col, col, b);
    } else {
      var gs, tail := done + rem, done[1..];
      assert gs[1..] == tail + rem && gs[0] == done[0];
      CutSkips(gs, col, col + GlyphWidth(done), b);
      CutAt(tail, rem, col + done[0].w, b);
    }
  }

  lemma {:induction false} FitAll(gs: seq<Glyph>, room: int)
    requires GlyphWidth(gs) <= room
    ensures Fit(gs, room) == |gs|
  {
    if gs != [] {
      FitAll(gs[1..], room - gs[0].w);
    }
  }

  /** One step of the cutting loop, with its widened cut for a straddling wide cell. */
  lemma CutRow(done: seq<Glyph>, rem: seq<Glyph>, segW: Pos)
    requires rem != [] && OneOrTwo(rem)
    ensures var gs, col := done + rem, GlyphWidth(done);
            var end := Min(col + segW, GlyphWidth(gs));
            var row := rem[..RowLength(rem, segW)];
            && (GlyphWidth(Cut(gs, 0, col, end)) != 0 ==> Cut(gs, 0, col, end) == row)
            && (GlyphWidth(Cut(gs, 0, col, end)) == 0 ==> Cut(gs, 0, col, Min(end + 1, GlyphWidth(gs))) == row)
            && GlyphWidth(row) > 0
  {
    hide *;
    var gs, col := done + rem, GlyphWidth(done);
    GlyphWidthAppend(done, rem);
    var width := GlyphWidth(rem);
    RowLengthIs(rem, segW);
    PrefixWidth(rem, RowLength(rem, segW));
    FitTo(rem, segW);
    var end := Min(col + segW, col + width);
    MinIs(col + segW, col + width);
    MinIs(segW, width);
    CutAt(done, rem, 0, end);
    if Fit(rem, segW) == 0 {
      WideFirst(rem, segW);
      PrefixWidth(rem, 0);
      MinIs(end + 1, col + width);
      CutAt(done, rem, 0, Min(end + 1, col + width));
    }
  }

  lemma {:induction false} MinIs(a: int, b: int)
    ensures Min(a, b) == if a < b then a else b
  {
  }

  lemma {:induction false} RowLengthIs(gs: seq<Glyph>, limit: Pos)
    requires gs != []
    ensures RowLength(gs, limit) == if Fit(gs, limit) == 0 then 1 else Fit(gs, limit)
  {
  }

  lemma {:induction false} PrefixWidth(gs: seq<Glyph>, k: nat)
    requires k <= |gs|
    ensures 0 <= GlyphWidth(gs[..k]) && (GlyphWidth(gs[..k]) == 0 <==> k == 0)
  {
    assert k > 0 ==> gs[..k][0] == gs[0];
  }

  /** Room beyond the end makes no difference. */
  lemma {:induction false} FitTo(gs: seq<Glyph>, room: int)
    ensures Fit(gs, Min(room, GlyphWidth(gs))) == Fit(gs, room)
  {
    if GlyphWidth(gs) <= room {
      FitAll(gs, room);
      FitAll(gs, GlyphWidth(gs));
    }
    hide Fit;
  }

  /** The only row that takes nothing has one column before a cell of two. */
  lemma {:induction false} WideFirst(rem: seq<Glyph>, segW: Pos)
    requires rem != [] && OneOrTwo(rem) && Fit(rem, segW) == 0
    ensures segW == 1 && GlyphWidth(rem) >= 2 && Fit(rem, 2) == 1 && GlyphWidth(rem[..1]) == 2
  {
    assert rem[0].w == 2;
    assert rem[..1][1..] == [];
  }

  method WrapLines(lines: seq<seq<Glyph>>, width: int) returns (wrapped: seq<seq<Glyph>>, mapping: seq<LineMap>)
    requires forall i :: 0 <= i < |lines| ==> OneOrTwo(lines[i])
    ensures wrapped == WrapAll(lines, width)
    ensures mapping == MapAll(lines, width, 0)
  {
    wrapped, mapping := [], [];
    var i := 0;
    assert lines[0..] == lines;
    while i < |lines|
      invariant 0 <= i <= |lines|
      invariant wrapped + WrapAll(lines[i..], width) == WrapAll(lines, width)
      invariant mapping + MapAll(lines[i..], width, i) == MapAll(lines, width, 0)
    {
      assert lines[i..][1..] == lines[i + 1..];
      var segs, rows := WrapLine(lines[i], i, width);
      ghost var restW, restM := WrapAll(lines[i + 1..], width), MapAll(lines[i + 1..], width, i + 1);
      Assoc(wrapped, segs, restW);
      Assoc(mapping, rows, restM);
      wrapped := wrapped + segs;
      mapping := mapping + rows;
      i := i + 1;
    }
    assert lines[i..] == [];
  }

  method WrapLine(line: seq<Glyph>, i: int, width: int) returns (segs: seq<seq<Glyph>>, rows: seq<LineMap>)
    requires OneOrTwo(line)
    ensures segs == Prefixed(PartsOf(line, width), false)
    ensures rows == MapLine(i, PartsOf(line, width), 0)
  {
    hide *;
    var lineWidth := GlyphWidth(line);
    if width <= 0 || lineWidth <= width {
      OnlyRow(line, width, i);
      return [line], [LineMap(i, 0)];
    }
    var contWidth := ContinuationWidth(width);
    segs, rows := [], [];
    var col := 0;
    ghost var done, rem := [], line;
    ghost var left := Broken(line, width, contWidth);
    ghost var all := left;
    FirstRow(line, width, i);
    while col < lineWidth
      invariant line == done + rem && col == GlyphWidth(done) && OneOrTwo(rem)
      invariant lineWidth == col + GlyphWidth(rem)
      invariant left == Broken(rem, if col == 0 then width else contWidth, contWidth)
      invariant all == segs + left
      invariant MapLine(i, all, 0) == rows + MapLine(i, left, col)
      decreases lineWidth - col
    {
      var segW := if col == 0 then width else contWidth;
      var end := Min(col + segW, lineWidth);
      var seg := Cut(line, 0, col, end);
      var actualW := GlyphWidth(seg);
      if actualW == 0 {
        seg := Cut(line, 0, col, Min(end + 1, lineWidth));
        actualW := GlyphWidth(seg);
      }
      ghost var rem', left';
      rem', left' := NextRow(line, done, rem, segW, contWidth, i, col, seg);
      Assoc(segs, [seg], left');
      Assoc(rows, [LineMap(i, col)], MapLine(i, left', col + actualW));
      done, rem, left := done + seg, rem', left';
      segs := segs + [seg];
      rows := rows + [LineMap(i, col)];
      col := col + actualW;
    }
    LastRow(rem, if col == 0 then width else contWidth, contWidth, i, col);
    assert segs + [] == segs && rows + [] == rows;
    segs := Prefixed(segs, false);
  }

  lemma {:induction false} OnlyRow(line: seq<Glyph>, width: int, i: int)
    requires width <= 0 || GlyphWidth(line) <= width
    ensures [line] == Prefixed(PartsOf(line, width), false)
    ensures [LineMap(i, 0)] == MapLine(i, PartsOf(line, width), 0)
  {
  }

  lemma {:induction false} FirstRow(line: seq<Glyph>, width: int, i: int)
    requires width > 0 && GlyphWidth(line) > width
    ensures PartsOf(line, width) == Broken(line, width, ContinuationWidth(width))
    ensures line == [] + line && GlyphWidth([]) == 0
    ensures MapLine(i, PartsOf(line, width), 0) == [] + MapLine(i, PartsOf(line, width), 0)
    ensures PartsOf(line, width) == [] + PartsOf(line, width)
  {
  }

  lemma {:induction false} LastRow(rem: seq<Glyph>, limit: Pos, cont: Pos, i: int, col: int)
    requires GlyphWidth(rem) == 0
    ensures Broken(rem, limit, cont) == [] && MapLine(i, Broken(rem, limit, cont), col) == []
  {
  }

  lemma NextRow(
      line: seq<Glyph>, done: seq<Glyph>, rem: seq<Glyph>, segW: int, cont: Pos, i: int, col: int, seg: seq<Glyph>)
    returns (rem': seq<Glyph>, left': seq<seq<Glyph>>)
    requires line == done + rem && OneOrTwo(rem) && GlyphWidth(rem) > 0 && 0 < segW
    requires col == GlyphWidth(done)
    requires var end := Min(col + segW, GlyphWidth(line));
             var first := Cut(line, 0, col, end);
             seg == if GlyphWidth(first) == 0 then Cut(line, 0, col, Min(end + 1, GlyphWidth(line))) else first
    ensures GlyphWidth(seg) > 0
    ensures line == (done + seg) + rem' && OneOrTwo(rem')
    ensures GlyphWidth(done + seg) == col + GlyphWidth(seg)
    ensures GlyphWidth(rem) == GlyphWidth(seg) + GlyphWidth(rem')
    ensures left' == Broken(rem', cont, cont)
    ensures Broken(rem, segW, cont) == [seg] + left'
    ensures MapLine(i, Broken(rem, segW, cont), col) == [LineMap(i, col)] + MapLine(i, left', col + GlyphWidth(seg))
  {
    hide *;
    assert rem != [] by { EmptyWidth(); }
    CutRow(done, rem, segW);
    var k := RowLength(rem, segW);
    rem', left' := rem[k..], Broken(rem[k..], cont, cont);
    assert seg == rem[..k];
    assert rem == seg + rem';
    GlyphWidthAppend(seg, rem');
    GlyphWidthAppend(done, seg);
    Assoc(done, seg, rem');
    BrokenStep(rem, segW, cont, i, col);
  }

  lemma EmptyWidth()
    ensures GlyphWidth([]) == 0
  {
  }

  lemma {:induction false} BrokenStep(rem: seq<Glyph>, limit: Pos, cont: Pos, i: int, col: int)
    requires rem != []
    ensures var k := RowLength(rem, limit);
            var rest := Broken(rem[k..], cont, cont);
            && Broken(rem, limit, cont) == [rem[..k]] + rest
            && MapLine(i, [rem[..k]] + rest, col) == [LineMap(i, col)] + MapLine(i, rest, col + GlyphWidth(rem[..k]))
    ensures OneOrTwo(rem) ==> OneOrTwo(rem[RowLength(rem, limit)..])
  {
    var k := RowLength(rem, limit);
    assert ([rem[..k]] + Broken(rem[k..], cont, cont))[1..] == Broken(rem[k..], cont, cont);
  }

  // ---- logicalToVisual ----

  datatype Position = Position(line: int, colStart: int, colEnd: int)

  predicate After(m: LineMap, pos: Position) {
    if m.logicalLine != pos.line then m.logicalLine > pos.line else m.colOffset > pos.colStart
  }

  predicate Precedes(a: LineMap, b: LineMap) {
    a.logicalLine < b.logicalLine || (a.logicalLine == b.logicalLine && a.colOffset < b.colOffset)
  }

  predicate SortedMap(m: seq<LineMap>) {
    forall i, j :: 0 <= i < j < |m| ==> Precedes(m[i], m[j])
  }

  /** The row that shows column `pos.colStart` of line `pos.line`. */
  predicate IsRow(m: seq<LineMap>, pos: Position, r: int) {
    && 0 <= r < |m|
    && m[r].logicalLine == pos.line && m[r].colOffset <= pos.colStart
    && (r + 1 < |m| ==> After(m[r + 1], pos))
  }

  method LogicalToVisual(m: seq<LineMap>, pos: Position) returns (line: int, colStart: int, colEnd: int)
    requires SortedMap(m)
    ensures (exists r :: IsRow(m, pos, r)) ==>
              && IsRow(m, pos, line)
              && var shift := (if m[line].colOffset > 0 then INDICATOR_WIDTH else 0) - m[line].colOffset;
                 colStart == pos.colStart + shift && colEnd == pos.colEnd + shift
    ensures !(exists r :: IsRow(m, pos, r)) ==> line == pos.line && colStart == pos.colStart && colEnd == pos.colEnd
  {
    var lo, hi := 0, |m|;
    while lo < hi
      invariant 0 <= lo <= hi <= |m|
      invariant forall i :: 0 <= i < lo ==> !After(m[i], pos)
      invariant forall i :: hi <= i < |m| ==> After(m[i], pos)
    {
      var mid := (lo + hi) / 2;
      if !After(m[mid], pos) {
        lo := mid + 1;
      } else {
        hi := mid;
      }
    }
    var bestRow := -1;
    if lo > 0 && m[lo - 1].logicalLine == pos.line {
      bestRow := lo - 1;
      assert IsRow(m, pos, bestRow);
    }
    if bestRow < 0 {
      return pos.line, pos.colStart, pos.colEnd;
    }
    colStart := pos.colStart - m[bestRow].colOffset;
    colEnd := pos.colEnd - m[bestRow].colOffset;
    if m[bestRow].colOffset > 0 {
      colStart := colStart + INDICATOR_WIDTH;
      colEnd := colEnd + INDICATOR_WIDTH;
    }
    line := bestRow;
  }

  datatype Found = Nothing | Found(g: Glyph)

  /** The glyph that covers a display column. */
  function GlyphAt(gs: seq<Glyph>, col: int): Found {
    if gs == [] || col < 0 then Nothing
    else if col < gs[0].w then Found(gs[0])
    else GlyphAt(gs[1..], col - gs[0].w)
  }

  lemma {:induction false} GlyphAtAppend(a: seq<Glyph>, b: seq<Glyph>, col: nat)
    ensures GlyphAt(a + b, col) == if col < GlyphWidth(a) then GlyphAt(a, col) else GlyphAt(b, col - GlyphWidth(a))
  {
    if a == [] {
      assert a + b == b;
    } else {
      assert (a + b)[1..] == a[1..] + b;
      if col >= a[0].w {
        GlyphAtAppend(a[1..], b, col - a[0].w);
      }
    }
  }

  /** Only the last part of a line may be empty: it is the whole of an empty line. */
  predicate NoEmptyPart(parts: seq<seq<Glyph>>) {
    parts != [] && forall i :: 0 <= i < |parts| - 1 ==> parts[i] != []
  }

  lemma {:induction false} GreedyNonEmpty(parts: seq<seq<Glyph>>, limit: Pos, cont: Pos)
    requires IsGreedy(parts, limit, cont)
    ensures forall i :: 0 <= i < |parts| ==> parts[i] != []
  {
    if parts != [] {
      var tail := parts[1..];
      GreedyNonEmpty(tail, cont, cont);
      forall i | 0 <= i < |parts| ensures parts[i] != [] {
        if i > 0 {
          assert parts[i] == tail[i - 1];
        }
      }
    }
  }

  lemma PartsOfLine(gs: seq<Glyph>, width: int)
    ensures Flatten(PartsOf(gs, width)) == gs && NoEmptyPart(PartsOf(gs, width))
  {
    if width <= 0 || GlyphWidth(gs) <= width {
      assert Flatten([gs][1..]) == [];
    } else {
      BrokenIsGreedy(gs, width, ContinuationWidth(width));
      GreedyNonEmpty(PartsOf(gs, width), width, ContinuationWidth(width));
      assert gs != [];
    }
  }

  lemma {:induction false} MapLineSorted(line: int, parts: seq<seq<Glyph>>, col: int)
    requires NoEmptyPart(parts)
    ensures SortedMap(MapLine(line, parts, col))
    ensures forall r :: 0 <= r < |parts| ==>
              MapLine(line, parts, col)[r].logicalLine == line && MapLine(line, parts, col)[r].colOffset >= col
    ensures forall r :: 0 < r < |parts| ==> MapLine(line, parts, col)[r].colOffset > col
    ensures MapLine(line, parts, col)[0].colOffset == col
  {
    if |parts| > 1 {
      var tail, col' := parts[1..], col + GlyphWidth(parts[0]);
      assert forall i :: 0 <= i < |tail| - 1 ==> tail[i] == parts[i + 1];
      MapLineSorted(line, tail, col');
      assert parts[0] != [] && col' > col;
      SortedConcat([LineMap(line, col)], MapLine(line, tail, col'));
    }
  }

  lemma SortedConcat(a: seq<LineMap>, b: seq<LineMap>)
    requires SortedMap(a) && SortedMap(b)
    requires forall i, j :: 0 <= i < |a| && 0 <= j < |b| ==> Precedes(a[i], b[j])
    ensures SortedMap(a + b)
  {
  }

  /** The mapping that wrapLines builds is sorted, as the binary search requires. */
  lemma {:induction false} MapAllSorted(lines: seq<seq<Glyph>>, width: int, first: int)
    ensures SortedMap(MapAll(lines, width, first))
    ensures forall r :: 0 <= r < |MapAll(lines, width, first)| ==> MapAll(lines, width, first)[r].logicalLine >= first
  {
    if lines != [] {
      var parts := PartsOf(lines[0], width);
      PartsOfLine(lines[0], width);
      MapLineSorted(first, parts, 0);
      MapAllSorted(lines[1..], width, first + 1);
      hide PartsOf, SortedMap;
      SortedConcat(MapLine(first, parts, 0), MapAll(lines[1..], width, first + 1));
    }
  }

  /** Row `r` of a mapped line shows column `c`: the row starts at or before it and the
      next one after it. */
  predicate Holds(m: seq<LineMap>, r: nat, c: int) {
    r < |m| && m[r].colOffset <= c && (r + 1 < |m| ==> c < m[r + 1].colOffset)
  }

  lemma {:induction false} LineRowShows(line: int, parts: seq<seq<Glyph>>, col: int, r: nat, c: int)
    requires NoEmptyPart(parts) && Holds(MapLine(line, parts, col), r, c)
    requires c - col < GlyphWidth(Flatten(parts))
    ensures col <= MapLine(line, parts, col)[r].colOffset
    ensures GlyphAt(parts[r], c - MapLine(line, parts, col)[r].colOffset) == GlyphAt(Flatten(parts), c - col)
  {
    MapLineSorted(line, parts, col);
    var tail, w := parts[1..], GlyphWidth(parts[0]);
    if tail == [] {
      assert parts[0] + [] == parts[0];
    } else {
      var m' := MapLine(line, tail, col + w);
      assert forall i :: 0 <= i < |tail| - 1 ==> tail[i] == parts[i + 1];
      MapLineSorted(line, tail, col + w);
      hide SortedMap, Precedes;
      GlyphWidthAppend(parts[0], Flatten(tail));
      GlyphAtAppend(parts[0], Flatten(tail), c - col);
      if r == 0 {
        assert MapLine(line, parts, col)[1] == m'[0];
      } else {
        assert MapLine(line, parts, col)[r] == m'[r - 1] && parts[r] == tail[r - 1];
        assert Holds(m', r - 1, c);
        LineRowShows(line, tail, col + w, r - 1, c);
      }
    }
  }

  lemma ShownIndicator()
    ensures Shown(INDICATOR, []) == [Glyph("->", 1, [2, 38]), Glyph(" ", 1, [])]
    ensures StyleAfter(INDICATOR, []) == [] && Width(INDICATOR) == INDICATOR_WIDTH
  {
    var t1, t2, t3 := [Sgr(38), Cell("->", 1), Reset, Cell(" ", 1)], [Cell("->", 1), Reset, Cell(" ", 1)],
      [Reset, Cell(" ", 1)];
    var t4 := [Cell(" ", 1)];
    assert INDICATOR[1..] == t1 && t1[1..] == t2 && t2[1..] == t3 && t3[1..] == t4 && t4[1..] == [];
    assert [] + [2] == [2] && [2] + [38] == [2, 38];
    assert Shown(t4, []) == [Glyph(" ", 1, [])] && StyleAfter(t4, []) == [] && Width(t4) == 1;
    assert Shown(t3, [2, 38]) == Shown(t4, []) && StyleAfter(t3, [2, 38]) == [] && Width(t3) == 1;
    assert Shown(t2, [2, 38]) == [Glyph("->", 1, [2, 38])] + Shown(t3, [2, 38]);
    assert StyleAfter(t2, [2, 38]) == [] && Width(t2) == 2;
    assert Shown(t1, [2]) == Shown(t2, [2, 38]) && StyleAfter(t1, [2]) == [] && Width(t1) == 2;
  }

  lemma PrefixShift(part: seq<Glyph>, x: nat)
    ensures GlyphAt(Shown(INDICATOR, []) + part, x + INDICATOR_WIDTH) == GlyphAt(part, x)
  {
    var p := [Glyph("->", 1, [2, 38]), Glyph(" ", 1, [])];
    ShownIndicator();
    assert p[1..] == [p[1]] && GlyphWidth([p[1]]) == 1 && GlyphWidth(p) == 2;
    GlyphAtAppend(p, part, x + 2);
  }

  predicate LinesAbove(m: seq<LineMap>, line: int) {
    forall i :: 0 <= i < |m| ==> m[i].logicalLine > line
  }

  /** Where `pos` of line `first` and of the later lines can be found. */
  lemma RowOfLine(a: seq<LineMap>, b: seq<LineMap>, pos: Position, r: int, first: int)
    requires IsRow(a + b, pos, r)
    requires forall i :: 0 <= i < |a| ==> a[i].logicalLine == first
    requires LinesAbove(b, first)
    ensures 0 <= r < |a + b|
    ensures pos.line == first ==> r < |a| && (a + b)[r] == a[r] && Holds(a, r, pos.colStart)
    ensures pos.line > first ==> r >= |a| && (a + b)[r] == b[r - |a|] && IsRow(b, pos, r - |a|)
  {
    if r + 1 < |a| {
      assert (a + b)[r + 1] == a[r + 1];
    } else if |a| <= r && r + 1 < |a + b| {
      assert (a + b)[r + 1] == b[r + 1 - |a|];
    }
  }

  lemma WrapUnfold(lines: seq<seq<Glyph>>, width: int, first: int)
    requires lines != []
    ensures WrapAll(lines, width) == Prefixed(PartsOf(lines[0], width), false) + WrapAll(lines[1..], width)
    ensures MapAll(lines, width, first) ==
            MapLine(first, PartsOf(lines[0], width), 0) + MapAll(lines[1..], width, first + 1)
    ensures Flatten(PartsOf(lines[0], width)) == lines[0] && NoEmptyPart(PartsOf(lines[0], width))
    ensures var m := MapLine(first, PartsOf(lines[0], width), 0);
            && (forall i :: 0 <= i < |m| ==> m[i].logicalLine == first)
            && m[0].colOffset == 0 && (forall i :: 0 < i < |m| ==> m[i].colOffset > 0)
    ensures LinesAbove(MapAll(lines[1..], width, first + 1), first)
  {
    PartsOfLine(lines[0], width);
    MapLineSorted(first, PartsOf(lines[0], width), 0);
    MapAllSorted(lines[1..], width, first + 1);
  }

  /** Main result: the cell shown at the visual column is the cell at the logical one. */
  lemma {:induction false} VisualShowsLogical(lines: seq<seq<Glyph>>, width: int, first: int, pos: Position, r: int)
    requires IsRow(MapAll(lines, width, first), pos, r)
    requires first <= pos.line < first + |lines|
    requires 0 <= pos.colStart < GlyphWidth(lines[pos.line - first])
    ensures var off := MapAll(lines, width, first)[r].colOffset;
            GlyphAt(WrapAll(lines, width)[r], pos.colStart - off + if off > 0 then INDICATOR_WIDTH else 0) ==
            GlyphAt(lines[pos.line - first], pos.colStart)
  {
    hide *;
    assert lines != [];
    var parts, tail := PartsOf(lines[0], width), lines[1..];
    var a, b := MapLine(first, parts, 0), MapAll(tail, width, first + 1);
    var wa, wb := Prefixed(parts, false), WrapAll(tail, width);
    WrapUnfold(lines, width, first);
    RowOfLine(a, b, pos, r, first);
    if pos.line == first {
      LineRowShows(first, parts, 0, r, pos.colStart);
      assert (wa + wb)[r] == wa[r];
      assert lines[pos.line - first] == Flatten(parts);
      if r > 0 {
        PrefixShift(parts[r], pos.colStart - a[r].colOffset);
      }
    } else {
      assert tail[pos.line - first - 1] == lines[pos.line - first];
      VisualShowsLogical(tail, width, first + 1, pos, r - |a|);
      assert (wa + wb)[r] == wb[r - |a|];
    }
  }

  // ---- where a match ends ----

  /** The row after `r` continues the line before the match ends, if there is one. */
  predicate RunsOn(m: seq<LineMap>, pos: Position, r: int) {
    0 <= r && r + 1 < |m| && m[r + 1].logicalLine == pos.line && m[r + 1].colOffset < pos.colEnd
  }

  lemma {:induction false} LineRowWidth(line: int, parts: seq<seq<Glyph>>, col: int, r: nat)
    requires r < |parts|
    ensures MapLine(line, parts, col)[r].colOffset + GlyphWidth(parts[r]) ==
            if r + 1 < |parts| then MapLine(line, parts, col)[r + 1].colOffset else col + GlyphWidth(Flatten(parts))
    decreases |parts|
  {
    var tail, w := parts[1..], GlyphWidth(parts[0]);
    GlyphWidthAppend(parts[0], Flatten(tail));
    var m := MapLine(line, tail, col + w);
    assert MapLine(line, parts, col) == [LineMap(line, col)] + m;
    if r > 0 {
      LineRowWidth(line, tail, col + w, r - 1);
      assert parts[r] == tail[r - 1];
    } else if |parts| > 1 {
      MapLineStart(line, tail, col + w);
    }
  }

  lemma PrefixedWidth(parts: seq<seq<Glyph>>, r: nat)
    requires r < |parts|
    ensures GlyphWidth(Prefixed(parts, false)[r]) == GlyphWidth(parts[r]) + if r > 0 then INDICATOR_WIDTH else 0
  {
    ShownIndicator();
    if r > 0 {
      GlyphWidthAppend(Shown(INDICATOR, []), parts[r]);
      ShownWidth(INDICATOR, []);
    }
  }

  /** Main result on the end of a match. Its visual end lies within the row that shows its
      start if and only if no later row continues the line before the match ends. */
  lemma {:induction false} EndsInItsRow(lines: seq<seq<Glyph>>, width: int, first: int, pos: Position, r: int)
    requires IsRow(MapAll(lines, width, first), pos, r)
    requires first <= pos.line < first + |lines| && 0 <= pos.colStart
    requires pos.colEnd <= GlyphWidth(lines[pos.line - first])
    ensures var off := MapAll(lines, width, first)[r].colOffset;
            pos.colEnd - off + (if off > 0 then INDICATOR_WIDTH else 0) <= GlyphWidth(WrapAll(lines, width)[r]) <==>
            !RunsOn(MapAll(lines, width, first), pos, r)
  {
    hide *;
    assert lines != [];
    var parts, tail := PartsOf(lines[0], width), lines[1..];
    var a, b := MapLine(first, parts, 0), MapAll(tail, width, first + 1);
    var wa, wb := Prefixed(parts, false), WrapAll(tail, width);
    WrapUnfold(lines, width, first);
    RowOfLine(a, b, pos, r, first);
    if pos.line == first {
      LineRowWidth(first, parts, 0, r);
      PrefixedWidth(parts, r);
      assert (wa + wb)[r] == wa[r];
      assert lines[pos.line - first] == Flatten(parts);
      RunsOnInLine(a, b, pos, r, first);
    } else {
      assert tail[pos.line - first - 1] == lines[pos.line - first];
      EndsInItsRow(tail, width, first + 1, pos, r - |a|);
      assert (wa + wb)[r] == wb[r - |a|];
      RunsOnLater(a, b, pos, r);
    }
  }

  lemma RunsOnInLine(a: seq<LineMap>, b: seq<LineMap>, pos: Position, r: nat, first: int)
    requires r < |a| && pos.line == first && LinesAbove(b, first)
    requires forall i :: 0 <= i < |a| ==> a[i].logicalLine == first
    ensures RunsOn(a + b, pos, r) <==> r + 1 < |a| && a[r + 1].colOffset < pos.colEnd
  {
  }

  lemma RunsOnLater(a: seq<LineMap>, b: seq<LineMap>, pos: Position, r: nat)
    requires |a| <= r
    ensures RunsOn(a + b, pos, r) <==> RunsOn(b, pos, r - |a|)
  {
  }

  /** A match in columns [2, 4) of "abcd", wrapped at three columns: it starts in the first
      row, and its visual end is past that row. */
  lemma MatchRunsOn()
    ensures var line := [Glyph("a", 1, []), Glyph("b", 1, []), Glyph("c", 1, []), Glyph("d", 1, [])];
            var m, pos := MapAll([line], 3, 0), Position(0, 2, 4);
            && IsRow(m, pos, 0) && m[0].colOffset == 0 && RunsOn(m, pos, 0)
            && pos.colEnd > GlyphWidth(WrapAll([line], 3)[0])
  {
    var line := [Glyph("a", 1, []), Glyph("b", 1, []), Glyph("c", 1, []), Glyph("d", 1, [])];
    var pos, m := Position(0, 2, 4), MapAll([line], 3, 0);
    FourInThree(line);
    hide *;
    EndsInItsRow([line], 3, 0, pos, 0);
    FirstOfTwo(pos, m);
  }

  lemma FirstOfTwo(pos: Position, m: seq<LineMap>)
    requires m == [LineMap(0, 0), LineMap(0, 3)] && pos == Position(0, 2, 4)
    ensures IsRow(m, pos, 0) && RunsOn(m, pos, 0) && m[0].colOffset == 0
  {
  }

  lemma {:induction false} FourInThree(line: seq<Glyph>)
    requires |line| == 4 && Narrow(line)
    ensures MapAll([line], 3, 0) == [LineMap(0, 0), LineMap(0, 3)] && GlyphWidth(line) == 4
  {
    var tail := line[3..];
    NarrowFit(line, 3);
    NarrowFit(tail, 1);
    NarrowStep(0, line, 3, 1, 0);
    NarrowStep(0, tail, 1, 1, 3);
    assert tail[1..] == [] && [line][1..] == [];
    assert Broken([], 1, 1) == [] && MapLine(0, [], 4) == [];
    assert MapLine(0, Broken(line, 3, 1), 0) == [LineMap(0, 0)] + ([LineMap(0, 3)] + []) ==
           [LineMap(0, 0), LineMap(0, 3)];
    assert MapAll([], 3, 1) == [];
    assert MapAll([line], 3, 0) == [LineMap(0, 0), LineMap(0, 3)] + [] == [LineMap(0, 0), LineMap(0, 3)];
  }

  /** Every position of every line is found. */
  lemma {:induction false} EveryColumnHasARow(lines: seq<seq<Glyph>>, width: int, first: int, pos: Position)
    requires first <= pos.line < first + |lines| && 0 <= pos.colStart
    ensures exists r :: IsRow(MapAll(lines, width, first), pos, r)
  {
    MapAllSorted(lines, width, first);
    var z := LineStart(lines, width, first, pos.line);
    LastNotAfter(MapAll(lines, width, first), pos, z);
  }

  lemma {:induction false} LastNotAfter(m: seq<LineMap>, pos: Position, z: nat)
    requires SortedMap(m) && z < |m| && m[z].logicalLine == pos.line && m[z].colOffset <= pos.colStart
    ensures exists r :: IsRow(m, pos, r)
    decreases |m| - z
  {
    if z + 1 < |m| && !After(m[z + 1], pos) {
      assert Precedes(m[z], m[z + 1]);
      LastNotAfter(m, pos, z + 1);
    } else {
      assert IsRow(m, pos, z);
    }
  }

  lemma {:induction false} MapLineStart(line: int, parts: seq<seq<Glyph>>, col: int)
    requires parts != []
    ensures MapLine(line, parts, col)[0] == LineMap(line, col)
  {
  }

  lemma {:induction false} LineStart(lines: seq<seq<Glyph>>, width: int, first: int, line: int) returns (z: nat)
    requires first <= line < first + |lines|
    ensures z < |MapAll(lines, width, first)| && MapAll(lines, width, first)[z] == LineMap(line, 0)
  {
    var a, b := MapLine(first, PartsOf(lines[0], width), 0), MapAll(lines[1..], width, first + 1);
    assert MapAll(lines, width, first) == a + b;
    hide MapAll, WrapAll, PartsOf;
    if line == first {
      PartsOfLine(lines[0], width);
      MapLineStart(first, PartsOf(lines[0], width), 0);
      z := 0;
    } else {
      z := LineStart(lines[1..], width, first + 1, line);
      z := |a| + z;
    }
  }

  // ---- finding a column's row by arithmetic ----

  /** The row of its line that column `col` is in, for cells of one column. */
  function RowInLine(col: int, vpWidth: Pos): int {
    if col >= vpWidth then 1 + (col - vpWidth) / ContinuationWidth(vpWidth) else 0
  }

  lemma RowInLineFits(col: int, width: int, vpWidth: Pos)
    requires 0 <= col < width
    ensures 0 <= RowInLine(col, vpWidth) < WrapHeight(width, vpWidth)
  {
    var cont := ContinuationWidth(vpWidth);
    if col >= vpWidth {
      DivGrows(col - vpWidth + cont, width - vpWidth + cont - 1, cont);
      DivStep(col - vpWidth, cont);
      DivGrows(0, col - vpWidth, cont);
      DivUnique(0, cont, 0, 0);
    } else if width > vpWidth {
      DivGrows(0, width - vpWidth + cont - 1, cont);
      DivUnique(0, cont, 0, 0);
    }
  }

  lemma DivGrows(a: int, b: int, c: Pos)
    requires a <= b
    ensures a / c <= b / c
  {
    var q, r := a / c, b / c;
    assert a == q * c + a % c && b == r * c + b % c;
    if q > r {
      AtLeastOne(q - r, c);
    }
  }

  lemma RowsDown(d: nat, cont: Pos)
    ensures d / cont == if d >= cont then 1 + (d - cont) / cont else 0
    ensures d / cont >= 0
  {
    if d >= cont {
      DivStep(d - cont, cont);
    } else {
      DivUnique(d, cont, 0, d);
    }
    DivGrows(0, d, cont);
    DivUnique(0, cont, 0, 0);
  }

  lemma NarrowStep(line: int, gs: seq<Glyph>, limit: Pos, cont: Pos, col: int)
    requires Narrow(gs) && gs != []
    ensures var k := Min(|gs|, limit);
            MapLine(line, Broken(gs, limit, cont), col) ==
            [LineMap(line, col)] + MapLine(line, Broken(gs[k..], cont, cont), col + k)
  {
    NarrowFit(gs, limit);
    var k := Min(|gs|, limit);
    NarrowFit(gs[..k], limit);
    var rest := Broken(gs[k..], cont, cont);
    assert Broken(gs, limit, cont) == [gs[..k]] + rest && ([gs[..k]] + rest)[1..] == rest;
  }

  lemma {:induction false} NarrowHolds(line: int, gs: seq<Glyph>, limit: Pos, cont: Pos, col: int, c: int)
    requires Narrow(gs) && 0 <= c - col < |gs|
    ensures var r := if c - col >= limit then 1 + (c - col - limit) / cont else 0;
            r >= 0 && Holds(MapLine(line, Broken(gs, limit, cont), col), r, c)
    decreases |gs|
  {
    var k := Min(|gs|, limit);
    var first, tail := gs[..k], gs[k..];
    var rest := Broken(tail, cont, cont);
    var m := MapLine(line, rest, col + k);
    NarrowStep(line, gs, limit, cont, col);
    hide Broken, MapLine;
    if c - col >= limit {
      NarrowHolds(line, tail, cont, cont, col + k, c);
      RowsDown(c - col - limit, cont);
    } else if rest != [] {
      MapLineStart(line, rest, col + k);
    }
  }

  // ---- the row that a column is really in ----

  function RowAt(parts: seq<seq<Glyph>>, c: int): (r: nat)
    ensures parts != [] ==> r < |parts|
  {
    if |parts| <= 1 || c < GlyphWidth(parts[0]) then 0 else 1 + RowAt(parts[1..], c - GlyphWidth(parts[0]))
  }

  /** The columns in the rows above `r`. */
  function Above(parts: seq<seq<Glyph>>, r: nat): nat
    requires r <= |parts|
  {
    if r == 0 then 0 else GlyphWidth(parts[0]) + Above(parts[1..], r - 1)
  }

  lemma {:induction false} RowAtShows(parts: seq<seq<Glyph>>, c: nat)
    requires parts != []
    ensures var r := RowAt(parts, c);
            Above(parts, r) <= c && GlyphAt(parts[r], c - Above(parts, r)) == GlyphAt(Flatten(parts), c)
    decreases |parts|
  {
    var tail := parts[1..];
    if |parts| == 1 {
      assert parts[0] + Flatten(tail) == parts[0];
    } else {
      GlyphAtAppend(parts[0], Flatten(tail), c);
      if c >= GlyphWidth(parts[0]) {
        RowAtShows(tail, c - GlyphWidth(parts[0]));
      }
    }
  }

  /** The rows above `r` hold their rooms' columns less what they lose. */
  lemma {:induction false} AboveByRows(parts: seq<seq<Glyph>>, r: nat, limit: int, cont: int)
    requires 1 <= r < |parts|
    ensures Above(parts, r) == limit + (r - 1) * cont - Lost(parts[..r + 1], limit, cont)
    decreases r
  {
    var tail := parts[1..];
    assert parts[..r + 1][1..] == tail[..r];
    if r > 1 {
      AboveByRows(tail, r - 1, cont, cont);
      assert (r - 1) * cont == cont + (r - 2) * cont;
    }
  }

  /** Column `c` of its row, less what the rows above lost, is within a continuation row. */
  predicate ColumnCounted(gs: seq<Glyph>, vpWidth: Pos, c: int) {
    var parts, cont := PartsOf(gs, vpWidth), ContinuationWidth(vpWidth);
    var r := RowAt(parts, c);
    if r == 0 || r >= |parts| then c < vpWidth
    else 0 <= c - Above(parts, r) - Lost(parts[..r + 1], vpWidth, cont) < cont
  }

  /** Main result on finding the row of a column by arithmetic, for cells of any width. */
  lemma {:induction false} RowInLineExact(gs: seq<Glyph>, vpWidth: Pos, c: nat)
    ensures RowInLine(c, vpWidth) == RowAt(PartsOf(gs, vpWidth), c) <==> ColumnCounted(gs, vpWidth, c)
  {
    var parts, cont := PartsOf(gs, vpWidth), ContinuationWidth(vpWidth);
    PartsOfLine(gs, vpWidth);
    var r := RowAt(parts, c);
    if c >= vpWidth {
      DivGrows(0, c - vpWidth, cont);
      DivUnique(0, cont, 0, 0);
    }
    if r >= 1 {
      AboveByRows(parts, r, vpWidth, cont);
      var d := c - Above(parts, r) - Lost(parts[..r + 1], vpWidth, cont);
      ColumnFromRow(c - vpWidth, r, cont, d);
    }
  }

  lemma ColumnFromRow(x: int, r: nat, cont: Pos, d: int)
    requires r >= 1 && x == (r - 1) * cont + d
    ensures x >= 0 && x / cont == r - 1 <==> 0 <= d < cont
  {
    if 0 <= d < cont {
      DivUnique(x, cont, r - 1, d);
      if r > 1 {
        AtLeastOne(r - 1, cont);
      }
    } else if x >= 0 {
      assert x == (x / cont) * cont + x % cont;
    }
  }

  lemma {:induction false} HoldsRowAt(line: int, parts: seq<seq<Glyph>>, col: int, r: nat, c: int)
    requires NoEmptyPart(parts) && c >= col && Holds(MapLine(line, parts, col), r, c)
    ensures RowAt(parts, c - col) == r
    decreases |parts|
  {
    MapLineSorted(line, parts, col);
    if |parts| > 1 {
      var tail, col' := parts[1..], col + GlyphWidth(parts[0]);
      var m' := MapLine(line, tail, col');
      assert forall i :: 0 <= i < |tail| - 1 ==> tail[i] == parts[i + 1];
      MapLineSorted(line, tail, col');
      assert MapLine(line, parts, col) == [LineMap(line, col)] + m';
      hide SortedMap, Precedes;
      if r == 0 {
        assert c < m'[0].colOffset;
      } else {
        assert Holds(m', r - 1, c);
        HoldsRowAt(line, tail, col', r - 1, c);
      }
    }
  }

  lemma NarrowColumns(gs: seq<Glyph>, vpWidth: Pos, c: nat)
    requires Narrow(gs) && c < |gs|
    ensures ColumnCounted(gs, vpWidth, c)
  {
    var parts := PartsOf(gs, vpWidth);
    NarrowFit(gs, 0);
    PartsOfLine(gs, vpWidth);
    if GlyphWidth(gs) > vpWidth {
      NarrowHolds(0, gs, vpWidth, ContinuationWidth(vpWidth), 0, c);
      HoldsRowAt(0, parts, 0, RowInLine(c, vpWidth), c);
      RowInLineExact(gs, vpWidth, c);
    }
  }

  /** Main result on jumping to a match: the row that the arithmetic names shows the cell at
      that column, whenever the column is counted. */
  lemma RowInLineShows(gs: seq<Glyph>, vpWidth: Pos, c: nat)
    requires ColumnCounted(gs, vpWidth, c)
    ensures var parts, r := PartsOf(gs, vpWidth), RowInLine(c, vpWidth);
            && 0 <= r < |parts|
            && Above(parts, r) <= c && GlyphAt(parts[r], c - Above(parts, r)) == GlyphAt(gs, c)
  {
    PartsOfLine(gs, vpWidth);
    RowInLineExact(gs, vpWidth, c);
    RowAtShows(PartsOf(gs, vpWidth), c);
  }
}
