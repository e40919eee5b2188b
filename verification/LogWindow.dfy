/**
  The rows the log view hands to its viewport (internal/ui/logview.go): search highlights
  baked into each display line, lines wrapped, and a window cut out of the result. FullWrap
  is "wrap everything"; the lemmas here let a loop over the visible lines alone compute a
  window of it.
 */
module LogWindow {
  import opened Ansi
  import opened Windows
  import opened Split
  import opened Highlight
  import opened Wrap
  import opened Ring
  import opened LogIndex
  import opened Options

  /** A line of the display list, ready to print. */
  datatype DisplayLine = DisplayLine(text: seq<Token>, width: nat)

  // ---- baking highlights into one line ----

  function OnLine(ps: seq<MatchPos>, di: int): seq<MatchPos> {
    if ps == [] then []
    else OnLine(ps[..|ps| - 1], di) + if ps[|ps| - 1].line == di then [ps[|ps| - 1]] else []
  }

  lemma {:induction false} OnLineNone(ps: seq<MatchPos>, di: int)
    requires forall i :: 0 <= i < |ps| ==> ps[i].line != di
    ensures OnLine(ps, di) == []
    decreases |ps|
  {
    if ps != [] {
      OnLineNone(ps[..|ps| - 1], di);
    }
  }

  lemma {:induction false} OnLineAppend(a: seq<MatchPos>, b: seq<MatchPos>, di: int)
    ensures OnLine(a + b, di) == OnLine(a, di) + OnLine(b, di)
    decreases |b|
  {
    if b == [] {
      assert a + b == a;
    } else {
      var n := |b| - 1;
      assert (a + b)[..|a + b| - 1] == a + b[..n];
      OnLineAppend(a, b[..n], di);
    }
  }

  /** sort.Search: the first match at or after a display line. */
  method FirstAt(ps: seq<MatchPos>, di: int, ghost lines: int) returns (lo: nat)
    requires SortedMatches(ps, lines)
    ensures lo <= |ps|
    ensures forall i :: 0 <= i < lo ==> ps[i].line < di
    ensures forall i :: lo <= i < |ps| ==> ps[i].line >= di
  {
    lo := 0;
    var hi := |ps|;
    while lo < hi
      invariant 0 <= lo <= hi <= |ps|
      invariant forall i :: 0 <= i < lo ==> ps[i].line < di
      invariant forall i :: hi <= i < |ps| ==> ps[i].line >= di
    {
      var mid := (lo + hi) / 2;
      if ps[mid].line >= di {
        hi := mid;
      } else {
        lo := mid + 1;
      }
    }
  }

  /** The matches on one display line: a search for the first, then a scan. */
  method LinePositions(ps: seq<MatchPos>, di: int, ghost lines: int) returns (lp: seq<MatchPos>)
    requires SortedMatches(ps, lines)
    ensures lp == OnLine(ps, di)
  {
    var first := FirstAt(ps, di, lines);
    OnLineNone(ps[..first], di);
    lp := [];
    var i := first;
    while i < |ps| && ps[i].line <= di
      invariant first <= i <= |ps|
      invariant lp == OnLine(ps[..i], di)
    {
      assert ps[..i + 1][..i] == ps[..i];
      lp := lp + [ps[i]];
      i := i + 1;
    }
    OnLineNone(ps[i..], di);
    assert ps == ps[..i] + ps[i..];
    OnLineAppend(ps[..i], ps[i..], di);
  }

  /** Which of the matches on a line is the selected one, by position: -1 for none. The
      wrapped view compares both columns, the unwrapped view the first only. */
  function IndexOf(lp: seq<MatchPos>, s: MatchPos, k: nat, bothColumns: bool): int
    requires k <= |lp|
    decreases |lp| - k
  {
    if k == |lp| then -1
    else if lp[k].colStart == s.colStart && (bothColumns ==> lp[k].colEnd == s.colEnd) then k
    else IndexOf(lp, s, k + 1, bothColumns)
  }

  function SelectedOn(ps: seq<MatchPos>, mi: int, di: int, bothColumns: bool): int {
    if 0 <= mi < |ps| && ps[mi].line == di then IndexOf(OnLine(ps, di), ps[mi], 0, bothColumns) else -1
  }

  function Ranges(lp: seq<MatchPos>): seq<Range> {
    seq(|lp|, k requires 0 <= k < |lp| => Range(lp[k].colStart, lp[k].colEnd))
  }

  /** The two highlight colours. */
  datatype Palette = Palette(hi: Style, sel: Style)

  /** A display line with its matches coloured. Marker lines are left alone. */
  function Bake(
      text: seq<Token>, isMarker: bool, searching: bool, ps: seq<MatchPos>, mi: int, di: int, both: bool,
      pal: Palette): seq<Token> {
    if isMarker || !searching then text
    else Inject(text, Ranges(OnLine(ps, di)), Colors(pal.hi, pal.sel, SelectedOn(ps, mi, di, both)))
  }

  method BakeLine(
      text: seq<Token>, isMarker: bool, searching: bool, ps: seq<MatchPos>, mi: int, di: int, both: bool, pal: Palette,
      ghost lines: int)
    returns (baked: seq<Token>)
    requires SortedMatches(ps, lines)
    ensures baked == Bake(text, isMarker, searching, ps, mi, di, both, pal)
  {
    baked := text;
    if !isMarker && searching && |ps| > 0 {
      var lp := LinePositions(ps, di, lines);
      if |lp| > 0 {
        var selectedInLine := -1;
        if mi >= 0 && mi < |ps| && ps[mi].line == di {
          var k := 0;
          while k < |lp| && !(lp[k].colStart == ps[mi].colStart && (both ==> lp[k].colEnd == ps[mi].colEnd))
            invariant 0 <= k <= |lp|
            invariant IndexOf(lp, ps[mi], 0, both) == IndexOf(lp, ps[mi], k, both)
          {
            k := k + 1;
          }
          if k < |lp| {
            selectedInLine := k;
          }
        }
        baked := InjectHighlights(text, Ranges(lp), Colors(pal.hi, pal.sel, selectedInLine));
      }
    }
  }

  /** Baking keeps every cell in place, with its text and its width. */
  lemma {:induction false} BakeKeepsCells(
      text: seq<Token>, isMarker: bool, searching: bool, ps: seq<MatchPos>, mi: int, di: int, both: bool, pal: Palette)
    ensures var b := Bake(text, isMarker, searching, ps, mi, di, both, pal);
            && Width(b) == Width(text)
            && |Shown(b, [])| == |Shown(text, [])|
            && forall i :: 0 <= i < |Shown(text, [])| ==>
                 Shown(b, [])[i].text == Shown(text, [])[i].text && Shown(b, [])[i].w == Shown(text, [])[i].w
  {
    if !isMarker && searching {
      var rs := Ranges(OnLine(ps, di));
      var c := Colors(pal.hi, pal.sel, SelectedOn(ps, mi, di, both));
      InjectPaints(text, rs, c);
      InjectKeepsWidth(text, rs, c);
    }
  }

  // ---- wrapping ----

  /** prefixContinuationRows: the indicator before each row that continues a line. */
  function PrefixRows(rows: seq<Row>, firstIsCont: bool): (r: seq<Row>)
    ensures |r| == |rows|
    ensures forall i :: 0 <= i < |rows| ==>
              r[i] == if i > 0 || firstIsCont then Row(INDICATOR + rows[i].text, rows[i].width + INDICATOR_WIDTH)
                      else rows[i]
  {
    seq(|rows|, i requires 0 <= i < |rows| =>
      if i > 0 || firstIsCont then Row(INDICATOR + rows[i].text, rows[i].width + INDICATOR_WIDTH) else rows[i])
  }

  function LineRows(d: DisplayLine, vpWidth: int): seq<Row> {
    if d.width <= vpWidth then [Row(d.text, d.width)]
    else PrefixRows(Rows(d.text, vpWidth, ContinuationWidth(vpWidth)), false)
  }

  function Blocks(ds: seq<DisplayLine>, vpWidth: int): (bs: seq<seq<Row>>)
    ensures |bs| == |ds|
  {
    seq(|ds|, i requires 0 <= i < |ds| => LineRows(ds[i], vpWidth))
  }

  /** Wrap everything. */
  function FullWrap(ds: seq<DisplayLine>, vpWidth: int): seq<Row> {
    Flatten(Blocks(ds, vpWidth))
  }

  lemma {:induction false} FlattenSnoc<T>(ps: seq<seq<T>>, p: seq<T>)
    ensures Flatten(ps + [p]) == Flatten(ps) + p
  {
    if ps == [] {
      assert ps + [p] == [p] && [p][1..] == [];
      assert p + [] == p && [] + p == p;
    } else {
      assert (ps + [p])[1..] == ps[1..] + [p];
      FlattenSnoc(ps[1..], p);
      Assoc(ps[0], Flatten(ps[1..]), p);
    }
  }

  lemma WrapSnoc(ds: seq<DisplayLine>, vpWidth: int, n: nat)
    requires n < |ds|
    ensures FullWrap(ds[..n + 1], vpWidth) == FullWrap(ds[..n], vpWidth) + LineRows(ds[n], vpWidth)
  {
    assert Blocks(ds[..n + 1], vpWidth) == Blocks(ds[..n], vpWidth) + [LineRows(ds[n], vpWidth)];
    FlattenSnoc(Blocks(ds[..n], vpWidth), LineRows(ds[n], vpWidth));
  }

  /** The width on record is the width of the text. */
  predicate OnRecord(d: DisplayLine) { d.width == Width(d.text) }

  lemma LineRowsAreParts(d: DisplayLine, vpWidth: Pos)
    requires OnRecord(d)
    ensures |LineRows(d, vpWidth)| == |PartsOf(Shown(d.text, []), vpWidth)| >= 1
    ensures d.width == GlyphWidth(Shown(d.text, []))
  {
    ShownWidth(d.text, []);
    PartsOfLine(Shown(d.text, []), vpWidth);
    if d.width > vpWidth {
      SplitCutsLikeBroken(d.text, vpWidth, ContinuationWidth(vpWidth));
    }
  }

  /** A line takes the rows it is counted for exactly if its text fills its rows. */
  lemma LineRowsExact(d: DisplayLine, vpWidth: Pos)
    requires OnRecord(d)
    ensures |LineRows(d, vpWidth)| == WrapHeight(d.width, vpWidth) <==> FillsRows(Shown(d.text, []), vpWidth)
  {
    hide *;
    LineRowsAreParts(d, vpWidth);
    WrapHeightExact(Shown(d.text, []), vpWidth);
  }

  /** The rows the scroll arithmetic counts for display line `di`: the notice of dropped
      lines, at index 0 when there is one, always counts as one row. */
  function CountedHeight(ds: seq<DisplayLine>, notice: bool, vpWidth: int, di: nat): int
    requires di < |ds|
  {
    if notice && di == 0 then 1 else WrapHeight(ds[di].width, vpWidth)
  }

  function CountedRows(ds: seq<DisplayLine>, notice: bool, vpWidth: int, n: nat): int
    requires n <= |ds|
  {
    if n == 0 then 0 else CountedRows(ds, notice, vpWidth, n - 1) + CountedHeight(ds, notice, vpWidth, n - 1)
  }

  /** How many rows more than the one it counts for the notice takes. */
  function NoticeExcess(ds: seq<DisplayLine>, notice: bool, vpWidth: int): int {
    if notice && ds != [] then |LineRows(ds[0], vpWidth)| - 1 else 0
  }

  ghost predicate AllOnRecord(ds: seq<DisplayLine>) { forall i :: 0 <= i < |ds| ==> OnRecord(ds[i]) }

  /** The first `n` display lines, the notice apart, take as many rows as counted. */
  ghost predicate Counted(ds: seq<DisplayLine>, notice: bool, vpWidth: Pos, n: nat)
    requires n <= |ds|
  {
    forall i :: 0 <= i < n && !(notice && i == 0) ==> FillsRows(Shown(ds[i].text, []), vpWidth)
  }

  lemma WrapHeightPositive(w: int, vpWidth: int)
    ensures WrapHeight(w, vpWidth) >= 1
  {
  }

  lemma {:induction false} CountedAgainstReal(ds: seq<DisplayLine>, notice: bool, vpWidth: Pos, n: nat)
    requires n <= |ds| && AllOnRecord(ds) && Counted(ds, notice, vpWidth, n)
    ensures |FullWrap(ds[..n], vpWidth)| ==
            CountedRows(ds, notice, vpWidth, n) + if n > 0 then NoticeExcess(ds, notice, vpWidth) else 0
  {
    if n > 0 {
      CountedAgainstReal(ds, notice, vpWidth, n - 1);
      WrapSnoc(ds, vpWidth, n - 1);
      if !(notice && n == 1) {
        LineRowsExact(ds[n - 1], vpWidth);
      }
    }
  }

  /** The row, among all rows, at which the window for counted row `y` starts, seen from
      display line `di`. A line with fewer rows than counted has none left to skip into. */
  function RealRowFrom(ds: seq<DisplayLine>, notice: bool, vpWidth: int, y: int, di: nat): nat
    requires di <= |ds|
    decreases |ds| - di
  {
    if di == |ds| then |FullWrap(ds, vpWidth)|
    else if y < CountedHeight(ds, notice, vpWidth, di) then
      |FullWrap(ds[..di], vpWidth)| + Clamp(y, 0, |LineRows(ds[di], vpWidth)|)
    else RealRowFrom(ds, notice, vpWidth, y - CountedHeight(ds, notice, vpWidth, di), di + 1)
  }

  /** Reached from line 0 or from the line that the counted row is in, it is the same row. */
  lemma {:induction false} RealRowSkips(ds: seq<DisplayLine>, notice: bool, vpWidth: int, y: int, di: nat)
    requires di <= |ds| && CountedRows(ds, notice, vpWidth, di) <= y
    ensures RealRowFrom(ds, notice, vpWidth, y, 0) ==
            RealRowFrom(ds, notice, vpWidth, y - CountedRows(ds, notice, vpWidth, di), di)
  {
    if di > 0 {
      WrapHeightPositive(ds[di - 1].width, vpWidth);
      RealRowSkips(ds, notice, vpWidth, y, di - 1);
    }
  }

  /** In lines that take the rows they are counted for, counted row `y` is row `y`, plus what
      the notice takes beyond its one row. */
  lemma {:induction false} RealRowCounted(ds: seq<DisplayLine>, notice: bool, vpWidth: Pos, y: int, di: nat, n: nat)
    requires di < n <= |ds| && AllOnRecord(ds) && Counted(ds, notice, vpWidth, n)
    requires CountedRows(ds, notice, vpWidth, di) <= y < CountedRows(ds, notice, vpWidth, n)
    ensures RealRowFrom(ds, notice, vpWidth, y - CountedRows(ds, notice, vpWidth, di), di) ==
            y + if y > 0 then NoticeExcess(ds, notice, vpWidth) else 0
    decreases n - di
  {
    hide *;
    var rest := y - CountedRows(ds, notice, vpWidth, di);
    CountedStep(ds, notice, vpWidth, di);
    CountedPositive(ds, notice, vpWidth, di);
    RealRowStep(ds, notice, vpWidth, rest, di);
    if rest < CountedHeight(ds, notice, vpWidth, di) {
      CountedShorter(ds, notice, vpWidth, di, n);
      CountedAgainstReal(ds, notice, vpWidth, di);
      CountedLineRows(ds, notice, vpWidth, di, n);
      CountedNothing(ds, notice, vpWidth);
      NoticeTakesARow(ds, notice, vpWidth);
    } else {
      RealRowCounted(ds, notice, vpWidth, y, di + 1, n);
    }
  }

  lemma RealRowStep(ds: seq<DisplayLine>, notice: bool, vpWidth: int, y: int, di: nat)
    requires di < |ds|
    ensures RealRowFrom(ds, notice, vpWidth, y, di) ==
            if y < CountedHeight(ds, notice, vpWidth, di) then
              |FullWrap(ds[..di], vpWidth)| +
              if y < 0 then 0 else if y > |LineRows(ds[di], vpWidth)| then |LineRows(ds[di], vpWidth)| else y
            else RealRowFrom(ds, notice, vpWidth, y - CountedHeight(ds, notice, vpWidth, di), di + 1)
  {
  }

  lemma CountedLineRows(ds: seq<DisplayLine>, notice: bool, vpWidth: Pos, di: nat, n: nat)
    requires di < n <= |ds| && AllOnRecord(ds) && Counted(ds, notice, vpWidth, n)
    ensures 1 <= CountedHeight(ds, notice, vpWidth, di) <= |LineRows(ds[di], vpWidth)|
    ensures notice && di == 0 ==> CountedHeight(ds, notice, vpWidth, di) == 1
  {
    LineRowsAreParts(ds[di], vpWidth);
    LineRowsExact(ds[di], vpWidth);
    WrapHeightPositive(ds[di].width, vpWidth);
    hide WrapHeight, LineRows, FillsRows, Shown, PartsOf, Width, GlyphWidth;
  }

  lemma CountedStep(ds: seq<DisplayLine>, notice: bool, vpW: int, di: nat)
    requires di < |ds|
    ensures CountedRows(ds, notice, vpW, di + 1) == CountedRows(ds, notice, vpW, di)
            + CountedHeight(ds, notice, vpW, di)
    ensures CountedHeight(ds, notice, vpW, di) == if notice && di == 0 then 1 else WrapHeight(ds[di].width, vpW)
  {
  }

  lemma {:induction false} CountedPositive(ds: seq<DisplayLine>, notice: bool, vpW: int, n: nat)
    requires n <= |ds|
    ensures CountedRows(ds, notice, vpW, n) >= n
  {
    if n > 0 {
      CountedPositive(ds, notice, vpW, n - 1);
    }
  }

  // ---- what is on screen ----

  /** The row, among all rows, in which column `c` of display line `di` is. */
  function RealRow(ds: seq<DisplayLine>, vpWidth: Pos, di: nat, c: int): nat
    requires di < |ds|
  {
    |FullWrap(ds[..di], vpWidth)| + RowAt(PartsOf(Shown(ds[di].text, []), vpWidth), c)
  }

  /** The column of its row at which it is drawn. */
  function ScreenColumn(d: DisplayLine, vpWidth: Pos, c: int): int {
    var parts := PartsOf(Shown(d.text, []), vpWidth);
    var r := RowAt(parts, c);
    if r <= |parts| then c - Above(parts, r) + (if r > 0 then INDICATOR_WIDTH else 0) else c
  }

  lemma LineRowShown(d: DisplayLine, vpWidth: Pos, r: nat)
    requires OnRecord(d) && r < |LineRows(d, vpWidth)|
    ensures r < |PartsOf(Shown(d.text, []), vpWidth)|
    ensures Shown(LineRows(d, vpWidth)[r].text, []) ==
            (if r > 0 then Shown(INDICATOR, []) else []) + PartsOf(Shown(d.text, []), vpWidth)[r]
  {
    LineRowsAreParts(d, vpWidth);
    if d.width > vpWidth {
      var rows := Rows(d.text, vpWidth, ContinuationWidth(vpWidth));
      SplitCutsLikeBroken(d.text, vpWidth, ContinuationWidth(vpWidth));
      ShownIndicator();
      ShownAppend(INDICATOR, rows[r].text, []);
    }
    hide Rows, Broken, Shown, Width, GlyphWidth;
  }

  lemma BlockAt(ds: seq<DisplayLine>, vpWidth: int, di: nat, r: nat)
    requires di < |ds| && r < |LineRows(ds[di], vpWidth)|
    ensures var k := |FullWrap(ds[..di], vpWidth)| + r;
            k < |FullWrap(ds, vpWidth)| && FullWrap(ds, vpWidth)[k] == LineRows(ds[di], vpWidth)[r]
  {
    WrapSnoc(ds, vpWidth, di);
    var rest := WrapPrefix(ds, vpWidth, di + 1, |ds|);
    assert ds[..|ds|] == ds;
    hide *;
  }

  lemma {:induction false} RealRowIs(ds: seq<DisplayLine>, vpWidth: Pos, di: nat, c: int)
    requires di < |ds|
    ensures var parts := PartsOf(Shown(ds[di].text, []), vpWidth);
            var r := RowAt(parts, c);
            && RealRow(ds, vpWidth, di, c) == |FullWrap(ds[..di], vpWidth)| + r
            && (r <= |parts| ==>
                 ScreenColumn(ds[di], vpWidth, c) == c - Above(parts, r) + if r > 0 then INDICATOR_WIDTH else 0)
  {
    hide FullWrap, PartsOf, Shown, RowAt, Above;
  }

  /** That row shows the glyph that the line has at the column, whatever its cells. */
  lemma {:induction false} RealRowShows(ds: seq<DisplayLine>, vpWidth: Pos, di: nat, c: nat)
    requires di < |ds| && OnRecord(ds[di])
    ensures RealRow(ds, vpWidth, di, c) < |FullWrap(ds, vpWidth)|
    ensures GlyphAt(Shown(FullWrap(ds, vpWidth)[RealRow(ds, vpWidth, di, c)].text, []),
                    ScreenColumn(ds[di], vpWidth, c)) ==
            GlyphAt(Shown(ds[di].text, []), c)
  {
    hide *;
    var parts := PartsOf(Shown(ds[di].text, []), vpWidth);
    var r := RowAt(parts, c);
    LineRowsAreParts(ds[di], vpWidth);
    PartsOfLine(Shown(ds[di].text, []), vpWidth);
    RowAtShows(parts, c);
    BlockAt(ds, vpWidth, di, r);
    LineRowShown(ds[di], vpWidth, r);
    RealRowIs(ds, vpWidth, di, c);
    if r > 0 {
      PrefixShift(parts[r], c - Above(parts, r));
    } else {
      assert [] + parts[r] == parts[r];
    }
  }

  /** Where the arithmetic is right, it finds that row, but for what the notice takes beyond
      its one row. */
  lemma {:induction false} RealRowByCount(ds: seq<DisplayLine>, notice: bool, vpWidth: Pos, di: nat, c: nat)
    requires di < |ds| && AllOnRecord(ds) && Counted(ds, notice, vpWidth, di) && (notice ==> di > 0)
    requires ColumnCounted(Shown(ds[di].text, []), vpWidth, c)
    ensures RealRow(ds, vpWidth, di, c) ==
            CountedRows(ds, notice, vpWidth, di) + RowInLine(c, vpWidth) + NoticeExcess(ds, notice, vpWidth)
  {
    CountedAgainstReal(ds, notice, vpWidth, di);
    RowInLineExact(Shown(ds[di].text, []), vpWidth, c);
    hide FullWrap, CountedRows, PartsOf, Shown, ColumnCounted;
  }

  /** The rows handed over have the glyph at column `c` of display line `di` in its place. */
  predicate Seen(rows: seq<Row>, ds: seq<DisplayLine>, vpWidth: Pos, start: nat, di: nat, c: int)
    requires di < |ds|
  {
    var k := RealRow(ds, vpWidth, di, c) - start;
    && 0 <= k < |rows|
    && GlyphAt(Shown(rows[k].text, []), ScreenColumn(ds[di], vpWidth, c)) == GlyphAt(Shown(ds[di].text, []), c)
  }

  /** In a window of all rows it is exactly if its row is in the window. */
  lemma SeenInWindow(rows: seq<Row>, ds: seq<DisplayLine>, vpWidth: Pos, start: nat, h: nat, di: nat, c: nat)
    requires di < |ds| && OnRecord(ds[di]) && rows == Window(FullWrap(ds, vpWidth), start, h)
    ensures Seen(rows, ds, vpWidth, start, di, c) <==> start <= RealRow(ds, vpWidth, di, c) < start + h
  {
    RealRowShows(ds, vpWidth, di, c);
    WindowAt(FullWrap(ds, vpWidth), start, h);
    hide Window, FullWrap, RealRow, ScreenColumn, Shown, GlyphAt;
  }

  /** Main result on bringing a match on screen, where the arithmetic is right: with its
      counted row within the window, the glyph it starts with is seen exactly if the window
      is not at the top, or the notice takes one row, or the match is near enough to it. */
  lemma SeenExactly(rows: seq<Row>, ds: seq<DisplayLine>, notice: bool, vpWidth: Pos, y: nat, h: nat, di: nat, c: nat)
    requires di < |ds| && AllOnRecord(ds) && Counted(ds, notice, vpWidth, di + 1) && (notice ==> di > 0)
    requires ColumnCounted(Shown(ds[di].text, []), vpWidth, c)
    requires rows == Window(FullWrap(ds, vpWidth), RealRowFrom(ds, notice, vpWidth, y, 0), h)
    requires y <= CountedRows(ds, notice, vpWidth, di) + RowInLine(c, vpWidth) < y + h
    requires CountedRows(ds, notice, vpWidth, di) + RowInLine(c, vpWidth) < CountedRows(ds, notice, vpWidth, di + 1)
    ensures Seen(rows, ds, vpWidth, RealRowFrom(ds, notice, vpWidth, y, 0), di, c) <==>
            y > 0 || NoticeExcess(ds, notice, vpWidth) == 0 ||
            CountedRows(ds, notice, vpWidth, di) + RowInLine(c, vpWidth) + NoticeExcess(ds, notice, vpWidth) < h
  {
    hide *;
    CountedNothing(ds, notice, vpWidth);
    NoticeTakesARow(ds, notice, vpWidth);
    CountedShorter(ds, notice, vpWidth, di, di + 1);
    RealRowCounted(ds, notice, vpWidth, y, 0, di + 1);
    RealRowByCount(ds, notice, vpWidth, di, c);
    IsOnRecord(ds, di);
    SeenInWindow(rows, ds, vpWidth, RealRowFrom(ds, notice, vpWidth, y, 0), h, di, c);
  }

  lemma NoticeTakesARow(ds: seq<DisplayLine>, notice: bool, vpWidth: Pos)
    requires AllOnRecord(ds)
    ensures NoticeExcess(ds, notice, vpWidth) >= 0
    ensures !notice ==> NoticeExcess(ds, notice, vpWidth) == 0
  {
    if notice && ds != [] {
      LineRowsAreParts(ds[0], vpWidth);
    }
  }

  lemma IsOnRecord(ds: seq<DisplayLine>, di: nat)
    requires di < |ds| && AllOnRecord(ds)
    ensures OnRecord(ds[di])
  {
  }

  lemma CountedShorter(ds: seq<DisplayLine>, notice: bool, vpWidth: Pos, m: nat, n: nat)
    requires m <= n <= |ds| && Counted(ds, notice, vpWidth, n)
    ensures Counted(ds, notice, vpWidth, m)
  {
  }

  lemma {:induction false} CountedNothing(ds: seq<DisplayLine>, notice: bool, vpW: int)
    ensures CountedRows(ds, notice, vpW, 0) == 0
  {
  }

  /** The last row handed over is the last row there is. */
  predicate EndSeen(rows: seq<Row>, ds: seq<DisplayLine>, vpWidth: int, start: nat) {
    |rows| > 0 && start + |rows| == |FullWrap(ds, vpWidth)|
  }

  /** Main result on the bottom, where the arithmetic is right: scrolled down as far as the
      count goes, the last row is handed over exactly if the window is not at the top, or the
      notice takes one row, or everything fits. */
  lemma {:induction false} EndSeenExactly(
      rows: seq<Row>, ds: seq<DisplayLine>, notice: bool, vpWidth: Pos, y: nat, h: nat)
    requires ds != [] && h >= 1 && AllOnRecord(ds) && Counted(ds, notice, vpWidth, |ds|)
    requires y == Max(CountedRows(ds, notice, vpWidth, |ds|) - h, 0)
    requires rows == Window(FullWrap(ds, vpWidth), RealRowFrom(ds, notice, vpWidth, y, 0), h)
    ensures EndSeen(rows, ds, vpWidth, RealRowFrom(ds, notice, vpWidth, y, 0)) <==>
            y > 0 || NoticeExcess(ds, notice, vpWidth) == 0 ||
            CountedRows(ds, notice, vpWidth, |ds|) + NoticeExcess(ds, notice, vpWidth) <= h
  {
    CountedNothing(ds, notice, vpWidth);
    CountedPositive(ds, notice, vpWidth, |ds|);
    NoticeTakesARow(ds, notice, vpWidth);
    CountedAgainstReal(ds, notice, vpWidth, |ds|);
    assert ds[..|ds|] == ds;
    hide CountedRows, Counted, AllOnRecord, NoticeExcess, FullWrap, RealRowFrom, Window;
    RealRowCounted(ds, notice, vpWidth, y, 0, |ds|);
    WindowAt(FullWrap(ds, vpWidth), RealRowFrom(ds, notice, vpWidth, y, 0), h);
  }

  // ---- a window, line by line ----

  /** The rows collected from the first `di` display lines. */
  ghost predicate Collected(rows: seq<Row>, ds: seq<DisplayLine>, vpWidth: int, start: nat, h: nat, di: nat) {
    di <= |ds| && rows == Window(FullWrap(ds[..di], vpWidth), start, h)
  }

  lemma CollectNothing(ds: seq<DisplayLine>, vpWidth: int, start: nat, h: nat, di: nat)
    requires di <= |ds| && |FullWrap(ds[..di], vpWidth)| <= start
    ensures Collected([], ds, vpWidth, start, h, di)
  {
  }

  lemma CollectLine(rows: seq<Row>, ds: seq<DisplayLine>, vpWidth: int, start: nat, h: nat, di: nat, more: seq<Row>)
    requires di < |ds| && Collected(rows, ds, vpWidth, start, h, di)
    requires more == Window(LineRows(ds[di], vpWidth), Max(0, start - |FullWrap(ds[..di], vpWidth)|), h - |rows|)
    ensures Collected(rows + more, ds, vpWidth, start, h, di + 1)
  {
    WrapSnoc(ds, vpWidth, di);
    WindowConcat(FullWrap(ds[..di], vpWidth), LineRows(ds[di], vpWidth), start, h);
  }

  lemma {:induction false} WrapPrefix(ds: seq<DisplayLine>, vpWidth: int, di: nat, n: nat) returns (rest: seq<Row>)
    requires di <= n <= |ds|
    ensures FullWrap(ds[..n], vpWidth) == FullWrap(ds[..di], vpWidth) + rest
    decreases n - di
  {
    if di == n {
      rest := [];
      assert FullWrap(ds[..di], vpWidth) + [] == FullWrap(ds[..di], vpWidth);
    } else {
      rest := WrapPrefix(ds, vpWidth, di, n - 1);
      WrapSnoc(ds, vpWidth, n - 1);
      Assoc(FullWrap(ds[..di], vpWidth), rest, LineRows(ds[n - 1], vpWidth));
      rest := rest + LineRows(ds[n - 1], vpWidth);
    }
  }

  lemma CollectedEnough(rows: seq<Row>, ds: seq<DisplayLine>, vpWidth: int, start: nat, h: nat, di: nat)
    requires Collected(rows, ds, vpWidth, start, h, di)
    requires di == |ds| || |rows| >= h
    ensures rows == Window(FullWrap(ds, vpWidth), start, h) && |rows| <= h
  {
    assert ds[..|ds|] == ds;
    if di < |ds| {
      var rest := WrapPrefix(ds, vpWidth, di, |ds|);
      var some := FullWrap(ds[..di], vpWidth);
      if h > 0 {
        WindowOfPrefix(some, rest, start, h);
      }
    }
  }

  /** Splitting from row `startRow` and then prefixing is prefixing and then slicing. */
  lemma PrefixThenSlice(rows: seq<Row>, startRow: nat, n: int)
    ensures PrefixRows(Window(rows, startRow, n), startRow > 0) == Window(PrefixRows(rows, false), startRow, n)
  {
  }

  /** The rows of display line `di` that a window starting `skip` rows into it shows. */
  method VisibleRows(d: DisplayLine, vpWidth: Pos, skip: nat, room: nat) returns (rows: seq<Row>)
    requires 0 < room && (d.width <= vpWidth ==> skip == 0)
    ensures rows == Window(LineRows(d, vpWidth), skip, room)
  {
    if d.width <= vpWidth {
      rows := [Row(d.text, d.width)];
    } else {
      rows := SplitWrappedVisible(d.text, vpWidth, ContinuationWidth(vpWidth), skip, room);
      rows := PrefixRows(rows, skip > 0);
      PrefixThenSlice(Rows(d.text, vpWidth, ContinuationWidth(vpWidth)), skip, room);
    }
  }
}
