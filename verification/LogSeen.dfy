/**
  What is seen of the selected match and of the end of the log in the rows that a redraw
  hands over (internal/ui/logview.go).
 */
module LogSeen {
  import opened Ansi
  import opened Windows
  import opened Split
  import opened Wrap
  import opened Ring
  import opened LogIndex
  import opened LogWindow
  import opened LogCaches
  import opened LogLoops

  /** The screen shows the row in which the match starts: counted rows under soft wrap, if
      the column is within its line. */
  ghost predicate InView(v: View, pos: MatchPos, y: int, scroll: int, h: int)
    requires 0 <= pos.line
  {
    if v.softWrap then MatchRow(v, pos) < v.total ==> y <= MatchRow(v, pos) < y + h
    else scroll <= pos.line < scroll + h
  }

  // ---- what is seen of a match and of the end ----

  /** A match inside its line, with the rows above it and its own as counted. */
  ghost predicate CountedTo(v: View, env: Env, pos: MatchPos) {
    && Ind(v) <= pos.line < |Shows(v)| + Ind(v)
    && 0 <= pos.colStart < Shows(v)[pos.line - Ind(v)].width
    && Counted(Display(v, env, true), Ind(v) == 1, Columns(v), pos.line + 1)
    && ColumnCounted(Shown(Display(v, env, true)[pos.line].text, []), Columns(v), pos.colStart)
  }

  ghost function Excess(v: View, env: Env): int { NoticeExcess(Display(v, env, true), Ind(v) == 1, Columns(v)) }

  /** How the selected match is on screen. Under soft wrap its first glyph is among the rows
      handed over exactly if the window is not at the top, or the notice of dropped lines
      takes one row, or the match is near enough to it; otherwise its line is handed over. */
  ghost predicate MatchSeen(v: View, env: Env, lines: seq<Row>, pos: MatchPos, y: int, scroll: int, h: int) {
    0 <= pos.line < |Shows(v)| + Ind(v) &&
    if v.softWrap then
      CountedTo(v, env, pos) ==>
        (Seen(lines, Display(v, env, true), Columns(v), RealStart(v, env, y), pos.line, pos.colStart) <==>
           y > 0 || Excess(v, env) == 0 || MatchRow(v, pos) + Excess(v, env) < h)
    else
      0 <= pos.line - scroll < |lines| && lines[pos.line - scroll] == Unwrapped(Display(v, env, false))[pos.line]
  }

  lemma MatchRowIs(v: View, env: Env, pos: MatchPos)
    requires Ind(v) <= pos.line < |Shows(v)| + Ind(v)
    ensures MatchRow(v, pos) ==
            CountedRows(Display(v, env, true), Ind(v) == 1, Columns(v), pos.line) + RowInLine(pos.colStart, Columns(v))
  {
    CountedTotal(v, env, true, pos.line);
    hide Display, CountedRows;
    assert Shows(v)[..0] == [];
  }

  lemma RowBelowNext(v: View, env: Env, pos: MatchPos)
    requires Ind(v) <= pos.line < |Shows(v)| + Ind(v) && 0 <= pos.colStart < Shows(v)[pos.line - Ind(v)].width
    ensures MatchRow(v, pos) < CountedRows(Display(v, env, true), Ind(v) == 1, Columns(v), pos.line + 1)
  {
    hide *;
    MatchRowIs(v, env, pos);
    DisplayLines(v, env, true, pos.line);
    CountedStep(Display(v, env, true), Ind(v) == 1, Columns(v), pos.line);
    RowInLineFits(pos.colStart, Shows(v)[pos.line - Ind(v)].width, Columns(v));
  }

  lemma MatchIsSeen(
      v: View, env: Env, a: seq<bool>, lines: seq<Row>, pos: MatchPos, y: int, scroll: int, auto: bool, h: int)
    requires Ok(v, a) && h >= 1 && RenderedAs(v, env, lines, y, scroll, auto, h)
    requires 0 <= pos.line < |Shows(v)| + Ind(v) && InView(v, pos, y, scroll, h)
    requires !v.softWrap ==> !StaleSelection(v, scroll, h)
    ensures MatchSeen(v, env, lines, pos, y, scroll, h)
  {
    if v.softWrap {
      if CountedTo(v, env, pos) {
        WrappedMatchIsSeen(v, env, a, lines, pos, y, scroll, auto, h);
      }
    } else {
      WindowAt(Unwrapped(Display(v, env, false)), scroll, h);
    }
    hide Ok, Display, Shows, CountedTo, Window, Unwrapped, MatchRow, Seen, StaleSelection;
  }

  lemma WrappedMatchIsSeen(
      v: View, env: Env, a: seq<bool>, lines: seq<Row>, pos: MatchPos, y: int, scroll: int, auto: bool, h: int)
    requires Ok(v, a) && h >= 1 && v.softWrap && RenderedAs(v, env, lines, y, scroll, auto, h)
    requires CountedTo(v, env, pos) && InView(v, pos, y, scroll, h)
    ensures Seen(lines, Display(v, env, true), Columns(v), RealStart(v, env, y), pos.line, pos.colStart) <==>
            y > 0 || Excess(v, env) == 0 || MatchRow(v, pos) + Excess(v, env) < h
  {
    var ds, notice, vpW := Display(v, env, true), Ind(v) == 1, Columns(v);
    DisplayOnRecord(v, env, true, a);
    MatchRowIs(v, env, pos);
    RowBelowNext(v, env, pos);
    MatchRowCounted(v, pos);
    assert 0 <= y && pos.line < |ds| && (notice ==> pos.line > 0);
    hide Ok, Display, Shows, MatchRow, Columns, CountedRows, Counted, ColumnCounted, AllOnRecord, Window, FullWrap,
      Seen, NoticeExcess;
    SeenExactly(lines, ds, notice, vpW, y, h, pos.line, pos.colStart);
  }

  /** How the end of the log is on screen at the bottom: under soft wrap, when all lines take
      the rows they are counted for, exactly if the window is not at the top, or the notice
      takes one row, or everything fits; otherwise always. */
  ghost predicate EndShown(v: View, env: Env, lines: seq<Row>, y: int, scroll: int, h: int) {
    var ds, notice := Display(v, env, v.softWrap), Ind(v) == 1;
    if ds == [] then lines == []
    else if v.softWrap then
      Counted(ds, notice, Columns(v), |ds|) ==>
        (EndSeen(lines, ds, Columns(v), RealStart(v, env, y)) <==>
           y > 0 || Excess(v, env) == 0 || v.total + Excess(v, env) <= h)
    else
      !StaleSelection(v, scroll, h) ==>
        |lines| > 0 && scroll + |lines| == |ds| && lines[|lines| - 1] == Unwrapped(ds)[|ds| - 1]
  }

  lemma BottomShowsEnd(v: View, env: Env, a: seq<bool>, lines: seq<Row>, y: int, scroll: int, h: int)
    requires Ok(v, a) && h >= 1 && RenderedAs(v, env, lines, y, scroll, true, h)
    requires !v.softWrap ==> scroll == Max(|Shows(v)| + Ind(v) - h, 0)
    ensures EndShown(v, env, lines, y, scroll, h)
  {
    hide *;
    if v.softWrap {
      WrappedBottom(v, env, a, lines, y, scroll, h);
    } else {
      UnwrappedBottom(v, env, lines, y, scroll, h);
    }
  }

  lemma UnwrappedBottom(v: View, env: Env, lines: seq<Row>, y: int, scroll: int, h: int)
    requires h >= 1 && !v.softWrap && RenderedAs(v, env, lines, y, scroll, true, h)
    requires scroll == Max(|Shows(v)| + Ind(v) - h, 0)
    ensures EndShown(v, env, lines, y, scroll, h)
  {
    WindowAt(Unwrapped(Display(v, env, false)), scroll, h);
    hide Display, Shows, Window, Unwrapped, StaleSelection;
  }

  lemma WrappedBottom(v: View, env: Env, a: seq<bool>, lines: seq<Row>, y: int, scroll: int, h: int)
    requires Ok(v, a) && h >= 1 && v.softWrap && RenderedAs(v, env, lines, y, scroll, true, h)
    ensures EndShown(v, env, lines, y, scroll, h)
  {
    hide *;
    var ds, notice := Display(v, env, true), Ind(v) == 1;
    UnpackView(v, a);
    WrappedRows(v, env, lines, y, scroll, true, h);
    WrappedEnd(v, env, lines, y, scroll, h);
    if ds == [] {
      NothingToWrap(ds, Columns(v), RealStart(v, env, y), h);
    } else if Counted(ds, notice, Columns(v), |ds|) {
      CountedAll(v, env, true);
      DisplayOnRecord(v, env, true, a);
      RealStartIs(v, env, y);
      EndSeenExactly(lines, ds, notice, Columns(v), y, h);
    }
  }

  /** Where every line takes the rows it is counted for, the rows handed over are those of the
      whole wrap from the scroll offset on, or from as much further down as the notice takes
      beyond its one row, unless the window is at the top. */
  lemma {:induction false} CountedWindow(
      v: View, env: Env, a: seq<bool>, lines: seq<Row>, y: int, scroll: int, auto: bool, h: int)
    requires Ok(v, a) && h >= 1 && v.softWrap && RenderedAs(v, env, lines, y, scroll, auto, h)
    requires var ds := Display(v, env, true); Counted(ds, Ind(v) == 1, Columns(v), |ds|)
    ensures lines == Window(FullWrap(Display(v, env, true), Columns(v)), y + if y > 0 then Excess(v, env) else 0, h)
  {
    hide *;
    var ds, notice := Display(v, env, true), Ind(v) == 1;
    UnpackView(v, a);
    WrappedRows(v, env, lines, y, scroll, auto, h);
    WindowStart(v, env, h, y);
    RealStartIs(v, env, y);
    ExcessIs(v, env);
    if ds == [] {
      NothingToWrap(ds, Columns(v), RealStart(v, env, y), h);
      NothingToWrap(ds, Columns(v), 0, h);
    } else {
      DisplayOnRecord(v, env, true, a);
      CountedNothing(ds, notice, Columns(v));
      RealRowCounted(ds, notice, Columns(v), y, 0, |ds|);
    }
  }

  lemma {:induction false} ExcessIs(v: View, env: Env)
    ensures Excess(v, env) == NoticeExcess(Display(v, env, true), Ind(v) == 1, Columns(v))
  {
  }

  lemma UnpackView(v: View, a: seq<bool>)
    requires Ok(v, a)
    ensures IndexOk(v, a) && TotalOk(v) && MatchesOk(v)
  {
  }

  lemma WrappedRows(v: View, env: Env, lines: seq<Row>, y: int, scroll: int, auto: bool, h: int)
    requires v.softWrap && RenderedAs(v, env, lines, y, scroll, auto, h)
    ensures lines == Window(FullWrap(Display(v, env, true), Columns(v)), RealStart(v, env, y), h)
    ensures 0 <= y <= Max(v.total - h, 0) && (auto ==> y == Max(v.total - h, 0))
  {
  }

  lemma WrappedEnd(v: View, env: Env, lines: seq<Row>, y: int, scroll: int, h: int)
    requires v.softWrap
    ensures var ds, notice := Display(v, env, true), Ind(v) == 1;
            EndShown(v, env, lines, y, scroll, h) <==>
            if ds == [] then lines == []
            else Counted(ds, notice, Columns(v), |ds|) ==>
                   (EndSeen(lines, ds, Columns(v), RealStart(v, env, y)) <==>
                      y > 0 || NoticeExcess(ds, notice, Columns(v)) == 0 ||
                      v.total + NoticeExcess(ds, notice, Columns(v)) <= h)
  {
  }

  lemma NothingToWrap(ds: seq<DisplayLine>, vpW: int, start: int, h: int)
    requires ds == []
    ensures Window(FullWrap(ds, vpW), start, h) == []
  {
  }

  lemma BroughtIntoView(v: View, pos: MatchPos, y: int, scroll: int, h: int)
    requires 0 <= pos.line && h >= 1
    requires v.softWrap ==> y <= MatchRow(v, pos) < y + h
    requires !v.softWrap ==> scroll <= pos.line < scroll + h
    ensures InView(v, pos, y, scroll, h)
  {
  }

  /** Clamping the offsets does not lose the match. */
  lemma StillInView(v: View, pos: MatchPos, y: int, scroll: int, y': int, scroll': int, h: int)
    requires 0 <= pos.line < |Shows(v)| + Ind(v) && h >= 1 && InView(v, pos, y, scroll, h)
    requires v.softWrap ==> y' == Clamp(y, 0, Max(v.total - h, 0))
    requires !v.softWrap ==> scroll' == Clamp(scroll, 0, Max(|Shows(v)| + Ind(v) - h, 0))
    ensures InView(v, pos, y', scroll', h)
  {
    MatchRowUp(v, pos);
    hide Shows, MatchRow;
  }

  /** The row in which a match starts, counted as the scroll arithmetic counts. */
  function MatchRow(v: View, pos: MatchPos): int
    requires 0 <= pos.line
  {
    Ind(v) + Heights(Shows(v)[..Clamp(pos.line - Ind(v), 0, |Shows(v)|)], v.vpWidth)
      + RowInLine(pos.colStart, Max(1, v.vpWidth))
  }

  method RowOfMatch(v: View, buffer: Buffer, pos: MatchPos) returns (row: int)
    requires v.es == buffer.lines && 0 <= pos.line
    ensures row == MatchRow(v, pos)
  {
    var vpWidth: Pos := if v.vpWidth <= 0 then 1 else v.vpWidth;
    var bufferLine := pos.line;
    row := 0;
    if v.dropped > 0 {
      bufferLine := bufferLine - 1;
      row := row + 1;
    }
    var above := HeightsAbove(v, buffer, bufferLine, vpWidth);
    row := row + above;
    if pos.colStart >= vpWidth {
      row := row + (1 + (pos.colStart - vpWidth) / ContinuationWidth(vpWidth));
    }
  }

  method HeightsAbove(v: View, buffer: Buffer, bufferLine: int, vpWidth: Pos) returns (rows: int)
    requires v.es == buffer.lines && vpWidth == Max(1, v.vpWidth)
    ensures rows == Heights(Shows(v)[..Clamp(bufferLine, 0, |Shows(v)|)], v.vpWidth)
  {
    hide *;
    ghost var ds := Shows(v);
    var total := ShownCount(v);
    rows := 0;
    var i: nat := 0;
    NoHeights(v.vpWidth);
    assert ds[..0] == [];
    while i < total && i < bufferLine
      invariant i <= total == |ds| && (i <= bufferLine || i == 0)
      invariant rows == Heights(ds[..i], v.vpWidth)
    {
      var e := ShownEntry(v, buffer, i);
      HeightsNext(ds, i, e, v.vpWidth, vpWidth);
      rows := rows + WrapHeight(e.width, vpWidth);
      i := i + 1;
    }
    StopsAt(i, total, bufferLine);
  }

  lemma StopsAt(i: nat, total: nat, bufferLine: int)
    requires i <= total && (i <= bufferLine || i == 0) && (i >= total || i >= bufferLine)
    ensures i == Clamp(bufferLine, 0, total)
  {
  }

  lemma {:induction false} HeightsNext(ds: seq<Entry>, i: nat, e: Entry, v: int, vpWidth: Pos)
    requires i < |ds| && e == ds[i] && vpWidth == Max(1, v)
    ensures Heights(ds[..i + 1], v) == Heights(ds[..i], v) + WrapHeight(e.width, vpWidth)
  {
    assert ds[..i + 1] == ds[..i] + [e];
    HeightsSnoc(ds[..i], e, v);
    SameWrapHeight(e.width, v);
    hide *;
  }

  lemma {:induction false} NoHeights(vpWidth: int)
    ensures Heights([], vpWidth) == 0
  {
  }

  lemma {:induction false} HeightsUp(ds: seq<Entry>, vpWidth: int)
    ensures Heights(ds, vpWidth) >= 0
    decreases |ds|
  {
    if ds != [] {
      HeightsUp(ds[..|ds| - 1], vpWidth);
      WrapHeightPositive(ds[|ds| - 1].width, vpWidth);
    }
  }

  lemma MatchRowUp(v: View, pos: MatchPos)
    requires 0 <= pos.line
    ensures MatchRow(v, pos) >= 0
  {
    HeightsUp(Shows(v)[..Clamp(pos.line - Ind(v), 0, |Shows(v)|)], v.vpWidth);
    if pos.colStart >= Max(1, v.vpWidth) {
      DivUp(pos.colStart - Max(1, v.vpWidth), ContinuationWidth(Max(1, v.vpWidth)));
    }
  }

  lemma {:induction false} HeightsPrefix(ds: seq<Entry>, k: nat, vpWidth: int)
    requires k < |ds|
    ensures Heights(ds[..k], vpWidth) + WrapHeight(ds[k].width, vpWidth) <= Heights(ds, vpWidth)
    decreases |ds|
  {
    var n := |ds| - 1;
    if k < n {
      HeightsPrefix(ds[..n], k, vpWidth);
      assert ds[..n][..k] == ds[..k];
      WrapHeightPositive(ds[n].width, vpWidth);
    }
  }

  /** A match inside its line is in a row that counts. */
  lemma MatchRowCounted(v: View, pos: MatchPos)
    requires TotalOk(v) && v.softWrap && Ind(v) <= pos.line < |Shows(v)| + Ind(v)
    requires 0 <= pos.colStart < Shows(v)[pos.line - Ind(v)].width
    ensures 0 <= MatchRow(v, pos) < v.total
  {
    var ds, k := Shows(v), pos.line - Ind(v);
    MatchRowUp(v, pos);
    HeightsPrefix(ds, k, v.vpWidth);
    RowInLineFits(pos.colStart, ds[k].width, Max(1, v.vpWidth));
    hide Shows, Heights;
  }

  lemma DivUp(n: nat, c: Pos)
    ensures n / c >= 0
  {
  }

  lemma SelectionKept(v: View, v': View, a: seq<bool>)
    requires Ok(v, a) && v' == v.(mi := v'.mi) && v'.mi >= 0
    ensures IndexOk(v', a) && TotalOk(v') && MatchesOk(v')
  {
  }

  lemma MatchLine(v: View)
    requires MatchesOk(v) && 0 <= v.mi < |v.mp|
    ensures 0 <= v.mp[v.mi].line < |Shows(v)| + Ind(v)
  {
  }

  lemma SelectionInRange(v: View)
    requires v.mi < |v.mp|
    ensures forall y, h :: !StaleSelection(v, y, h)
  {
  }

  // ---- moving no further than needed ----

  /** The top from which `h` rows show row `row`, nearest to `top`. */
  function Near(row: int, top: int, h: int): int {
    if row < top then row else if row >= top + h then row - h + 1 else top
  }

  /** It shows the row; it is `top` if that does; and no other top that does is nearer. */
  lemma {:induction false} NearIsLeast(row: int, top: int, h: int, other: int)
    requires h >= 1
    ensures Near(row, top, h) <= row < Near(row, top, h) + h
    ensures top <= row < top + h ==> Near(row, top, h) == top
    ensures other <= row < other + h ==> Distance(Near(row, top, h), top) <= Distance(other, top)
  {
  }

  lemma {:induction false} NearIs(row: int, top: int, h: int)
    ensures Near(row, top, h) == if row < top then row else if row >= top + h then row - h + 1 else top
  {
  }

  function Distance(a: int, b: int): int { if a < b then b - a else a - b }
}
