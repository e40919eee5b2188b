/**
  The loops of the log view (internal/ui/logview.go): counting rows, finding matches, filtering
  lines, and building the rows of the window that a redraw hands over.
 */
module LogLoops {
  import opened Ansi
  import opened Windows
  import opened Split
  import opened Wrap
  import opened Ring
  import opened LogIndex
  import opened LogWindow
  import opened LogCaches

  /** Entry `i` of the display list, without the notice. */
  function ShownEntry(v: View, buffer: Buffer, i: int): (e: Entry)
    requires v.es == buffer.lines && 0 <= i < |Shows(v)|
    ensures e == Shows(v)[i]
  {
    if v.filter.Some? then buffer.Get(v.fi[i] - v.off) else buffer.Get(i)
  }

  function ShownCount(v: View): (n: nat)
    ensures n == |Shows(v)|
  {
    if v.filter.Some? then |v.fi| else |v.es|
  }

  /** recomputeTotalWrappedRows */
  method CountRows(v: View, buffer: Buffer) returns (total: int)
    requires v.es == buffer.lines
    ensures total == TotalRows(Shows(v), v.dropped, v.vpWidth)
  {
    ghost var ds := Shows(v);
    total := 0;
    assert ds[..0] == [];
    var n := ShownCount(v);
    hide Shows, Heights;
    var i := 0;
    while i < n
      invariant 0 <= i <= n && total == Heights(ds[..i], v.vpWidth)
    {
      var e := ShownEntry(v, buffer, i);
      assert ds[..i + 1] == ds[..i] + [e];
      HeightsSnoc(ds[..i], e, v.vpWidth);
      total := total + WrapHeight(e.width, v.vpWidth);
      i := i + 1;
    }
    assert ds[..n] == ds;
    if v.dropped > 0 {
      total := total + 1;  // the notice's row
    }
  }

  /** rebuildMatchPositions */
  method FindMatches(v: View, buffer: Buffer, re: Regex) returns (positions: seq<MatchPos>)
    requires v.es == buffer.lines && Located(v)
    ensures positions == AllMatches(Shows(v), re, Ind(v))
  {
    ghost var ds := Shows(v);
    assert ds[..0] == [];
    positions := [];
    var n := ShownCount(v);
    NoMatchesYet(re);
    hide Shows, AllMatches;
    var i := 0;
    while i < n
      invariant 0 <= i <= n && positions == AllMatches(ds[..i], re, 0)
    {
      var bufIdx := if v.filter.Some? then v.fi[i] - v.off else i;
      if bufIdx >= 0 && bufIdx < |v.es| {
        var e := ShownEntry(v, buffer, i);
        assert ds[..i + 1] == ds[..i] + [e];
        AllMatchesSnoc(ds[..i], e, re, 0);
        var found := ComputeLineMatchPositions(e.stripped, re, i);
        positions := positions + found;
      }
      i := i + 1;
    }
    assert ds[..n] == ds;
    if v.dropped > 0 {
      LoweredMatches(ds, re);
      positions := Lowered(positions);
    }
  }

  /** The first display line that the window shows, and how many of its rows it skips. */
  method FirstVisible(v: View, buffer: Buffer, ghost ds: seq<DisplayLine>, ghost env: Env, vpW: Pos, y: nat)
    returns (first: nat, vOffset: nat)
    requires v.es == buffer.lines && ds == Display(v, env, true)
    ensures ds == [] ==> first == 0 && vOffset == 0
    ensures ds != [] ==> first < |ds|
    ensures var notice := Ind(v) == 1;
            ds != [] && y < CountedRows(ds, notice, vpW, |ds|) ==>
              && vOffset == y - CountedRows(ds, notice, vpW, first)
              && vOffset < CountedHeight(ds, notice, vpW, first)
  {
    hide Display, Shows, CountedRows, WrapHeight;
    var ind := Ind(v);
    var displayCount := ShownCount(v) + ind;
    ghost var notice := ind == 1;
    CountedNothing(ds, notice, vpW);
    var row := 0;
    first, vOffset := 0, 0;
    var di := 0;
    while di < displayCount
      invariant 0 <= di <= displayCount == |ds|
      invariant row == CountedRows(ds, notice, vpW, di) <= y
      invariant vOffset == 0 && first == if di == displayCount > 0 then displayCount - 1 else 0
    {
      var h := 1;
      DisplayLines(v, env, true, di);
      if !(ind == 1 && di == 0) {
        var e := ShownEntry(v, buffer, di - ind);
        h := WrapHeight(e.width, vpW);
      }
      CountedStep(ds, notice, vpW, di);
      if row + h > y {
        first := di;
        vOffset := y - row;
        return;
      }
      row := row + h;
      if di == displayCount - 1 {
        first := di;
        vOffset := 0;
      }
      di := di + 1;
    }
  }

  /** One display line with its highlights: the notice, or a buffered line. */
  method DisplayLineAt(v: View, buffer: Buffer, env: Env, both: bool, di: nat) returns (line: seq<Token>, w: nat)
    requires v.es == buffer.lines && MatchesOk(v) && di < |Shows(v)| + Ind(v)
    ensures DisplayLine(line, w) == DisplayAt(v, env, both, di)
  {
    hide Bake, Cells, Shows;
    var isMarker := false;
    if Ind(v) == 1 && di == 0 {
      var notice := NoticeText(v.dropped);
      line, w := Cells(notice), |notice|;
    } else {
      var e := ShownEntry(v, buffer, di - Ind(v));
      line, w := e.colored, e.width;
      isMarker := env.isMarker(e.raw);
    }
    line := BakeLine(line, isMarker, v.search.Some?, v.mp, v.mi, di, both, env.palette, |Shows(v)| + Ind(v));
  }

  /** The rows of a window that starts `vOffset` rows into display line `first`, built
      from the visible lines only. */
  method WindowRows(
      v: View, buffer: Buffer, ghost ds: seq<DisplayLine>, env: Env, vpW: Pos, vpHeight: nat, first: nat, vOffset: nat,
      ghost start: nat)
    returns (rows: seq<Row>)
    requires v.es == buffer.lines && MatchesOk(v) && ds == Display(v, env, true)
    requires StartsAt(ds, vpW, first, vOffset, start)
    ensures rows == Window(FullWrap(ds, vpW), start, vpHeight)
  {
    rows := [];
    var displayCount := ShownCount(v) + Ind(v);
    hide *;
    var di := first;
    CollectFirst(ds, vpW, start, vpHeight, first, vOffset);
    while di < displayCount && |rows| < vpHeight
      invariant first <= di && displayCount == |ds|
      invariant di <= |ds| && Collected(rows, ds, vpW, start, vpHeight, di)
      invariant di > first ==> |FullWrap(ds[..di], vpW)| >= start
      decreases displayCount - di
    {
      DisplayLines(v, env, true, di);
      var line, w := DisplayLineAt(v, buffer, env, true, di);
      var startRow := if di == first && w > vpW then vOffset else 0;
      var more := VisibleRows(DisplayLine(line, w), vpW, startRow, vpHeight - |rows|);
      CollectNext(rows, ds, vpW, start, vpHeight, first, vOffset, di, more);
      rows := rows + more;
      di := di + 1;
    }
    CollectedEnough(rows, ds, vpW, start, vpHeight, di);
  }

  function Columns(v: View): Pos { Max(1, v.vpWidth) }

  /** Where the window at counted row `y` starts among all rows. */
  ghost function RealStart(v: View, env: Env, y: int): nat {
    RealRowFrom(Display(v, env, true), Ind(v) == 1, Columns(v), y, 0)
  }

  /** updateViewportWrapped, after the scroll offset is settled. Whatever the cells of the
      lines, the rows handed over are a window of all the rows. */
  method WrappedWindow(v: View, buffer: Buffer, env: Env, vpHeight: nat, y: nat) returns (rows: seq<Row>)
    requires v.es == buffer.lines && TotalOk(v) && MatchesOk(v) && v.softWrap && vpHeight >= 1
    requires y <= Max(v.total - vpHeight, 0)
    ensures rows == Window(FullWrap(Display(v, env, true), Columns(v)), RealStart(v, env, y), vpHeight)
  {
    hide *;
    var vpW := if v.vpWidth <= 0 then 1 else v.vpWidth;
    ghost var ds := Display(v, env, true);
    RealStartIs(v, env, y);
    WindowStart(v, env, vpHeight, y);
    var first, vOffset := FirstVisible(v, buffer, ds, env, vpW, y);
    StartRow(ds, Ind(v) == 1, vpW, first, vOffset, y);
    rows := WindowRows(v, buffer, ds, env, vpW, vpHeight, first, vOffset, RealStart(v, env, y));
  }

  lemma {:induction false} RealStartIs(v: View, env: Env, y: int)
    ensures RealStart(v, env, y) == RealRowFrom(Display(v, env, true), Ind(v) == 1, Columns(v), y, 0)
    ensures Columns(v) == Max(1, v.vpWidth) == if v.vpWidth <= 0 then 1 else v.vpWidth
  {
  }

  /** The offset lies among the counted rows. */
  lemma WindowStart(v: View, env: Env, vpHeight: nat, y: nat)
    requires TotalOk(v) && v.softWrap && vpHeight >= 1 && y <= Max(v.total - vpHeight, 0)
    ensures var ds, notice := Display(v, env, true), Ind(v) == 1;
            && (ds == [] ==> y == 0)
            && (ds != [] ==> y < CountedRows(ds, notice, Max(1, v.vpWidth), |ds|))
  {
    var ds, notice := Display(v, env, true), Ind(v) == 1;
    CountedAll(v, env, true);
    CountedPositive(ds, notice, Max(1, v.vpWidth), |ds|);
    hide Display, Shows, CountedRows;
  }

  /** Every display line is as wide as recorded. */
  lemma DisplayOnRecord(v: View, env: Env, both: bool, a: seq<bool>)
    requires IndexOk(v, a)
    ensures AllOnRecord(Display(v, env, both))
  {
    InRange(v, a);
    forall di | 0 <= di < |Display(v, env, both)| ensures OnRecord(Display(v, env, both)[di]) {
      DisplayLines(v, env, both, di);
      LineOnRecord(v, env, both, di, a);
    }
  }

  lemma LineOnRecord(v: View, env: Env, both: bool, di: nat, a: seq<bool>)
    requires IndexOk(v, a) && Located(v) && di < |Shows(v)| + Ind(v)
    ensures OnRecord(DisplayAt(v, env, both, di))
  {
    if Ind(v) == 1 && di == 0 {
      var text := NoticeText(v.dropped);
      TextOfCells(text);
      BakeKeepsCells(Cells(text), false, v.search.Some?, v.mp, v.mi, 0, both, env.palette);
    } else {
      var e := Shows(v)[di - Ind(v)];
      ShownRecorded(v, a, di - Ind(v));
      BakeKeepsCells(e.colored, env.isMarker(e.raw), v.search.Some?, v.mp, v.mi, di, both, env.palette);
    }
    hide Bake, Cells, NoticeText, IndexOk, Shows;
  }

  /** Whether the selected match would be read past the end of the list. */
  method SelectionIsStale(v: View, windowStart: int, windowEnd: int) returns (stale: bool)
    requires MatchesOk(v)
    ensures stale <==> && v.search.Some? && v.mi >= |v.mp|
                       && exists i :: 0 <= i < |v.mp| && windowStart <= v.mp[i].line < windowEnd
  {
    hide Shows;
    stale := false;
    if v.search.Some? && |v.mp| > 0 {
      var startIdx := FirstAt(v.mp, windowStart, |Shows(v)| + Ind(v));
      if startIdx < |v.mp| && v.mp[startIdx].line < windowEnd {
        stale := v.mi >= 0 && v.mi >= |v.mp|;
      }
    }
  }

  /** updateViewport without soft wrap, after the scroll offset is settled. */
  method UnwrappedWindow(v: View, buffer: Buffer, env: Env, h: nat, scroll: nat) returns (rows: seq<Row>, stale: bool)
    requires v.es == buffer.lines && MatchesOk(v) && h >= 1
    requires scroll <= Max(|Shows(v)| + Ind(v) - h, 0)
    ensures stale <==> StaleSelection(v, scroll, h)
    ensures !stale ==> rows == Window(Unwrapped(Display(v, env, false)), scroll, h)
  {
    hide Shows, MatchesOk, Display, Unwrapped;
    var hasIndicator := Ind(v) == 1;
    var total := ShownCount(v);
    var start := Max(scroll - Ind(v), 0);
    var end := start + h;
    if hasIndicator && scroll == 0 {
      end := end - 1;
    }
    if end > total {
      end := total;
    }
    rows := [];
    var shown := Max(end - start, 0) + if hasIndicator && scroll == 0 then 1 else 0;
    stale := SelectionIsStale(v, scroll, scroll + shown);
    assert shown == Min(h, |Shows(v)| + Ind(v) - scroll);
    if stale {
      return;
    }
    rows := BakeRows(v, buffer, env, scroll, shown);
  }

  method BakeRows(v: View, buffer: Buffer, env: Env, scroll: nat, shown: nat) returns (rows: seq<Row>)
    requires v.es == buffer.lines && MatchesOk(v) && scroll + shown <= |Shows(v)| + Ind(v)
    ensures rows == Unwrapped(Display(v, env, false))[scroll..scroll + shown]
  {
    rows := [];
    ghost var ds := Display(v, env, false);
    hide Display, Shows, DisplayAt, MatchesOk;
    var k := 0;
    while k < shown
      invariant 0 <= k <= shown && |rows| == k
      invariant forall i :: 0 <= i < k ==> rows[i] == Row(ds[scroll + i].text, ds[scroll + i].width)
    {
      DisplayLines(v, env, false, scroll + k);
      var line, w := DisplayLineAt(v, buffer, env, false, scroll + k);
      rows := rows + [Row(line, w)];
      k := k + 1;
    }
  }

  /** The lines a new filter admits whatever the pattern says: those shaped like a marker. */
  ghost function AdmittedBy(es: seq<Entry>, env: Env): (a: seq<bool>)
    ensures |a| == |es|
  {
    if es == [] then [] else AdmittedBy(es[..|es| - 1], env) + [env.isMarker(es[|es| - 1].raw)]
  }

  lemma {:induction false} AdmittedMarkers(es: seq<Entry>, env: Env, i: nat)
    requires i < |es|
    ensures AdmittedBy(es, env)[i] == env.isMarker(es[i].raw)
    decreases |es|
  {
    if i < |es| - 1 {
      AdmittedMarkers(es[..|es| - 1], env, i);
    }
  }

  /** Lists the lines a new filter shows. */
  method FilterLines(es: seq<Entry>, re: Regex, env: Env, off: int) returns (fi: seq<int>)
    ensures IsPassing(Shift(fi, off), es, re, AdmittedBy(es, env))
  {
    fi := [];
    NothingPasses(re);
    assert Shift(fi, off) == [] && es[..0] == [];
    assert AdmittedBy([], env) == [];
    hide *;
    var i := 0;
    while i < |es|
      invariant 0 <= i <= |es| && IsPassing(Shift(fi, off), es[..i], re, AdmittedBy(es[..i], env))
    {
      var raw := es[i].raw;
      AdmittedNext(es, env, i);
      PassingNext(fi, off, es, i, re, AdmittedBy(es[..i], env), env.isMarker(raw));
      if re.test(raw) || env.isMarker(raw) {
        fi := fi + [off + i];
      }
      i := i + 1;
    }
    assert es[..|es|] == es;
  }

  lemma {:induction false} AdmittedNext(es: seq<Entry>, env: Env, i: nat)
    requires i < |es|
    ensures AdmittedBy(es[..i + 1], env) == AdmittedBy(es[..i], env) + [env.isMarker(es[i].raw)]
  {
    assert es[..i + 1][..i] == es[..i];
  }

  lemma PassingNext(fi: seq<int>, off: int, es: seq<Entry>, i: nat, re: Regex, admitted: seq<bool>, adm: bool)
    requires i < |es| && |admitted| == i && IsPassing(Shift(fi, off), es[..i], re, admitted)
    ensures IsPassing(Shift(if re.test(es[i].raw) || adm then fi + [off + i] else fi, off), es[..i + 1], re,
                      admitted + [adm])
  {
    hide IsPassing;
    PassingAppend(Shift(fi, off), es[..i], re, admitted, es[i], adm);
    assert es[..i] + [es[i]] == es[..i + 1];
    ShiftAppend(fi, off, off + i);
  }

  ghost predicate RenderedAs(v: View, env: Env, lines: seq<Row>, y: int, scroll: int, autoscroll: bool, h: int) {
    if v.softWrap then
      var ds := Display(v, env, true);
      && 0 <= y <= Max(v.total - h, 0)
      && (autoscroll ==> y == Max(v.total - h, 0))
      && lines == Window(FullWrap(ds, Columns(v)), RealStart(v, env, y), h)
    else
      && 0 <= scroll <= Max(|Shows(v)| + Ind(v) - h, 0)
      && (!StaleSelection(v, scroll, h) ==> lines == Window(Unwrapped(Display(v, env, false)), scroll, h))
  }

  /** At the bottom autoscroll may be turned on without redrawing. */
  lemma AutoscrollAtBottom(v: View, env: Env, lines: seq<Row>, y: int, scroll: int, auto: bool, h: int)
    requires v.softWrap && RenderedAs(v, env, lines, y, scroll, auto, h)
    ensures 0 <= y <= Max(v.total - h, 0)
    ensures y >= Max(v.total - h, 0) ==> RenderedAs(v, env, lines, y, scroll, true, h)
  {
  }

  lemma NothingPasses(re: Regex)
    ensures IsPassing([], [], re, [])
  {
  }

  /** The unwrapped rows of a display list. */
  function Unwrapped(ds: seq<DisplayLine>): (r: seq<Row>)
    ensures |r| == |ds|
  {
    seq(|ds|, i requires 0 <= i < |ds| => Row(ds[i].text, ds[i].width))
  }

  /** The unwrapped view reads the selected match by an index that is past the end of the
      match list, because some match is in the window. */
  ghost predicate StaleSelection(v: View, scroll: int, h: int) {
    && v.search.Some? && v.mi >= |v.mp|
    && exists i :: 0 <= i < |v.mp| && scroll <= v.mp[i].line < scroll + Min(h, |Shows(v)| + Ind(v) - scroll)
  }

  /** That is, some row to be handed over is that of a line with a match. */
  lemma {:induction false} StaleExactly(v: View, env: Env, scroll: nat, h: nat)
    ensures var rows := Window(Unwrapped(Display(v, env, false)), scroll, h);
            StaleSelection(v, scroll, h) <==>
            && v.search.Some? && v.mi >= |v.mp|
            && exists i :: 0 <= i < |v.mp| && 0 <= v.mp[i].line - scroll < |rows|
  {
    WindowAt(Unwrapped(Display(v, env, false)), scroll, h);
    hide Window, Unwrapped, Display, Shows;
  }

  /** Window row `start` is row `vOffset` of display line `first`, or the one after its last. */
  ghost predicate StartsAt(ds: seq<DisplayLine>, vpW: int, first: nat, vOffset: nat, start: nat) {
    if ds == [] then first == 0 && start == 0
    else
      && first < |ds| && start == |FullWrap(ds[..first], vpW)| + Clamp(vOffset, 0, |LineRows(ds[first], vpW)|)
      && (ds[first].width <= vpW ==> vOffset == 0)
  }

  /** Where the counted scroll offset lies among all the rows. */
  lemma {:induction false} StartRow(ds: seq<DisplayLine>, notice: bool, vpW: Pos, first: nat, vOffset: nat, y: nat)
    requires if ds == [] then first == 0 && y == 0 else first < |ds|
    requires ds != [] ==>
               vOffset == y - CountedRows(ds, notice, vpW, first) && vOffset < CountedHeight(ds, notice, vpW, first)
    ensures StartsAt(ds, vpW, first, vOffset, RealRowFrom(ds, notice, vpW, y, 0))
  {
    if ds != [] {
      RealRowSkips(ds, notice, vpW, y, first);
    }
    hide FullWrap, CountedRows, LineRows;
  }

  lemma {:induction false} NoMatchesYet(re: Regex)
    ensures AllMatches([], re, 0) == []
  {
  }

  lemma CollectFirst(ds: seq<DisplayLine>, vpW: int, start: nat, h: nat, first: nat, vOffset: nat)
    requires StartsAt(ds, vpW, first, vOffset, start)
    ensures first <= |ds| && Collected([], ds, vpW, start, h, first)
  {
    CollectNothing(ds, vpW, start, h, first);
  }

  lemma SkippedPast<T>(s: seq<T>, a: nat, n: int)
    ensures Window(s, a, n) == Window(s, Clamp(a, 0, |s|), n)
  {
  }

  lemma CollectNext(
      rows: seq<Row>, ds: seq<DisplayLine>, vpW: Pos, start: nat, h: nat, first: nat, vOffset: nat, di: nat,
      more: seq<Row>)
    requires StartsAt(ds, vpW, first, vOffset, start) && first <= di < |ds|
    requires Collected(rows, ds, vpW, start, h, di)
    requires di > first ==> |FullWrap(ds[..di], vpW)| >= start
    requires more == Window(LineRows(ds[di], vpW), if di == first && ds[di].width > vpW then vOffset else 0, h - |rows|)
    ensures Collected(rows + more, ds, vpW, start, h, di + 1)
    ensures |FullWrap(ds[..di + 1], vpW)| >= start
  {
    if di == first {
      SkippedPast(LineRows(ds[di], vpW), vOffset, h - |rows|);
    }
    CollectLine(rows, ds, vpW, start, h, di, more);
    WrapSnoc(ds, vpW, di);
    hide FullWrap, LineRows, Window, Collected;
  }
}
