/** Runs and inputs that show where the log view is not what it might seem (internal/ui/logview.go). */
module LogRuns {
  import opened Ansi
  import opened Windows
  import opened Split
  import opened Wrap
  import opened Ring
  import opened LogIndex
  import opened Options
  import opened LogWindow
  import opened LogCaches
  import opened LogLoops
  import opened LogSeen
  import opened LogFrames
  import opened LogViews

  function FindX(): Regex { Regex(s => false, s => if s == "x" then [Span(0, 1)] else [], s => |s|) }

  const MARKER := "--- 12:00:00 ---"

  function PlainEnv(): Env { Env(s => Cells(s), s => Cells(s), s => s == MARKER, [], Palette([], [])) }

  function LineOf(s: string): Entry { Entry(s, Cells(s), s, |s|) }

  lemma {:induction false} TwoLines(a: Entry, b: Entry, re: Regex, ind: int)
    ensures AllMatches([a, b], re, ind) == LineMatches(re.find(a.stripped), ind)
            + LineMatches(re.find(b.stripped), 1 + ind)
  {
    AllMatchesSnoc([], a, re, ind);
    AllMatchesSnoc([a], b, re, ind);
    assert [] + [a] == [a] && [a] + [b] == [a, b];
    assert AllMatches([], re, ind) == [];
  }

  lemma XAndX(ind: int)
    ensures AllMatches([LineOf("x"), LineOf("x")], FindX(), ind) == [MatchPos(ind, 0, 1), MatchPos(1 + ind, 0, 1)]
    ensures AllMatches([LineOf("x"), LineOf("y")], FindX(), ind) == [MatchPos(ind, 0, 1)]
  {
    TwoLines(LineOf("x"), LineOf("x"), FindX(), ind);
    TwoLines(LineOf("x"), LineOf("y"), FindX(), ind);
    hide AllMatches, Cells;
  }

  lemma IsLineOf(view: LogView, s: string)
    requires view.env == PlainEnv() && view.syntax
    ensures view.NewEntry(s) == LineOf(s)
  {
    TextOfCells(s);
  }

  lemma ThreePushes(a: Entry, b: Entry, c: Entry)
    ensures var two := EmptyBuffer(2).Push(a).Push(b);
            && two.lines == [a, b] && two.dropped == 0 && two.Full()
            && !EmptyBuffer(2).Push(a).Full() && !EmptyBuffer(2).Full()
            && two.Push(c).lines == [b, c] && two.Push(c).dropped == 1
  {
    assert [] + [a] == [a] && [a] + [b] == [a, b] && [a, b][1..] + [c] == [b, c];
  }

  lemma FoundTwo(v: View)
    requires v.filter.None? && v.search == Some(FindX()) && v.es == [LineOf("x"), LineOf("x")] && v.dropped == 0 &&
             Fresh(v)
    ensures |v.mp| == 2
  {
    XAndX(0);
    hide AllMatches, LineOf, FindX;
  }

  lemma SameFresh(v: View, v': View)
    requires Fresh(v) && v'.es == v.es && v'.dropped == v.dropped && v'.filter == v.filter && v'.fi == v.fi &&
             v'.off == v.off
    requires v'.search == v.search && v'.mp == v.mp
    ensures Fresh(v')
  {
  }

  lemma NowStale(v: View, env: Env, lines: seq<Row>, y: int, scroll: int, auto: bool, h: int)
    requires v.filter.None? && v.search == Some(FindX()) && v.es == [LineOf("x"), LineOf("y")] && v.dropped == 1 &&
             Fresh(v)
    requires v.mi == 1 && !v.softWrap && h == 8 && RenderedAs(v, env, lines, y, scroll, auto, h)
    ensures StaleSelection(v, scroll, h)
  {
    XAndX(1);
    assert v.mp == [MatchPos(1, 0, 1)] && scroll == 0 && v.mp[0].line == 1;
    hide AllMatches, LineOf, FindX, RenderedAs;
  }

  /** A full buffer of two lines with a match each. */
  method FillTwo() returns (view: LogView)
    ensures fresh(view) && view.Valid() && view.env == PlainEnv() && view.syntax && view.ViewportHeight() == 8
    ensures view.buffer == EmptyBuffer(2).Push(LineOf("x")).Push(LineOf("x"))
    ensures view.filter.None? && !view.softWrap
  {
    hide *;
    view := new LogView(82, 10, 2, PlainEnv());
    IsLineOf(view, "x");
    view.HeightIs();
    view.AppendLine("x");
    view.AppendLine("x");
    view.HeightIs();
  }

  /** The second match selected. */
  method SelectSecond() returns (view: LogView)
    ensures fresh(view) && view.Valid() && Fresh(view.Snap()) && view.env == PlainEnv() && view.syntax &&
            view.ViewportHeight() == 8
    ensures view.buffer == EmptyBuffer(2).Push(LineOf("x")).Push(LineOf("x"))
    ensures view.filter.None? && view.search == Some(FindX()) && !view.softWrap && view.matchIndex == 1
  {
    hide *;
    view := FillTwo();
    var _ := view.ApplySearch(Compiled(FindX()), false);
    ThreePushes(LineOf("x"), LineOf("x"), LineOf("x"));
    FoundTwo(view.Snap());
    ghost var v := view.Snap();
    view.SearchNext();
    SameFresh(v, view.Snap());
  }

  /** Then a line without a match: the index of the selected match is past the end of the new
      list, and the redraw reads it. */
  method StrandSelection() returns (view: LogView)
    ensures fresh(view) && view.Valid() && view.panicked
  {
    hide *;
    view := SelectSecond();
    IsLineOf(view, "y");
    ThreePushes(LineOf("x"), LineOf("x"), LineOf("y"));
    view.AppendLine("y");
    view.WasRendered();
    NowStale(view.Snap(), view.env, view.lines, view.wrapYOffset, view.scrollOffset, view.autoscroll,
             view.ViewportHeight());
    view.NowPanics();
  }

  /** A new filter and an arriving line treat a line differently exactly if it is shaped like
      a marker and the pattern does not accept it. */
  lemma {:induction false} ShapeMatters(re: Regex, e: Entry, env: Env)
    ensures Passes(re, e, AdmittedBy([e], env)[0]) != Passes(re, e, false) <==> env.isMarker(e.raw) && !re.test(e.raw)
  {
    AdmittedMarkers([e], env, 0);
  }

  /** So of two lines of that shape, one from before the filter and one from after, the view
      shows the first and hides the second. */
  method HideSecondMarker() returns (view: LogView)
    ensures fresh(view) && view.Valid()
    ensures view.buffer.lines == [LineOf(MARKER), LineOf(MARKER)] && view.filter == Some(FindX())
    ensures Shows(view.Snap()) == [LineOf(MARKER)]
  {
    hide *;
    view := new LogView(82, 10, 2, PlainEnv());
    IsLineOf(view, MARKER);
    ThreePushes(LineOf(MARKER), LineOf(MARKER), LineOf(MARKER));
    view.HeightIs();
    view.AppendLine(MARKER);
    OnePush(LineOf(MARKER));
    var _ := view.ApplySearch(Compiled(FindX()), true);
    view.Unpack();
    MarkerAdmitted(view.Snap(), view.admitted);
    view.AppendLine(MARKER);
  }

  lemma OnePush(e: Entry)
    ensures EmptyBuffer(2).Push(e).lines == [e]
    ensures !FindX().test(MARKER)
  {
  }

  lemma MarkerAdmitted(v: View, a: seq<bool>)
    requires v.es == [LineOf(MARKER)] && v.filter == Some(FindX()) && a == AdmittedBy(v.es, PlainEnv()) && IndexOk(v, a)
    ensures Shows(v) == v.es
  {
    AdmittedMarkers(v.es, PlainEnv(), 0);
    assert LineOf(MARKER).raw == MARKER && v.es[0].raw == MARKER;
    hide AdmittedBy, LineOf, IsPassing;
    OneListed(Shift(v.fi, v.off), v.es, FindX(), a);
  }

  lemma OneListed(vis: seq<int>, es: seq<Entry>, re: Regex, a: seq<bool>)
    requires |es| == 1 == |a| && a[0] && IsPassing(vis, es, re, a)
    ensures Selected(es, vis) == es
  {
    assert 0 in vis;
    IncreasingAbove(vis, |vis| - 1);
  }

  /** A hidden line above a match: the list that ClearFilter keeps has the match a line too
      high. */
  lemma StaleAfterClear()
    ensures var es, vis := [LineOf("y"), LineOf("x")], [1];
            && AllMatches(Selected(es, vis), FindX(), 0) == [MatchPos(0, 0, 1)]
            && AllMatches(es, FindX(), 0) == [MatchPos(1, 0, 1)]
  {
    var es, vis, x := [LineOf("y"), LineOf("x")], [1], LineOf("x");
    assert Selected(es, vis) == [x];
    TwoLines(LineOf("y"), x, FindX(), 0);
    AllMatchesSnoc([], x, FindX(), 0);
    assert [] + [x] == [x] && AllMatches([], FindX(), 0) == [];
    hide AllMatches, Cells;
  }

  function FindMarker(): Regex { Regex(s => false, s => if s == MARKER then [Span(0, 16)] else [], s => |s|) }

  function EmptySearch(): View { View([], 0, None, Some(FindMarker()), false, 80, [], 0, 0, [], -1) }

  lemma {:induction false} MarkerArrives(v: View, v': View, e: Entry)
    requires v == EmptySearch() && v' == v.(es := [e])
    ensures Arrived(v, v', e, true, false, 0) && Located(v)
  {
    assert [] + [e] == [e];
  }

  lemma {:induction false} MarkerMatches(e: Entry)
    requires e == LineOf(MARKER)
    ensures !NoMatch(e, FindMarker())
  {
  }

  lemma {:induction false} NothingToMatch(v: View)
    requires v == EmptySearch()
    ensures Fresh(v) && MatchesOk(v)
  {
  }

  /** A marker that the search matches, added to an empty view: the list stays empty. */
  lemma {:induction false} StaleAfterMarker()
    ensures var v := EmptySearch();
            var v' := v.(es := [LineOf(MARKER)]);
            Arrived(v, v', LineOf(MARKER), true, false, 0) && Fresh(v) && !Fresh(v')
  {
    hide *;
    var v, e := EmptySearch(), LineOf(MARKER);
    var v' := v.(es := [e]);
    MarkerArrives(v, v', e);
    NothingToMatch(v);
    Searches(v);
    MarkerMatches(e);
    MatchesLeftAlone(v, v', e, true, 0);
  }

  lemma {:induction false} Searches(v: View)
    requires v == EmptySearch()
    ensures v.search == Some(FindMarker()) && v.filter.None? && v.mp == [] && v.mi == -1
  {
  }

  // A notice of sixteen columns in a view of five: it takes five rows and counts as one.

  function UnderTheNotice(): View {
    View([LineOf("x"), LineOf("x")], 1, None, Some(FindX()), true, 5, [], 0, 3,
         [MatchPos(1, 0, 1), MatchPos(2, 0, 1)], 1)
  }

  lemma UnderTheNoticeOk()
    ensures Ok(UnderTheNotice(), [false, false]) && Fresh(UnderTheNotice()) &&
            MatchRow(UnderTheNotice(), MatchPos(2, 0, 1)) == 2
  {
    TextOfCells("x");
    XAndX(1);
    var v, e := UnderTheNotice(), LineOf("x");
    HeightsSnoc([], e, 5);
    HeightsSnoc([e], e, 5);
    assert [] + [e] == [e] && [e] + [e] == [e, e] && v.es[..1] == [e];
    hide AllMatches, LineOf, Cells, Heights;
    RebuiltMatches(v);
  }

  lemma {:induction false} CellsNarrow(s: string)
    ensures Narrow(Shown(Cells(s), []))
  {
    if s != "" {
      CellsNarrow(s[1..]);
      assert Cells(s)[1..] == Cells(s[1..]);
    }
  }

  lemma NarrowRowsOfLine(d: DisplayLine, vpW: Pos)
    requires OnRecord(d) && Narrow(Shown(d.text, []))
    ensures |LineRows(d, vpW)| == WrapHeight(d.width, vpW) && FillsRows(Shown(d.text, []), vpW)
  {
    NarrowFills(Shown(d.text, []), vpW);
    LineRowsExact(d, vpW);
  }

  lemma DisplayNarrow(v: View, env: Env, a: seq<bool>, di: nat)
    requires IndexOk(v, a) && di < |Shows(v)| + Ind(v)
    requires di >= Ind(v) ==> Narrow(Shown(Shows(v)[di - Ind(v)].colored, []))
    ensures Narrow(Shown(Display(v, env, true)[di].text, [])) && OnRecord(Display(v, env, true)[di])
  {
    DisplayOnRecord(v, env, true, a);
    DisplayLines(v, env, true, di);
    if di < Ind(v) {
      var text := NoticeText(v.dropped);
      CellsNarrow(text);
      BakeKeepsCells(Cells(text), false, v.search.Some?, v.mp, v.mi, 0, true, env.palette);
    } else {
      var e := Shows(v)[di - Ind(v)];
      BakeKeepsCells(e.colored, env.isMarker(e.raw), v.search.Some?, v.mp, v.mi, di, true, env.palette);
    }
    hide Bake, Cells, Shown, NoticeText, IndexOk, Display;
  }

  lemma NoticeWidth()
    ensures |NoticeText(1)| == 16 && WrapHeight(16, 5) == 5
  {
    assert |" lines dropped"| == 14 && |Decimal(1)| == 1;
  }

  /** The view and its window, with the notice in five rows and every line as counted. */
  lemma NoticeCounts(v: View, env: Env, ds: seq<DisplayLine>)
    requires v == UnderTheNotice() && ds == Display(v, env, true) && |ds| == 3 && Columns(v) == 5 && Ind(v) == 1
    requires |LineRows(ds[0], 5)| == 5 && OnRecord(ds[2]) && ds[2].width == 1 && |Shows(v)| == 2 &&
             Shows(v)[1].width == 1
    requires FillsRows(Shown(ds[1].text, []), 5) && FillsRows(Shown(ds[2].text, []), 5)
    ensures Excess(v, env) == 4 && Counted(ds, true, 5, 3) && CountedTo(v, env, MatchPos(2, 0, 1))
  {
    hide Display, LineRows, Shown, FillsRows, ColumnCounted, Shows, UnderTheNotice, Columns, Ind, GlyphWidth, PartsOf;
    LineRowsAreParts(ds[2], 5);
    InFirstRow(Shown(ds[2].text, []));
  }

  lemma NoticeLines(v: View, env: Env)
    requires v == UnderTheNotice()
    ensures var ds := Display(v, env, true);
            && |ds| == 3 && Columns(v) == 5 && Ind(v) == 1 && |Shows(v)| == 2 && Shows(v)[1].width == 1
            && ds[0].width == |NoticeText(1)| && ds[2].width == 1
  {
    DisplayLines(v, env, true, 0);
    DisplayLines(v, env, true, 2);
    hide Display, Bake, NoticeText, Cells;
  }

  lemma {:induction false} InFirstRow(gs: seq<Glyph>)
    requires GlyphWidth(gs) <= 5
    ensures ColumnCounted(gs, 5, 0)
  {
  }

  lemma NoticeSeen(v: View, env: Env, lines: seq<Row>)
    requires v == UnderTheNotice() && |Display(v, env, true)| == 3 && Columns(v) == 5 && Ind(v) == 1
    requires MatchSeen(v, env, lines, MatchPos(2, 0, 1), 0, 0, 3) && EndShown(v, env, lines, 0, 0, 3)
    requires CountedTo(v, env, MatchPos(2, 0, 1)) && Excess(v, env) == 4 && Counted(Display(v, env, true), true, 5, 3)
    requires MatchRow(v, MatchPos(2, 0, 1)) == 2
    ensures !Seen(lines, Display(v, env, true), 5, RealStart(v, env, 0), 2, 0)
    ensures !EndSeen(lines, Display(v, env, true), 5, RealStart(v, env, 0))
  {
    hide Display, Seen, EndSeen, RealStart, CountedTo, Counted, MatchRow, NoticeExcess;
  }

  lemma NoticeView(env: Env, lines: seq<Row>)
    requires lines == Window(FullWrap(Display(UnderTheNotice(), env, true), 5), RealStart(UnderTheNotice(), env, 0), 3)
    requires MatchRow(UnderTheNotice(), MatchPos(2, 0, 1)) == 2
    ensures RenderedAs(UnderTheNotice(), env, lines, 0, 0, true, 3)
    ensures var v := UnderTheNotice();
            && v.mp[v.mi] == MatchPos(2, 0, 1) && v.softWrap
            && v.es[0] == v.es[1] == LineOf("x") && |Shows(v)| == 2
    ensures Shows(UnderTheNotice()) == [LineOf("x"), LineOf("x")] && Ind(UnderTheNotice()) == 1
    ensures InView(UnderTheNotice(), MatchPos(2, 0, 1), 0, 0, 3) && LineOf("x").colored == Cells("x")
  {
    hide Display, FullWrap, RealStart, MatchRow, Window, Cells;
  }

  /** At the top, which is also the bottom, the window holds nothing but the notice: neither
      the selected match, whose counted row is within it, nor the last line. */
  lemma NoticeHidesMatch(env: Env, lines: seq<Row>)
    requires lines == Window(FullWrap(Display(UnderTheNotice(), env, true), 5), RealStart(UnderTheNotice(), env, 0), 3)
    ensures var v, ds := UnderTheNotice(), Display(UnderTheNotice(), env, true);
            && Ok(v, [false, false]) && Fresh(v) && RenderedAs(v, env, lines, 0, 0, true, 3)
            && InView(v, v.mp[v.mi], 0, 0, 3)
            && !Seen(lines, ds, 5, RealStart(v, env, 0), v.mp[v.mi].line, v.mp[v.mi].colStart)
            && !EndSeen(lines, ds, 5, RealStart(v, env, 0))
  {
    var v, ds, a := UnderTheNotice(), Display(UnderTheNotice(), env, true), [false, false];
    hide *;
    UnderTheNoticeOk();
    NoticeWidth();
    CellsNarrow("x");
    NoticeView(env, lines);
    NoticeLines(v, env);
    UnpackView(v, a);
    DisplayNarrow(v, env, a, 0);
    DisplayNarrow(v, env, a, 1);
    DisplayNarrow(v, env, a, 2);
    NarrowRowsOfLine(ds[0], 5);
    NarrowRowsOfLine(ds[1], 5);
    NarrowRowsOfLine(ds[2], 5);
    NoticeCounts(v, env, ds);
    MatchIsSeen(v, env, a, lines, MatchPos(2, 0, 1), 0, 0, true, 3);
    BottomShowsEnd(v, env, a, lines, 0, 0, 3);
    NoticeSeen(v, env, lines);
  }
}
