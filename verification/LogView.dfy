/**
  The log view (internal/ui/logview.go): a bounded buffer of lines with a filter, a search
  and soft wrapping, each served by a cache that is updated as lines arrive and leave.

  Valid says that every cache equals what a rescan of the buffer would give. Every method
  keeps it. Fresh says the same of the match list; the operations that let the list go
  stale state exactly when they do.
 */
module LogViews {
  import opened Ansi
  import opened Windows
  import opened Split
  import opened Wrap
  import opened Ring
  import opened LogIndex
  import opened Options
  import opened LogWindow
  import opened LogCaches
  import opened LogLoops
  import opened LogSeen
  import opened LogFrames

  class LogView {
    const env: Env
    var buffer: Buffer
    var width: int
    var height: int
    var borderless: bool
    var showHeader: bool
    var autoscroll: bool
    var softWrap: bool
    var syntax: bool
    var filter: Option<Regex>
    var search: Option<Regex>
    var matchPositions: seq<MatchPos>
    var matchIndex: int
    var scrollOffset: int
    var filteredIndices: seq<int>
    var filteredIndexOffset: int
    var wrapYOffset: int
    var totalWrappedRows: int
    var vpWidth: int            // logVP.width
    var lines: seq<Row>         // logVP.lines with their widths
    var panicked: bool          // an index out of range stopped the program
    ghost var admitted: seq<bool>

    function Snap(): (v: View)
      reads this
      ensures v.es == buffer.lines && v.dropped == buffer.dropped
      ensures v.filter == filter && v.search == search && v.softWrap == softWrap && v.vpWidth == vpWidth
      ensures v.fi == filteredIndices && v.off == filteredIndexOffset && v.total == totalWrappedRows
      ensures v.mp == matchPositions && v.mi == matchIndex
    {
      View(buffer.lines, buffer.dropped, filter, search, softWrap, vpWidth,
           filteredIndices, filteredIndexOffset, totalWrappedRows, matchPositions, matchIndex)
    }

    ghost predicate Valid()
      reads this
    {
      buffer.Valid() && Ok(Snap(), admitted)
    }

    /** The viewport height inside an outer height of `h`. */
    function HeightFor(h: int): int
      reads `borderless, `showHeader
    {
      if borderless then (if showHeader then h - 1 else h) else h - 2
    }

    function ViewportHeight(): (r: int)
      reads `borderless, `showHeader, `height
      ensures r == HeightFor(height)
    {
      if borderless then (if showHeader then height - 1 else height) else height - 2
    }

    /** The viewport was given the current window, of the wrapped display list or of the
        unwrapped one. */
    ghost predicate Rendered()
      reads this
    {
      RenderedAs(Snap(), env, lines, wrapYOffset, scrollOffset, autoscroll, ViewportHeight())
    }

    /** The redraw reads the selected match past the end of the match list. */
    ghost predicate Panics()
      reads this
    {
      !softWrap && StaleSelection(Snap(), scrollOffset, ViewportHeight())
    }

    /** The window is where it was, at `y` wrapped rows or `s` lines from the top, or as near
        to it as there are rows; under autoscroll wrapped rows stay at the bottom. */
    ghost predicate Stays(y: int, s: int)
      reads this
    {
      if softWrap then
        wrapYOffset == (if autoscroll then MaxWrapped() else Clamp(y, 0, MaxWrapped())) && scrollOffset == s
      else wrapYOffset == y && scrollOffset == Clamp(s, 0, MaxScroll())
    }

    /** The end of the log is on screen, as EndShown has it. */
    ghost predicate AtEnd()
      reads this
    {
      EndShown(Snap(), env, lines, wrapYOffset, scrollOffset, ViewportHeight())
    }

    constructor (w: int, h: int, bufCapacity: int, env: Env)
      ensures Valid() && !panicked
      ensures this.env == env && width == w && height == h && !borderless && showHeader && syntax &&
              matchPositions == []
      ensures buffer == EmptyBuffer(bufCapacity) && filter.None? && search.None? && !softWrap && autoscroll
    {
      this.env := env;
      buffer := EmptyBuffer(bufCapacity);
      width, height := w, h;
      borderless, showHeader, autoscroll, softWrap, syntax := false, true, true, false, true;
      filter, search := None, None;
      matchPositions, matchIndex := [], 0;
      scrollOffset, filteredIndices, filteredIndexOffset := 0, [], 0;
      wrapYOffset, totalWrappedRows := 0, 0;
      vpWidth := w - 2;
      lines, panicked := [], false;
      admitted := [];
    }

    // ---- the viewport ----

    /** updateViewport and updateViewportWrapped. */
    method UpdateViewport()
      requires Valid() && ViewportHeight() >= 1
      modifies `lines, `wrapYOffset, `scrollOffset, `panicked
      ensures Valid() && Rendered()
      ensures softWrap ==> scrollOffset == old(scrollOffset)
      ensures softWrap && !autoscroll ==>
                wrapYOffset == Clamp(old(wrapYOffset), 0, Max(totalWrappedRows - ViewportHeight(), 0))
      ensures !softWrap ==>
                && wrapYOffset == old(wrapYOffset)
                && scrollOffset == Clamp(old(scrollOffset), 0, Max(|Shows(Snap())| + Ind(Snap()) - ViewportHeight(), 0))
      ensures Stays(old(wrapYOffset), old(scrollOffset))
      ensures panicked == (old(panicked) || Panics())
    {
      var h := ViewportHeight();
      hide IndexOk, TotalOk, MatchesOk, Display, Shows, Window, FullWrap, NoticeExcess, RealStart, StaleSelection,
        Unwrapped;
      if softWrap {
        var maxOffset := Max(totalWrappedRows - h, 0);
        if wrapYOffset > maxOffset {
          wrapYOffset := maxOffset;
        }
        if wrapYOffset < 0 {
          wrapYOffset := 0;
        }
        if autoscroll {
          wrapYOffset := maxOffset;
        }
        var rows := WrappedWindow(Snap(), buffer, env, h, wrapYOffset);
        lines := rows;
      } else {
        var maxOffset := Max(ShownCount(Snap()) + Ind(Snap()) - h, 0);
        if scrollOffset > maxOffset {
          scrollOffset := maxOffset;
        }
        if scrollOffset < 0 {
          scrollOffset := 0;
        }
        var rows, stale := UnwrappedWindow(Snap(), buffer, env, h, scrollOffset);
        if stale {
          panicked := true;
        } else {
          lines := rows;
        }
      }
    }

    method RecomputeTotalWrappedRows()
      modifies `totalWrappedRows
      ensures totalWrappedRows == TotalRows(Shows(Snap()), buffer.dropped, vpWidth)
    {
      ghost var v := Snap();
      var total := CountRows(Snap(), buffer);
      totalWrappedRows := total;
      SameShows(v, Snap());
    }

    method RebuildMatchPositions()
      requires Located(Snap()) && -1 <= matchIndex
      modifies `matchPositions
      ensures MatchesOk(Snap()) && Fresh(Snap())
    {
      ghost var v := Snap();
      if search.None? {
        matchPositions := [];
      } else {
        var positions := FindMatches(Snap(), buffer, search.value);
        matchPositions := positions;
      }
      SameShows(v, Snap());
      RebuiltMatches(Snap());
    }

    lemma IsValid()
      requires buffer.Valid() && IndexOk(Snap(), admitted) && TotalOk(Snap()) && MatchesOk(Snap())
      ensures Valid()
    {
    }

    lemma Unpack()
      requires Valid()
      ensures buffer.Valid() && Ok(Snap(), admitted) && Located(Snap())
      ensures IndexOk(Snap(), admitted) && TotalOk(Snap()) && MatchesOk(Snap()) && -1 <= matchIndex
    {
      InRange(Snap(), admitted);
    }

    /** Brings the row count up to date and redraws. */
    method Recount()
      requires buffer.Valid() && IndexOk(Snap(), admitted) && MatchesOk(Snap()) && ViewportHeight() >= 1
      modifies `totalWrappedRows, `lines, `wrapYOffset, `scrollOffset, `panicked
      ensures Valid() && Rendered()
      ensures old(Fresh(Snap())) <==> Fresh(Snap())
      ensures panicked == (old(panicked) || Panics())
      ensures !softWrap ==> scrollOffset == Clamp(old(scrollOffset), 0, MaxScroll())
      ensures Stays(old(wrapYOffset), old(scrollOffset))
    {
      hide *;
      ghost var v := Snap();
      OldIndex(v);
      if softWrap {
        RecomputeTotalWrappedRows();
      }
      TotalIs(Snap());
      SameIndex(v, Snap(), admitted);
      SameMatches(v, Snap());
      ghost var v1 := Snap();
      IsValid();
      UpdateViewport();
      SameMatches(v, Snap());
      ScrolledDown(0);
      SameState(v1, Snap(), admitted);
    }

    /** rebuildViewportContent */
    method RebuildViewportContent()
      requires buffer.Valid() && IndexOk(Snap(), admitted) && ViewportHeight() >= 1
      modifies `matchIndex, `matchPositions, `totalWrappedRows, `lines, `wrapYOffset, `scrollOffset, `panicked
      ensures Valid() && Fresh(Snap()) && Rendered()
      ensures matchIndex == if matchPositions == [] then -1 else 0
      ensures panicked == old(panicked) && !Panics()
      ensures Stays(old(wrapYOffset), old(scrollOffset))
    {
      ghost var v := Snap();
      hide Stays, IndexOk, TotalOk, MatchesOk, Fresh, Shows, TotalRows, Located, Rendered, StaleSelection;
      matchIndex := -1;
      SameIndex(v, Snap(), admitted);
      RebuildMatchPositions();
      ghost var v1 := Snap();
      if |matchPositions| > 0 {
        matchIndex := 0;
      }
      SameMatches(v1, Snap());
      SameIndex(v, Snap(), admitted);
      ghost var w := Snap();
      Recount();
      NotStale(Snap());
      NoPanic();
    }

    // ---- arriving lines ----

    /** Drops the filter entries that refer to an evicted line. */
    method TrimFiltered() returns (ghost k: nat)
      modifies `filteredIndices
      ensures k <= |old(filteredIndices)| && filteredIndices == old(filteredIndices)[k..]
      ensures forall i :: 0 <= i < k ==> old(filteredIndices)[i] < filteredIndexOffset
      ensures k < |old(filteredIndices)| ==> old(filteredIndices)[k] >= filteredIndexOffset
    {
      k := 0;
      while |filteredIndices| > 0 && filteredIndices[0] < filteredIndexOffset
        invariant k <= |old(filteredIndices)| && filteredIndices == old(filteredIndices)[k..]
        invariant forall i :: 0 <= i < k ==> old(filteredIndices)[i] < filteredIndexOffset
        decreases |filteredIndices|
      {
        filteredIndices := filteredIndices[1..];
        k := k + 1;
      }
    }

    function NewEntry(line: string): (e: Entry)
      reads `syntax
      ensures e.raw == line && Recorded(e) && e.colored == if syntax then env.highlight(line) else env.decode(line)
    {
      var colored := if syntax then env.highlight(line) else env.decode(line);
      Entry(line, colored, Text(colored), Width(colored))
    }

    /** A line enters the buffer and, if it passes, the filter list; a full buffer loses
        its oldest line from both. */
    method Receive(e: Entry, ghost adm: bool, passes: bool) returns (evicted: bool, ghost k: nat)
      requires Valid() && Recorded(e)
      requires filter.Some? ==> passes == Passes(filter.value, e, adm)
      modifies `buffer, `admitted, `filteredIndices, `filteredIndexOffset
      ensures evicted == old(buffer).Full() && buffer == old(buffer).Push(e)
      ensures admitted == Kept(old(admitted), evicted) + [adm]
      ensures Arrived(old(Snap()), Snap(), e, adm, evicted, k)
      ensures IndexOk(Snap(), admitted) && Located(Snap())
    {
      ghost var v, a, b := Snap(), admitted, buffer;
      hide *;
      Unpack();
      AtStart(v);
      var droppedBefore := buffer.dropped;
      PushDrops(b, e);
      buffer := buffer.Push(e);
      evicted := buffer.dropped > droppedBefore;
      admitted := Kept(admitted, evicted) + [adm];
      k := 0;
      if filter.Some? {
        if evicted {
          filteredIndexOffset := filteredIndexOffset + 1;
          k := TrimFiltered();
        }
        if passes {
          filteredIndices := filteredIndices + [filteredIndexOffset + |buffer.lines| - 1];
        } else {
          assert filteredIndices + [] == filteredIndices;
        }
      }
      ArrivedBy(b, v, Snap(), e, adm, evicted, k);
      ArrivalKeepsIndex(v, Snap(), e, adm, evicted, k, a);
      InRange(Snap(), admitted);
    }

    /** The row count after an arrival: adjusted by the lines that came and went, or
        counted again when a filter is active. */
    method CountArrival(
        ghost v: View, e: Entry, evictedWidth: int, evicted: bool, firstDrop: bool, ghost adm: bool, ghost k: nat)
      requires Arrived(v, Snap(), e, adm, evicted, k) && TotalOk(v) && totalWrappedRows == v.total
      requires evicted && softWrap ==> evictedWidth == v.es[0].width
      requires firstDrop == (v.dropped == 0)
      modifies `totalWrappedRows
      ensures TotalOk(Snap())
    {
      ghost var v1 := Snap();
      if softWrap && filter.None? {
        TotalOfArrival(v, v1, e, adm, evicted, k);
        hide Shows, TotalRows, WrapHeight;
        totalWrappedRows := totalWrappedRows + WrapHeight(e.width, vpWidth);
        if evicted {
          totalWrappedRows := totalWrappedRows - WrapHeight(evictedWidth, vpWidth);
        }
        if evicted && firstDrop {
          totalWrappedRows := totalWrappedRows + 1;  // the notice's row
        }
        SameShows(v1, Snap());
      } else if softWrap {
        RecomputeTotalWrappedRows();
      }
    }

    /** The match list after an arrival on display: extended at the end, or rebuilt when an
        eviction moved every line. */
    method MatchArrival(ghost v: View, e: Entry, evicted: bool, ghost k: nat)
      requires Arrived(v, Snap(), e, false, evicted, k) && Located(v) && Located(Snap()) && MatchesOk(v)
      requires matchPositions == v.mp && matchIndex == v.mi
      requires evicted || filter.None? || filter.value.test(e.raw)
      modifies `matchPositions
      ensures MatchesOk(Snap()) && (Fresh(v) ==> Fresh(Snap()))
    {
      ghost var v1 := Snap();
      if search.Some? {
        if evicted {
          OldIndex(v);
          RebuildMatchPositions();
        } else {
          MatchesOfArrival(v, v1, e, false, k);
          OldIndex(v);
          var displayIdx := ShownCount(Snap()) - 1 + Ind(Snap());
          hide Shows, MatchesOk, Fresh, AllMatches, Located, Arrived;
          var found := ComputeLineMatchPositions(e.stripped, search.value, displayIdx);
          matchPositions := matchPositions + found;
          AppendedMatches(v, v1, Snap());
        }
      } else {
        NoSearch(v, Snap());
      }
    }

    method AppendLine(line: string)
      requires Valid() && ViewportHeight() >= 1
      modifies `buffer, `admitted, `totalWrappedRows, `filteredIndices, `filteredIndexOffset, `matchPositions,
               `lines, `wrapYOffset, `scrollOffset, `panicked
      ensures Valid()
      ensures buffer == old(buffer).Push(NewEntry(line)) &&
              admitted == Kept(old(admitted), old(buffer).Full()) + [false]
      ensures old(Fresh(Snap())) ==> Fresh(Snap())
      ensures if filter.Some? && !filter.value.test(line) && !old(buffer).Full()
              then && lines == old(lines) && Shows(Snap()) == old(Shows(Snap())) && panicked == old(panicked)
                   && wrapYOffset == old(wrapYOffset) && scrollOffset == old(scrollOffset)
              else && Rendered() && panicked == (old(panicked) || Panics())
                   && (!autoscroll ==> Stays(old(wrapYOffset), old(scrollOffset)))
                   && (autoscroll ==> AtEnd() && (!softWrap ==> scrollOffset == MaxScroll()))
    {
      ghost var v, a := Snap(), admitted;
      hide *;
      Unpack();
      var firstDrop := buffer.dropped == 0;
      var e := NewEntry(line);
      var evictedWidth := if buffer.Full() && softWrap then buffer.Get(0).width else 0;
      var matched := filter.Some? && filter.value.test(line);
      PlainPass(v, e);
      ghost var k;
      var evicted;
      evicted, k := Receive(e, false, matched);
      if filter.Some? && !matched && !evicted {
        HiddenArrival(v, Snap(), e, k, a);
        IsValid();
        return;
      }
      Absorb(v, e, evictedWidth, evicted, firstDrop, k);
      Redraw();
    }

    /** Follows the tail of the log if asked to, and redraws. */
    method Redraw()
      requires buffer.Valid() && IndexOk(Snap(), admitted) && TotalOk(Snap()) && MatchesOk(Snap()) &&
               ViewportHeight() >= 1
      modifies `lines, `wrapYOffset, `scrollOffset, `panicked
      ensures Valid() && Rendered() && (old(Fresh(Snap())) <==> Fresh(Snap()))
      ensures !autoscroll ==> Stays(old(wrapYOffset), old(scrollOffset))
      ensures panicked == (old(panicked) || Panics())
      ensures autoscroll ==> AtEnd() && (!softWrap ==> scrollOffset == MaxScroll())
    {
      hide *;
      ghost var v := Snap();
      FollowTail();
      SameState(v, Snap(), admitted);
      IsValid();
      UpdateViewport();
      SameState(v, Snap(), admitted);
      ScrolledDown(|Shows(Snap())| + Ind(Snap()) - ViewportHeight());
      if autoscroll {
        EndIsShown();
      }
    }

    /** Following the tail, once clamped, is being at the bottom. */
    lemma ScrolledDown(below: int)
      ensures MaxScroll() == Max(|Shows(Snap())| + Ind(Snap()) - ViewportHeight(), 0) >= 0
      ensures below == |Shows(Snap())| + Ind(Snap()) - ViewportHeight() ==> Clamp(below, 0, MaxScroll()) == MaxScroll()
    {
    }

    lemma EndIsShown()
      requires Valid() && Rendered() && autoscroll && ViewportHeight() >= 1
      requires !softWrap ==> scrollOffset == MaxScroll()
      ensures AtEnd()
    {
      hide RenderedAs, EndShown, Ok, Shows;
      BottomShowsEnd(Snap(), env, admitted, lines, wrapYOffset, scrollOffset, ViewportHeight());
    }

    /** The row count and the match list after an arrival on display. */
    method Absorb(ghost v: View, e: Entry, evictedWidth: int, evicted: bool, firstDrop: bool, ghost k: nat)
      requires Arrived(v, Snap(), e, false, evicted, k) && IndexOk(Snap(), admitted)
      requires TotalOk(v) && MatchesOk(v) && Located(v) && Located(Snap())
      requires totalWrappedRows == v.total && matchPositions == v.mp && matchIndex == v.mi
      requires evicted && softWrap ==> evictedWidth == v.es[0].width
      requires firstDrop == (v.dropped == 0)
      requires evicted || filter.None? || filter.value.test(e.raw)
      modifies `totalWrappedRows, `matchPositions
      ensures IndexOk(Snap(), admitted) && TotalOk(Snap()) && MatchesOk(Snap()) && (Fresh(v) ==> Fresh(Snap()))
    {
      hide *;
      ghost var v1 := Snap();
      CountArrival(v, e, evictedWidth, evicted, firstDrop, false, k);
      ghost var v2 := Snap();
      SameIndex(v1, v2, admitted);
      SameArrival(v, v1, v2, e, false, evicted, k);
      MatchArrival(v, e, evicted, k);
      SameIndex(v2, Snap(), admitted);
      SameTotal(v2, Snap());
    }

    method FollowTail()
      modifies `scrollOffset
      ensures scrollOffset ==
              if autoscroll && !softWrap then |Shows(Snap())| + Ind(Snap()) - ViewportHeight() else old(scrollOffset)
    {
      hide Shows;
      if autoscroll && !softWrap {
        scrollOffset := ShownCount(Snap()) + Ind(Snap()) - ViewportHeight();
      }
    }

    /** `raw` is the timestamp line. Unlike AppendLine, a marker that evicts nothing leaves
        the match list as it was: it goes stale if and only if the pattern matches the
        marker. */
    method InsertMarker(raw: string)
      requires Valid() && ViewportHeight() >= 1
      modifies `buffer, `admitted, `totalWrappedRows, `filteredIndices, `filteredIndexOffset, `matchPositions,
               `lines, `wrapYOffset, `scrollOffset, `panicked
      ensures Valid() && Rendered()
      ensures panicked == (old(panicked) || Panics())
      ensures !autoscroll ==> Stays(old(wrapYOffset), old(scrollOffset))
      ensures autoscroll ==> AtEnd() && (!softWrap ==> scrollOffset == MaxScroll())
      ensures var e := MarkerEntry(raw);
              && buffer == old(buffer).Push(e) && admitted == Kept(old(admitted), old(buffer).Full()) + [true]
              && (old(Fresh(Snap())) ==>
                    (Fresh(Snap()) <==> old(buffer).Full() || search.None? || NoMatch(e, search.value)))
    {
      ghost var v, a := Snap(), admitted;
      hide *;
      Unpack();
      var firstDrop := buffer.dropped == 0;
      var e := MarkerEntry(raw);
      var evictedWidth := if buffer.Full() && softWrap then buffer.Get(0).width else 0;
      MarkerPass(v, e);
      ghost var k;
      var evicted;
      evicted, k := Receive(e, true, true);
      AbsorbMarker(v, e, evictedWidth, evicted, firstDrop, k);
      Redraw();
    }

    /** The row count and the match list after a marker. */
    method AbsorbMarker(ghost v: View, e: Entry, evictedWidth: int, evicted: bool, firstDrop: bool, ghost k: nat)
      requires Arrived(v, Snap(), e, true, evicted, k) && IndexOk(Snap(), admitted)
      requires TotalOk(v) && MatchesOk(v) && Located(v) && -1 <= matchIndex
      requires totalWrappedRows == v.total && matchPositions == v.mp && matchIndex == v.mi
      requires evicted && softWrap ==> evictedWidth == v.es[0].width
      requires firstDrop == (v.dropped == 0)
      modifies `totalWrappedRows, `matchPositions
      ensures IndexOk(Snap(), admitted) && TotalOk(Snap()) && MatchesOk(Snap())
      ensures Fresh(v) ==> (Fresh(Snap()) <==> evicted || search.None? || NoMatch(e, search.value))
    {
      hide *;
      ghost var v1 := Snap();
      CountArrival(v, e, evictedWidth, evicted, firstDrop, true, k);
      ghost var v2 := Snap();
      SameIndex(v1, v2, admitted);
      SameArrival(v, v1, v2, e, true, evicted, k);
      if evicted {
        RebuildMatchPositions();
      } else {
        MatchesLeftAlone(v, v2, e, true, k);
        MarkerPass(v, e);
        SameSettings(v, v2, e, k);
        FreshWithoutSearch(v2);
      }
      SameIndex(v2, Snap(), admitted);
      SameTotal(v2, Snap());
    }

    function MarkerEntry(raw: string): (e: Entry)
      ensures e.raw == raw && Recorded(e) && e.colored == MarkerCells(env.markerStyle, raw)
    {
      MarkerText(env.markerStyle, raw);
      Entry(raw, MarkerCells(env.markerStyle, raw), raw, |raw|)
    }

    // ---- filter and search ----

    method ApplySearch(pattern: Pattern, asFilter: bool) returns (ok: bool)
      requires Valid() && ViewportHeight() >= 1
      modifies `filter, `search, `admitted, `filteredIndices, `matchIndex, `matchPositions, `totalWrappedRows,
               `lines, `wrapYOffset, `scrollOffset, `panicked
      ensures ok <==> !pattern.Malformed?
      ensures Valid() && panicked == old(panicked)
      ensures !ok ==> Snap() == old(Snap()) && admitted == old(admitted) && lines == old(lines)
      ensures ok ==> Fresh(Snap()) && Rendered() && matchIndex == if matchPositions == [] then -1 else 0
      ensures if ok then Stays(old(wrapYOffset), old(scrollOffset))
              else wrapYOffset == old(wrapYOffset) && scrollOffset == old(scrollOffset)
      ensures ok ==>
                var compiled := if pattern.Compiled? then Some(pattern.re) else None;
                && filter == (if asFilter then compiled else old(filter))
                && search == (if asFilter then old(search) else compiled)
      ensures ok && asFilter && pattern.Compiled? ==> admitted == AdmittedBy(buffer.lines, env)
    {
      if pattern.Malformed? {
        return false;
      }
      ApplyPattern(if pattern.Compiled? then Some(pattern.re) else None, asFilter);
      ok := true;
    }

    method ApplyPattern(compiled: Option<Regex>, asFilter: bool)
      requires Valid() && ViewportHeight() >= 1
      modifies `filter, `search, `admitted, `filteredIndices, `matchIndex, `matchPositions, `totalWrappedRows,
               `lines, `wrapYOffset, `scrollOffset, `panicked
      ensures Valid() && panicked == old(panicked) && Fresh(Snap()) && Rendered()
      ensures Stays(old(wrapYOffset), old(scrollOffset))
      ensures matchIndex == if matchPositions == [] then -1 else 0
      ensures if asFilter then filter == compiled && search == old(search)
              else filter == old(filter) && search == compiled
      ensures asFilter && compiled.Some? ==> admitted == AdmittedBy(buffer.lines, env)
    {
      hide *;
      Unpack();
      if asFilter {
        SetFilter(compiled);
      } else {
        SetSearch(compiled);
      }
      RebuildViewportContent();
    }

    method SetFilter(re: Option<Regex>)
      requires Valid()
      modifies `filter, `filteredIndices, `admitted
      ensures IndexOk(Snap(), admitted) && filter == re
      ensures re.Some? ==> admitted == AdmittedBy(buffer.lines, env)
    {
      filter := re;
      filteredIndices := [];
      if filter.Some? {
        filteredIndices := FilterLines(buffer.lines, filter.value, env, filteredIndexOffset);
        admitted := AdmittedBy(buffer.lines, env);
      }
      hide IsPassing;
    }

    method SetSearch(re: Option<Regex>)
      requires Valid()
      modifies `search
      ensures IndexOk(Snap(), admitted) && search == re
    {
      ghost var v := Snap();
      hide *;
      Unpack();
      search := re;
      SameIndex(v, Snap(), admitted);
    }

    method ClearSearch()
      requires Valid() && ViewportHeight() >= 1
      modifies `search, `matchPositions, `matchIndex, `lines, `wrapYOffset, `scrollOffset, `panicked
      ensures Valid() && Fresh(Snap()) && Rendered()
      ensures search.None? && matchPositions == [] && matchIndex == -1 && panicked == old(panicked)
      ensures Stays(old(wrapYOffset), old(scrollOffset))
    {
      hide *;
      Unpack();
      ghost var v := Snap();
      search, matchPositions, matchIndex := None, [], -1;
      ghost var v1 := Snap();
      SameIndex(v, v1, admitted);
      SameTotal(v, v1);
      RebuiltMatches(v1);
      NotStale(v1);
      IsValid();
      UpdateViewport();
      SameState(v1, Snap(), admitted);
      NoPanic();
    }

    /** The match list is kept as it is. It is right for the unfiltered view if and only if
        no hidden line lies at or before a line that matches. */
    method ClearFilter()
      requires Valid() && ViewportHeight() >= 1
      modifies `filter, `filteredIndices, `filteredIndexOffset, `totalWrappedRows, `lines, `wrapYOffset, `scrollOffset,
        `panicked
      ensures Valid() && Rendered() && filter.None? && matchPositions == old(matchPositions)
      ensures Stays(old(wrapYOffset), old(scrollOffset))
      ensures panicked == (old(panicked) || Panics())
      ensures old(Fresh(Snap())) ==>
                (Fresh(Snap()) <==>
                   search.None? || old(filter.None?) ||
                   MatchesAboveHidden(buffer.lines, Shift(old(filteredIndices), old(filteredIndexOffset)),
                                      search.value))
    {
      ghost var v := Snap();
      hide *;
      Unpack();
      filter, filteredIndices, filteredIndexOffset := None, [], 0;
      Unfiltered(v, Snap(), admitted);
      Recount();
    }

    // ---- presentation ----

    method SetSize(w: int, h: int)
      requires Valid() && HeightFor(h) >= 1
      modifies `width, `height, `vpWidth, `totalWrappedRows, `lines, `wrapYOffset, `scrollOffset, `panicked
      ensures Valid() && Rendered() && width == w && height == h
      ensures Stays(old(wrapYOffset), old(scrollOffset))
      ensures panicked == (old(panicked) || Panics())
      ensures vpWidth == if borderless then w else w - 2
      ensures old(Fresh(Snap())) ==> Fresh(Snap())
    {
      hide *;
      ghost var v := Snap();
      Unpack();
      width, height := w, h;
      vpWidth := if borderless then w else w - 2;
      Resized(v, Snap(), admitted);
      Recount();
    }

    method ToggleWrap()
      requires Valid() && ViewportHeight() >= 1
      modifies `softWrap, `totalWrappedRows, `lines, `wrapYOffset, `scrollOffset, `panicked
      ensures Valid() && Rendered() && softWrap == !old(softWrap)
      ensures !autoscroll ==> Stays(if softWrap then 0 else old(wrapYOffset), old(scrollOffset))
      ensures panicked == (old(panicked) || Panics())
      ensures autoscroll ==> AtEnd() && (!softWrap ==> scrollOffset == MaxScroll())
      ensures old(Fresh(Snap())) ==> Fresh(Snap())
    {
      hide *;
      ghost var v := Snap();
      Unpack();
      softWrap := !softWrap;
      Resized(v, Snap(), admitted);
      if softWrap {
        wrapYOffset := 0;
      } else {
        FollowTail();
      }
      ghost var v1 := Snap();
      SameIndex(v1, Snap(), admitted);
      Recount();
      SameIndex(v1, Snap(), admitted);
      SameInd(v1, Snap());
      if autoscroll {
        ScrolledDown(|Shows(Snap())| + Ind(Snap()) - ViewportHeight());
        EndIsShown();
      }
    }

    /** Every stored line is decorated again, or shown undecorated. */
    method ToggleSyntax()
      requires Valid() && ViewportHeight() >= 1
      modifies `syntax, `buffer, `matchIndex, `matchPositions, `totalWrappedRows, `lines, `wrapYOffset, `scrollOffset,
        `panicked
      ensures Valid() && Rendered() && syntax == !old(syntax)
      ensures matchIndex == if search.None? then old(matchIndex) else if matchPositions == [] then -1 else 0
      ensures Stays(old(wrapYOffset), old(scrollOffset))
      ensures panicked == (old(panicked) || Panics())
      ensures Fresh(Snap())
      ensures buffer.dropped == old(buffer).dropped && |buffer.lines| == |old(buffer).lines|
      ensures forall i :: 0 <= i < |buffer.lines| ==> buffer.lines[i] == NewEntry(old(buffer).lines[i].raw)
    {
      hide *;
      Unpack();
      ghost var v := Snap();
      syntax := !syntax;
      Redecorate();
      Redecorated(v, Snap(), admitted);
      if search.Some? {
        RebuildViewportContent();
      } else {
        FreshWithoutSearch(Snap());
        Recount();
      }
    }

    method Redecorate()
      requires buffer.Valid()
      modifies `buffer
      ensures buffer.Valid() && buffer.capacity == old(buffer).capacity && buffer.dropped == old(buffer).dropped
      ensures |buffer.lines| == |old(buffer).lines|
      ensures forall i :: 0 <= i < |buffer.lines| ==> buffer.lines[i] == NewEntry(old(buffer).lines[i].raw)
    {
      var i := 0;
      while i < |buffer.lines|
        invariant buffer.Valid() && buffer.capacity == old(buffer).capacity && buffer.dropped == old(buffer).dropped
        invariant 0 <= i <= |buffer.lines| == |old(buffer).lines|
        invariant forall j :: 0 <= j < i ==> buffer.lines[j] == NewEntry(old(buffer).lines[j].raw)
        invariant forall j :: i <= j < |buffer.lines| ==> buffer.lines[j] == old(buffer).lines[j]
      {
        buffer := buffer.(lines := buffer.lines[i := NewEntry(buffer.lines[i].raw)]);
        i := i + 1;
      }
    }

    method ClearAndRestart()
      requires Valid()
      modifies `buffer, `admitted, `lines, `matchPositions, `matchIndex, `scrollOffset, `wrapYOffset, `totalWrappedRows,
               `filteredIndices, `filteredIndexOffset, `autoscroll, `filter, `search
      ensures Valid() && Fresh(Snap())
      ensures buffer == EmptyBuffer(old(buffer).capacity) && filter.None? && search.None? && autoscroll && lines == []
      ensures scrollOffset == wrapYOffset == totalWrappedRows == 0 && matchPositions == [] && matchIndex == -1
    {
      hide *;
      buffer := EmptyBuffer(buffer.capacity);
      ClearScreen();
      ClearLists();
      NothingYet(Snap());
      IsValid();
    }

    method ClearScreen()
      modifies `lines, `scrollOffset, `wrapYOffset, `totalWrappedRows, `autoscroll
      ensures lines == [] && scrollOffset == wrapYOffset == totalWrappedRows == 0 && autoscroll
    {
      hide *;
      lines := [];
      scrollOffset, wrapYOffset, totalWrappedRows := 0, 0, 0;
      autoscroll := true;
    }

    method ClearLists()
      modifies `admitted, `matchPositions, `matchIndex, `filteredIndices, `filteredIndexOffset, `filter, `search
      ensures admitted == [] && matchPositions == [] && matchIndex == -1 && filteredIndices == [] &&
              filteredIndexOffset == 0
      ensures filter.None? && search.None?
    {
      hide *;
      admitted := [];
      matchPositions, matchIndex := [], -1;
      filteredIndices, filteredIndexOffset := [], 0;
      filter, search := None, None;
    }

    // ---- scrolling ----

    ghost function MaxScroll(): int
      reads this
    {
      Max(|Shows(Snap())| + Ind(Snap()) - ViewportHeight(), 0)
    }

    function MaxWrapped(): (r: int)
      reads this
      ensures r >= 0
    {
      Max(totalWrappedRows - ViewportHeight(), 0)
    }

    /** ScrollUp and PageUp, by `n` rows. */
    method ScrollUp(n: nat)
      requires Valid() && ViewportHeight() >= 1
      modifies `autoscroll, `lines, `wrapYOffset, `scrollOffset, `panicked
      ensures Valid() && Rendered() && !autoscroll && Snap() == old(Snap())
      ensures panicked == (old(panicked) || Panics())
      ensures softWrap ==> wrapYOffset == Min(Max(old(wrapYOffset) - n, 0), MaxWrapped())
      ensures !softWrap ==> scrollOffset == Clamp(old(scrollOffset) - n, 0, MaxScroll())
    {
      ghost var v := Snap();
      hide Ok, Rendered, Shows;
      if softWrap {
        wrapYOffset := wrapYOffset - n;
        if wrapYOffset < 0 {
          wrapYOffset := 0;
        }
      } else {
        scrollOffset := scrollOffset - n;
      }
      autoscroll := false;
      assert Snap() == v;
      UpdateViewport();
    }

    /** ScrollDown and PageDown: reaching the bottom turns autoscroll on. */
    method ScrollDown(n: nat)
      requires Valid() && ViewportHeight() >= 1
      modifies `autoscroll, `lines, `wrapYOffset, `scrollOffset, `panicked
      ensures Valid() && Rendered() && Snap() == old(Snap())
      ensures panicked == (old(panicked) || Panics())
      ensures softWrap && !old(autoscroll) ==> wrapYOffset == Clamp(old(wrapYOffset) + n, 0, MaxWrapped())
      ensures !softWrap ==> scrollOffset == Clamp(old(scrollOffset) + n, 0, MaxScroll())
      ensures autoscroll <==>
                || old(autoscroll)
                || if softWrap then wrapYOffset == MaxWrapped()
                   else old(scrollOffset) + n >= |Shows(Snap())| + Ind(Snap()) - ViewportHeight()
    {
      hide Ok, Rendered, Shows, StaleSelection;
      if softWrap {
        ScrollDownWrapped(n);
      } else {
        ghost var v := Snap();
        scrollOffset := scrollOffset + n;
        if scrollOffset >= ShownCount(Snap()) + Ind(Snap()) - ViewportHeight() {
          autoscroll := true;
        }
        assert Snap() == v;
        UpdateViewport();
      }
    }

    /** The part of scrolling down that moves through wrapped rows. */
    method ScrollDownWrapped(n: nat)
      requires softWrap && Valid() && ViewportHeight() >= 1
      modifies `autoscroll, `lines, `wrapYOffset, `scrollOffset, `panicked
      ensures Valid() && Rendered() && Snap() == old(Snap())
      ensures panicked == old(panicked)
      ensures !old(autoscroll) ==> wrapYOffset == Clamp(old(wrapYOffset) + n, 0, MaxWrapped())
      ensures autoscroll <==> old(autoscroll) || wrapYOffset == MaxWrapped()
    {
      hide Ok, Rendered, Shows, StaleSelection;
      ghost var v := Snap();
      wrapYOffset := wrapYOffset + n;
      SameState(v, Snap(), admitted);
      UpdateViewport();
      FollowAtBottom();
      SameState(v, Snap(), admitted);
    }

    method FollowAtBottom()
      requires softWrap && Rendered() && Valid()
      modifies `autoscroll
      ensures Rendered() && Valid()
      ensures autoscroll <==> old(autoscroll) || wrapYOffset == MaxWrapped()
    {
      ghost var v := Snap();
      hide Ok, RenderedAs;
      AutoscrollAtBottom(v, env, lines, wrapYOffset, scrollOffset, autoscroll, ViewportHeight());
      if wrapYOffset >= Max(totalWrappedRows - ViewportHeight(), 0) {
        autoscroll := true;
      }
      SameState(v, Snap(), admitted);
    }

    method GotoTop()
      requires Valid() && ViewportHeight() >= 1
      modifies `autoscroll, `lines, `wrapYOffset, `scrollOffset, `panicked
      ensures Valid() && Rendered() && !autoscroll && Snap() == old(Snap())
      ensures panicked == (old(panicked) || Panics())
      ensures if softWrap then wrapYOffset == 0 && scrollOffset == old(scrollOffset)
              else scrollOffset == 0 && wrapYOffset == old(wrapYOffset)
    {
      ghost var v := Snap();
      hide Ok, Rendered, Shows;
      if softWrap {
        wrapYOffset := 0;
      } else {
        scrollOffset := 0;
      }
      autoscroll := false;
      assert Snap() == v;
      UpdateViewport();
    }

    method GotoBottom()
      requires Valid() && ViewportHeight() >= 1
      modifies `autoscroll, `lines, `wrapYOffset, `scrollOffset, `panicked
      ensures Valid() && Rendered() && autoscroll && Snap() == old(Snap()) && AtEnd()
      ensures if softWrap then wrapYOffset == MaxWrapped() && scrollOffset == old(scrollOffset)
              else scrollOffset == MaxScroll() && wrapYOffset == old(wrapYOffset)
      ensures panicked == (old(panicked) || Panics())
    {
      ghost var v := Snap();
      hide Ok, Shows, Display, FullWrap, RealStart, Window, StaleSelection, Unwrapped, AtEnd;
      if softWrap {
        wrapYOffset := Max(totalWrappedRows - ViewportHeight(), 0);
      } else {
        scrollOffset := ShownCount(Snap()) + Ind(Snap()) - ViewportHeight();
      }
      autoscroll := true;
      assert Snap() == v;
      UpdateViewport();
      EndIsShown();
    }

    /** Turning autoscroll on goes to the bottom; turning it off redraws nothing. */
    method ToggleAutoscroll()
      requires Valid() && ViewportHeight() >= 1
      modifies `autoscroll, `lines, `wrapYOffset, `scrollOffset, `panicked
      ensures Valid() && autoscroll == !old(autoscroll) && Snap() == old(Snap())
      ensures if autoscroll then
                && Rendered() && AtEnd() && panicked == (old(panicked) || Panics())
                && (if softWrap then wrapYOffset == MaxWrapped() && scrollOffset == old(scrollOffset)
                    else scrollOffset == MaxScroll() && wrapYOffset == old(wrapYOffset))
              else lines == old(lines) && wrapYOffset == old(wrapYOffset) && scrollOffset == old(scrollOffset) &&
                   panicked == old(panicked)
    {
      hide *;
      ghost var v := Snap();
      Unpack();
      if autoscroll {
        autoscroll := false;
        SameState(v, Snap(), admitted);
        IsValid();
      } else {
        GotoBottom();
      }
    }

    // ---- going from match to match ----

    /** The row in which the match starts is within the window, as the scroll arithmetic
        counts rows. */
    ghost predicate InCountedView(pos: MatchPos)
      reads this
      requires 0 <= pos.line
    {
      InView(Snap(), pos, wrapYOffset, scrollOffset, ViewportHeight())
    }

    /** What of the match is among the rows handed over, as MatchSeen has it. */
    ghost predicate OnScreen(pos: MatchPos)
      reads this
    {
      MatchSeen(Snap(), env, lines, pos, wrapYOffset, scrollOffset, ViewportHeight())
    }

    /** The window has moved from `y` wrapped rows or `s` lines no further than the match
        needs, and as far as there are rows. */
    ghost predicate Follows(pos: MatchPos, y: int, s: int, redrawn: bool)
      requires 0 <= pos.line
      reads this
    {
      var h := ViewportHeight();
      if softWrap then
        && scrollOffset == s
        && wrapYOffset == Clamp(Near(MatchRow(Snap(), pos), y, h), 0, MaxWrapped())
      else
        && wrapYOffset == y
        && scrollOffset == if redrawn then Clamp(Near(pos.line, s, h), 0, MaxScroll()) else Near(pos.line, s, h)
    }

    lemma NowFollows(v: View, pos: MatchPos, y: int, s: int, redrawn: bool, newY: int, newS: int)
      requires v == Snap() && 0 <= pos.line
      requires softWrap ==>
                 && newY == Near(MatchRow(v, pos), y, ViewportHeight()) && newS == s
                 && wrapYOffset == Clamp(newY, 0, Max(totalWrappedRows - ViewportHeight(), 0)) && scrollOffset == newS
      requires !softWrap ==>
                 && newS == Near(pos.line, s, ViewportHeight()) && newY == y && wrapYOffset == newY
                 && scrollOffset == if redrawn then Clamp(newS, 0, MaxScroll()) else newS
      ensures Follows(pos, y, s, redrawn)
    {
      hide Near, MatchRow, Shows;
    }

    /** A redraw where the window is keeps it there. */
    lemma StillFollows(v: View, pos: MatchPos, y: int, s: int, before: int, scroll: int)
      requires v == Snap() && 0 <= pos.line
      requires if softWrap then
                 && scroll == s
                 && before == Clamp(Near(MatchRow(v, pos), y, ViewportHeight()), 0,
                                    Max(totalWrappedRows - ViewportHeight(), 0))
               else before == y && scroll == Near(pos.line, s, ViewportHeight())
      requires if softWrap then
                 && scrollOffset == scroll
                 && wrapYOffset == Clamp(before, 0, Max(totalWrappedRows - ViewportHeight(), 0))
               else wrapYOffset == before && scrollOffset == Clamp(scroll, 0, MaxScroll())
      ensures Follows(pos, y, s, true)
    {
      hide Near, MatchRow, Shows;
    }

    lemma Following(v: View, pos: MatchPos, y: int, s: int)
      requires v == Snap() && 0 <= pos.line && Follows(pos, y, s, false)
      ensures if softWrap then
                && scrollOffset == s
                && wrapYOffset == Clamp(Near(MatchRow(v, pos), y, ViewportHeight()), 0,
                                        Max(totalWrappedRows - ViewportHeight(), 0))
              else wrapYOffset == y && scrollOffset == Near(pos.line, s, ViewportHeight())
    {
    }

    lemma IsOnScreen(pos: MatchPos)
      requires Valid() && Rendered() && ViewportHeight() >= 1 && !Panics()
      requires 0 <= pos.line < |Shows(Snap())| + Ind(Snap()) && InCountedView(pos)
      ensures OnScreen(pos)
    {
      hide RenderedAs, MatchSeen, Ok, Shows, InView, StaleSelection;
      MatchIsSeen(Snap(), env, admitted, lines, pos, wrapYOffset, scrollOffset, autoscroll, ViewportHeight());
    }

    lemma HeightIs()
      ensures ViewportHeight() == height - if !borderless then 2 else if showHeader then 1 else 0
    {
    }

    lemma WasRendered()
      requires Rendered()
      ensures RenderedAs(Snap(), env, lines, wrapYOffset, scrollOffset, autoscroll, ViewportHeight())
    {
    }

    lemma NowPanics()
      requires !softWrap && StaleSelection(Snap(), scrollOffset, ViewportHeight())
      ensures Panics()
    {
    }

    lemma NoPanic()
      requires softWrap || forall y, h :: !StaleSelection(Snap(), y, h)
      ensures !Panics()
    {
    }

    /** Without soft wrap the redraw is left to the caller. */
    method EnsureMatchVisible()
      requires Valid() && ViewportHeight() >= 1
      modifies `autoscroll, `lines, `wrapYOffset, `scrollOffset, `panicked
      ensures Valid() && Snap() == old(Snap()) && panicked == old(panicked)
      ensures 0 <= matchIndex < |matchPositions| ==>
                && !autoscroll && 0 <= matchPositions[matchIndex].line && InCountedView(matchPositions[matchIndex])
                && (softWrap ==> Rendered() && OnScreen(matchPositions[matchIndex]))
                && Follows(matchPositions[matchIndex], old(wrapYOffset), old(scrollOffset), false)
      ensures !(0 <= matchIndex < |matchPositions|) ==>
                && autoscroll == old(autoscroll) && lines == old(lines)
                && wrapYOffset == old(wrapYOffset) && scrollOffset == old(scrollOffset)
    {
      if matchIndex < 0 || matchIndex >= |matchPositions| {
        return;
      }
      ghost var v := Snap();
      hide *;
      Unpack();
      MatchLine(v);
      SelectionInRange(v);
      autoscroll := false;
      if softWrap {
        ShowRowOf(matchPositions[matchIndex]);
      } else {
        ShowLineOf(matchPositions[matchIndex]);
      }
    }

    method ShowLineOf(pos: MatchPos)
      requires Valid() && ViewportHeight() >= 1 && !softWrap && 0 <= pos.line
      modifies `scrollOffset
      ensures Valid() && Snap() == old(Snap()) && InCountedView(pos)
      ensures Follows(pos, wrapYOffset, old(scrollOffset), false)
    {
      ghost var v := Snap();
      hide *;
      Unpack();
      var h := ViewportHeight();
      if pos.line < scrollOffset {
        scrollOffset := pos.line;
      } else if pos.line >= scrollOffset + h {
        scrollOffset := pos.line - h + 1;
      }
      BroughtIntoView(v, pos, wrapYOffset, scrollOffset, h);
      SameState(v, Snap(), admitted);
      IsValid();
      IsInView(pos);
      NearIs(pos.line, old(scrollOffset), h);
      NowFollows(v, pos, wrapYOffset, old(scrollOffset), false, wrapYOffset, scrollOffset);
    }

    method ShowRowOf(pos: MatchPos)
      requires Valid() && ViewportHeight() >= 1 && softWrap && !autoscroll &&
               0 <= pos.line < |Shows(Snap())| + Ind(Snap())
      modifies `lines, `wrapYOffset, `scrollOffset, `panicked
      ensures Valid() && Snap() == old(Snap()) && panicked == old(panicked)
      ensures InCountedView(pos) && Rendered() && OnScreen(pos)
      ensures Follows(pos, old(wrapYOffset), old(scrollOffset), false)
    {
      ghost var v := Snap();
      hide *;
      Unpack();
      var row := RowOfMatch(Snap(), buffer, pos);
      if row < wrapYOffset {
        wrapYOffset := row;
      } else if row >= wrapYOffset + ViewportHeight() {
        wrapYOffset := row - ViewportHeight() + 1;
      }
      ghost var y, s := wrapYOffset, scrollOffset;
      BroughtIntoView(v, pos, y, s, ViewportHeight());
      SameState(v, Snap(), admitted);
      IsValid();
      UpdateViewport();
      SameState(v, Snap(), admitted);
      StillInView(v, pos, y, s, wrapYOffset, scrollOffset, ViewportHeight());
      IsInView(pos);
      NoPanic();
      IsOnScreen(pos);
      NearIs(row, old(wrapYOffset), ViewportHeight());
      NowFollows(v, pos, old(wrapYOffset), old(scrollOffset), false, y, s);
    }

    method SearchNext()
      requires Valid() && ViewportHeight() >= 1
      modifies `matchIndex, `autoscroll, `lines, `wrapYOffset, `scrollOffset, `panicked
      ensures Valid()
      ensures matchIndex == if search.Some? && |matchPositions| > 0 then (old(matchIndex) + 1) % |matchPositions|
              else old(matchIndex)
      ensures search.Some? && |matchPositions| > 0 ==>
                && Rendered() && panicked == old(panicked) && !autoscroll
                && 0 <= matchIndex < |matchPositions| && 0 <= matchPositions[matchIndex].line
                && OnScreen(matchPositions[matchIndex])
                && Follows(matchPositions[matchIndex], old(wrapYOffset), old(scrollOffset), true)
    {
      hide *;
      if search.None? || |matchPositions| == 0 {
        return;
      }
      ghost var v := Snap();
      Unpack();
      matchIndex := (matchIndex + 1) % |matchPositions|;
      SelectMatch(v);
    }

    /** An index that is still past the end after the step back is left there. */
    method SearchPrev()
      requires Valid() && ViewportHeight() >= 1
      modifies `matchIndex, `autoscroll, `lines, `wrapYOffset, `scrollOffset, `panicked
      ensures Valid()
      ensures matchIndex == if search.Some? && |matchPositions| > 0 then
                              (if old(matchIndex) - 1 < 0 then |matchPositions| - 1 else old(matchIndex) - 1)
                            else old(matchIndex)
      ensures search.Some? && |matchPositions| > 0 ==> Rendered() && panicked == (old(panicked) || Panics())
      ensures search.Some? && |matchPositions| > 0 && old(matchIndex) <= |matchPositions| ==>
                && panicked == old(panicked) && !autoscroll
                && 0 <= matchIndex < |matchPositions| && 0 <= matchPositions[matchIndex].line
                && OnScreen(matchPositions[matchIndex])
                && Follows(matchPositions[matchIndex], old(wrapYOffset), old(scrollOffset), true)
    {
      hide *;
      if search.None? || |matchPositions| == 0 {
        return;
      }
      ghost var v := Snap();
      Unpack();
      matchIndex := matchIndex - 1;
      if matchIndex < 0 {
        matchIndex := |matchPositions| - 1;
      }
      SelectMatch(v);
    }

    /** The common end of SearchNext and SearchPrev. */
    method SelectMatch(ghost v: View)
      requires buffer.Valid() && Ok(v, admitted) && Snap() == v.(mi := matchIndex) && matchIndex >= 0 &&
               ViewportHeight() >= 1
      modifies `autoscroll, `lines, `wrapYOffset, `scrollOffset, `panicked
      ensures Valid() && Rendered() && Snap() == old(Snap()) && panicked == (old(panicked) || Panics())
      ensures matchIndex < |matchPositions| ==>
                && panicked == old(panicked) && !autoscroll && 0 <= matchPositions[matchIndex].line
                && OnScreen(matchPositions[matchIndex])
                && Follows(matchPositions[matchIndex], old(wrapYOffset), old(scrollOffset), true)
    {
      ghost var v1 := Snap();
      hide *;
      SelectionKept(v, v1, admitted);
      IsValid();
      EnsureMatchVisible();
      ghost var y, s := wrapYOffset, scrollOffset;
      ghost var visible := matchIndex < |matchPositions|;
      if visible {
        MatchLine(v1);
        WasInView(matchPositions[matchIndex]);
        Following(v1, matchPositions[matchIndex], old(wrapYOffset), old(scrollOffset));
      }
      UpdateViewport();
      SameState(v1, Snap(), admitted);
      if visible {
        SelectionInRange(v1);
        StillInView(v1, matchPositions[matchIndex], y, s, wrapYOffset, scrollOffset, ViewportHeight());
        IsInView(matchPositions[matchIndex]);
        NoPanic();
        IsOnScreen(matchPositions[matchIndex]);
        ScrolledDown(0);
        StillFollows(v1, matchPositions[matchIndex], old(wrapYOffset), old(scrollOffset), y, s);
      }
    }

    lemma WasInView(pos: MatchPos)
      requires 0 <= pos.line && InCountedView(pos)
      ensures InView(Snap(), pos, wrapYOffset, scrollOffset, ViewportHeight())
    {
    }

    lemma IsInView(pos: MatchPos)
      requires 0 <= pos.line && InView(Snap(), pos, wrapYOffset, scrollOffset, ViewportHeight())
      ensures InCountedView(pos)
    {
    }
  }
}
