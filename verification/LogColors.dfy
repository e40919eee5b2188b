/**
  Which cells a redraw colours (internal/ui/logview.go): in the rows handed over, the cells of
  a line at the columns of its matches have the highlight colour, those of the selected match
  the other one, and all the rest their own style.
 */
module LogColors {
  import opened Ansi
  import opened Windows
  import opened Split
  import opened Wrap
  import opened Highlight
  import opened Ring
  import opened LogIndex
  import opened LogWindow
  import opened LogCaches
  import opened LogLoops
  import opened LogSeen

  /** The match holds column `c` of display line `di`. */
  predicate Holds(p: MatchPos, di: int, c: int) { p.line == di && p.colStart <= c < p.colEnd }

  /** The matches of a line are not empty, begin where a cell does, and are in order. */
  ghost predicate Clean(mp: seq<MatchPos>, di: int, gs: seq<Glyph>) {
    && (forall i :: 0 <= i < |mp| && mp[i].line == di ==>
          mp[i].colStart < mp[i].colEnd && Boundary(gs, 0, mp[i].colStart))
    && (forall i, j :: 0 <= i < j < |mp| && mp[i].line == di && mp[j].line == di ==> mp[i].colEnd <= mp[j].colStart)
  }

  /** Cell `g` at column `c` of display line `di`, drawn as `b`. */
  ghost predicate Colored(g: Glyph, b: Glyph, mp: seq<MatchPos>, mi: int, di: int, c: int, pal: Palette) {
    && b.text == g.text && b.w == g.w
    && (forall m :: 0 <= m < |mp| && Holds(mp[m], di, c) ==> b.style == if m == mi then pal.sel else pal.hi)
    && ((forall m :: 0 <= m < |mp| ==> !Holds(mp[m], di, c)) ==> b.style == g.style)
  }

  /** The column at which cell `k` starts. */
  function ColumnOf(gs: seq<Glyph>, k: nat): nat
    requires k <= |gs|
  {
    GlyphWidth(gs[..k])
  }

  // ---- the matches of one line ----

  /** Where in the list the matches of a line are. */
  ghost function Where(ps: seq<MatchPos>, di: int): seq<nat> {
    if ps == [] then [] else Where(ps[..|ps| - 1], di) + if ps[|ps| - 1].line == di then [|ps| - 1] else []
  }

  lemma {:induction false} WhereRight(ps: seq<MatchPos>, di: int)
    ensures var at := Where(ps, di);
            && |at| == |OnLine(ps, di)|
            && (forall j :: 0 <= j < |at| ==> at[j] < |ps| && ps[at[j]].line == di && OnLine(ps, di)[j] == ps[at[j]])
            && (forall i, j :: 0 <= i < j < |at| ==> at[i] < at[j])
            && (forall m :: 0 <= m < |ps| && ps[m].line == di ==> m in at)
    decreases |ps|
  {
    hide *;
    if ps == [] {
      WhereNone(di);
    } else {
      var n := |ps| - 1;
      WhereRight(ps[..n], di);
      WhereStep(ps, di);
      WhereGrows(ps, di, Where(ps[..n], di), OnLine(ps[..n], di), Where(ps, di), OnLine(ps, di));
    }
  }

  lemma {:induction false} WhereNone(di: int)
    ensures Where([], di) == [] && OnLine([], di) == []
  {
  }

  lemma {:induction false} WhereGrows(
      ps: seq<MatchPos>, di: int, before: seq<nat>, some: seq<MatchPos>, at: seq<nat>, all: seq<MatchPos>)
    requires ps != [] && |before| == |some|
    requires var n, last := |ps| - 1, ps[|ps| - 1];
             && at == before + (if last.line == di then [n] else [])
             && all == some + (if last.line == di then [last] else [])
             && (forall j :: 0 <= j < |before| ==> before[j] < n && ps[..n][before[j]].line == di
                                                   && some[j] == ps[..n][before[j]])
             && (forall m :: 0 <= m < n && ps[..n][m].line == di ==> m in before)
    requires forall i, j :: 0 <= i < j < |before| ==> before[i] < before[j]
    ensures |at| == |all|
    ensures forall j :: 0 <= j < |at| ==> at[j] < |ps| && ps[at[j]].line == di && all[j] == ps[at[j]]
    ensures forall i, j :: 0 <= i < j < |at| ==> at[i] < at[j]
    ensures forall m :: 0 <= m < |ps| && ps[m].line == di ==> m in at
  {
    forall m | 0 <= m < |ps| && ps[m].line == di ensures m in at {
      if m < |ps| - 1 {
        assert ps[..|ps| - 1][m].line == di && m in before;
      }
    }
  }

  lemma {:induction false} WhereStep(ps: seq<MatchPos>, di: int)
    requires ps != []
    ensures var n, last := |ps| - 1, ps[|ps| - 1];
            && Where(ps, di) == Where(ps[..n], di) + (if last.line == di then [n] else [])
            && OnLine(ps, di) == OnLine(ps[..n], di) + (if last.line == di then [last] else [])
  {
  }

  lemma {:induction false} FirstIs(lp: seq<MatchPos>, s: MatchPos, k: nat, both: bool, j: nat)
    requires k <= j < |lp| && lp[j] == s && forall i :: k <= i < j ==> lp[i].colStart != s.colStart
    ensures IndexOf(lp, s, k, both) == j
    decreases j - k
  {
    if k < j {
      FirstIs(lp, s, k + 1, both, j);
    }
  }

  /** The selected match is found among those of its line. */
  lemma {:induction false} SelectedIs(ps: seq<MatchPos>, mi: int, di: int, both: bool, gs: seq<Glyph>, j: nat)
    requires Clean(ps, di, gs) && j < |Where(ps, di)|
    ensures SelectedOn(ps, mi, di, both) == j <==> Where(ps, di)[j] == mi
  {
    WhereRight(ps, di);
    var at, lp := Where(ps, di), OnLine(ps, di);
    if 0 <= mi < |ps| && ps[mi].line == di {
      var j0: nat :| j0 < |at| && at[j0] == mi;
      forall i | 0 <= i < j0 ensures lp[i].colStart != ps[mi].colStart {
        assert ps[at[i]].colEnd <= ps[mi].colStart;
      }
      FirstIs(lp, ps[mi], 0, both, j0);
    }
  }

  lemma {:induction false} CoveredAt(gs: seq<Glyph>, rs: seq<Range>, col: int, k: nat)
    requires k < |gs|
    ensures Covered(gs, rs, col)[k] == OwnerFrom(rs, 0, col + ColumnOf(gs, k))
  {
    if k > 0 {
      CoveredAt(gs[1..], rs, col + gs[0].w, k - 1);
      assert gs[..k][1..] == gs[1..][..k - 1];
    }
  }

  lemma {:induction false} RangesRight(ps: seq<MatchPos>, di: int, gs: seq<Glyph>)
    requires Clean(ps, di, gs)
    ensures var rs := Ranges(OnLine(ps, di));
            && Sorted(rs) && |rs| == |Where(ps, di)|
            && forall k :: 0 <= k < |rs| ==> rs[k].start < rs[k].end && Boundary(gs, 0, rs[k].start)
  {
    WhereRight(ps, di);
    hide Boundary, Where, OnLine;
  }

  lemma {:induction false} OwnerIsMatch(ps: seq<MatchPos>, di: int, gs: seq<Glyph>, c: int, m: nat)
    requires Clean(ps, di, gs) && m < |ps| && Holds(ps[m], di, c)
    ensures var o := OwnerFrom(Ranges(OnLine(ps, di)), 0, c); 0 <= o < |Where(ps, di)| && Where(ps, di)[o] == m
  {
    WhereRight(ps, di);
    RangesRight(ps, di, gs);
    var at, rs := Where(ps, di), Ranges(OnLine(ps, di));
    var j: nat :| j < |at| && at[j] == m;
    assert rs[j] == Range(ps[m].colStart, ps[m].colEnd);
    assert forall i :: 0 <= i < j ==> rs[i].end <= rs[j].start;
    OwnerUnique(rs, 0, c, j);
  }

  lemma {:induction false} OwnerIsNone(ps: seq<MatchPos>, di: int, c: int)
    requires forall m :: 0 <= m < |ps| ==> !Holds(ps[m], di, c)
    ensures OwnerFrom(Ranges(OnLine(ps, di)), 0, c) == -1
  {
    WhereRight(ps, di);
    var at, rs := Where(ps, di), Ranges(OnLine(ps, di));
    forall j | 0 <= j < |rs| ensures !Within(rs[j], c) {
      assert !Holds(ps[at[j]], di, c);
    }
    OwnerNone(rs, 0, c);
  }

  /** Baking colours a line as its matches say. */
  lemma {:induction false} BakeColors(
      text: seq<Token>, ps: seq<MatchPos>, mi: int, di: int, both: bool, pal: Palette, k: nat)
    requires Clean(ps, di, Shown(text, [])) && k < |Shown(text, [])|
    ensures var gs, bs := Shown(text, []), Shown(Bake(text, false, true, ps, mi, di, both, pal), []);
            |bs| == |gs| && Colored(gs[k], bs[k], ps, mi, di, ColumnOf(gs, k), pal)
  {
    hide *;
    var gs, rs := Shown(text, []), Ranges(OnLine(ps, di));
    var c := Colors(pal.hi, pal.sel, SelectedOn(ps, mi, di, both));
    BakeIs(text, ps, mi, di, both, pal);
    RangesRight(ps, di, gs);
    InjectColorsMatches(text, rs, c);
    CoveredAt(gs, rs, 0, k);
    OwnerColors(gs[k], Recolored(gs, Covered(gs, rs, 0), c)[k], ps, mi, di, both, ColumnOf(gs, k), pal, gs);
  }

  lemma {:induction false} BakeIs(text: seq<Token>, ps: seq<MatchPos>, mi: int, di: int, both: bool, pal: Palette)
    ensures Bake(text, false, true, ps, mi, di, both, pal) ==
            Inject(text, Ranges(OnLine(ps, di)), Colors(pal.hi, pal.sel, SelectedOn(ps, mi, di, both)))
  {
  }

  /** A cell recoloured by the range that its column is in. */
  lemma {:induction false} OwnerColors(
      g: Glyph, b: Glyph, ps: seq<MatchPos>, mi: int, di: int, both: bool, c: int, pal: Palette, gs: seq<Glyph>)
    requires Clean(ps, di, gs) && b.text == g.text && b.w == g.w
    requires var o := OwnerFrom(Ranges(OnLine(ps, di)), 0, c);
             b.style == if o == -1 then g.style else Colors(pal.hi, pal.sel, SelectedOn(ps, mi, di, both)).Of(o)
    ensures Colored(g, b, ps, mi, di, c, pal)
  {
    hide OwnerFrom, Ranges, OnLine, SelectedOn, Clean, Where, Holds;
    var o := OwnerFrom(Ranges(OnLine(ps, di)), 0, c);
    forall m | 0 <= m < |ps| && Holds(ps[m], di, c) ensures b.style == if m == mi then pal.sel else pal.hi {
      OwnerIsMatch(ps, di, gs, c, m);
      SelectedIs(ps, mi, di, both, gs, o);
    }
    if forall m :: 0 <= m < |ps| ==> !Holds(ps[m], di, c) {
      OwnerIsNone(ps, di, c);
    }
  }

  // ---- the rows handed over ----

  /** The text of a display line before its matches are coloured. */
  function OwnText(v: View, di: int): seq<Token>
    requires 0 <= di < |Shows(v)| + Ind(v)
  {
    if di < Ind(v) then Cells(NoticeText(v.dropped)) else Shows(v)[di - Ind(v)].colored
  }

  predicate IsMarkerLine(v: View, env: Env, di: int)
    requires 0 <= di < |Shows(v)| + Ind(v)
  {
    di >= Ind(v) && env.isMarker(Shows(v)[di - Ind(v)].raw)
  }

  /** How cell `k` of a display line is to be drawn. */
  ghost predicate DrawnRight(v: View, env: Env, di: int, k: nat, b: Glyph)
    requires 0 <= di < |Shows(v)| + Ind(v) && k < |Shown(OwnText(v, di), [])|
  {
    var gs := Shown(OwnText(v, di), []);
    if v.search.None? || IsMarkerLine(v, env, di) then b == gs[k]
    else Clean(v.mp, di, gs) ==> Colored(gs[k], b, v.mp, v.mi, di, ColumnOf(gs, k), env.palette)
  }

  lemma {:induction false} DisplayText(v: View, env: Env, both: bool, di: int)
    requires 0 <= di < |Shows(v)| + Ind(v)
    ensures Display(v, env, both)[di].text ==
            Bake(OwnText(v, di), IsMarkerLine(v, env, di), v.search.Some?, v.mp, v.mi, di, both, env.palette)
  {
    DisplayLines(v, env, both, di);
    hide Bake, Cells, Display;
  }

  lemma {:induction false} DisplayDrawn(v: View, env: Env, both: bool, di: int, k: nat)
    requires 0 <= di < |Shows(v)| + Ind(v) && k < |Shown(OwnText(v, di), [])|
    ensures var bs, gs := Shown(Display(v, env, both)[di].text, []), Shown(OwnText(v, di), []);
            |bs| == |gs| && DrawnRight(v, env, di, k, bs[k]) && ColumnOf(bs, k) == ColumnOf(gs, k)
  {
    var text, marker := OwnText(v, di), IsMarkerLine(v, env, di);
    DisplayText(v, env, both, di);
    BakeKeepsCells(text, marker, v.search.Some?, v.mp, v.mi, di, both, env.palette);
    var bs, gs := Shown(Display(v, env, both)[di].text, []), Shown(text, []);
    hide Bake, Display, Shown, Clean, Colored, OwnText, IsMarkerLine;
    SameColumn(bs, gs, k);
    if v.search.None? || marker {
      Unbaked(text, marker, v.search.Some?, v.mp, v.mi, di, both, env.palette);
    } else if Clean(v.mp, di, gs) {
      BakeColors(text, v.mp, v.mi, di, both, env.palette, k);
    }
  }

  lemma {:induction false} SameColumn(a: seq<Glyph>, b: seq<Glyph>, k: nat)
    requires |a| == |b| && k <= |a| && forall i :: 0 <= i < |a| ==> a[i].w == b[i].w
    ensures ColumnOf(a, k) == ColumnOf(b, k)
  {
    SameWidths(a[..k], b[..k]);
  }

  lemma {:induction false} Unbaked(
      text: seq<Token>, isMarker: bool, searching: bool, ps: seq<MatchPos>, mi: int, di: int, both: bool, pal: Palette)
    requires isMarker || !searching
    ensures Bake(text, isMarker, searching, ps, mi, di, both, pal) == text
  {
  }

  lemma {:induction false} GlyphAtColumn(gs: seq<Glyph>, k: nat)
    requires k < |gs|
    ensures GlyphAt(gs, ColumnOf(gs, k)) == Found(gs[k])
  {
    if k > 0 {
      GlyphAtColumn(gs[1..], k - 1);
      assert gs[..k][1..] == gs[1..][..k - 1];
    }
  }

  /** Main result on highlights: whatever row of those handed over has cell `k` of a display
      line, has it drawn as the line's matches say. */
  lemma {:induction false} RowsColored(
      v: View, env: Env, a: seq<bool>, lines: seq<Row>, y: int, scroll: int, auto: bool, h: int, di: int, k: nat)
    requires Ok(v, a) && h >= 1 && RenderedAs(v, env, lines, y, scroll, auto, h)
    requires 0 <= di < |Shows(v)| + Ind(v) && k < |Shown(OwnText(v, di), [])|
    ensures v.softWrap ==>
              var ds, c := Display(v, env, true), ColumnOf(Shown(OwnText(v, di), []), k);
              var r := RealRow(ds, Columns(v), di, c) - RealStart(v, env, y);
              0 <= r < |lines| ==>
                var b := GlyphAt(Shown(lines[r].text, []), ScreenColumn(ds[di], Columns(v), c));
                b.Found? && DrawnRight(v, env, di, k, b.g)
    ensures !v.softWrap && !StaleSelection(v, scroll, h) && 0 <= di - scroll < |lines| ==>
              var bs := Shown(lines[di - scroll].text, []);
              k < |bs| && DrawnRight(v, env, di, k, bs[k])
  {
    hide *;
    UnpackView(v, a);
    DisplayDrawn(v, env, true, di, k);
    DisplayDrawn(v, env, false, di, k);
    if v.softWrap {
      var ds := Display(v, env, true);
      var bs := Shown(ds[di].text, []);
      DisplayOnRecord(v, env, true, a);
      IsOnRecord(ds, di);
      WrappedRows(v, env, lines, y, scroll, auto, h);
      GlyphAtColumn(bs, k);
      RealRowShows(ds, Columns(v), di, ColumnOf(bs, k));
      WindowAt(FullWrap(ds, Columns(v)), RealStart(v, env, y), h);
    } else if !StaleSelection(v, scroll, h) {
      UnwrappedRows(v, env, lines, y, scroll, auto, h);
      WindowAt(Unwrapped(Display(v, env, false)), scroll, h);
      UnwrappedRow(Display(v, env, false), di);
    }
  }

  lemma {:induction false} UnwrappedRows(
      v: View, env: Env, lines: seq<Row>, y: int, scroll: int, auto: bool, h: int)
    requires !v.softWrap && RenderedAs(v, env, lines, y, scroll, auto, h) && !StaleSelection(v, scroll, h)
    ensures lines == Window(Unwrapped(Display(v, env, false)), scroll, h) && 0 <= scroll
  {
  }

  lemma {:induction false} UnwrappedRow(ds: seq<DisplayLine>, di: nat)
    requires di < |ds|
    ensures Unwrapped(ds)[di].text == ds[di].text
  {
  }

  // ---- what was searched for is what is coloured ----

  /** The matches of line `i` are together in the list, in order, and no other is on it. */
  lemma {:induction false} MatchesTogether(ds: seq<Entry>, re: Regex, ind: int, i: nat) returns (at: nat)
    requires i < |ds|
    ensures var mp, spans := AllMatches(ds, re, ind), re.find(ds[i].stripped);
            && at + |spans| <= |mp|
            && (forall s :: 0 <= s < |spans| ==> mp[at + s] == MatchPos(i + ind, spans[s].start, spans[s].end))
            && (forall m :: 0 <= m < |mp| && mp[m].line == i + ind ==> at <= m < at + |spans|)
    decreases |ds|
  {
    var init, n := ds[..|ds| - 1], |ds| - 1;
    var before := AllMatches(init, re, ind);
    MatchesAbove(init, re, ind);
    if i < n {
      at := MatchesTogether(init, re, ind, i);
    } else {
      at := |before|;
    }
  }

  lemma {:induction false} MatchesAbove(ds: seq<Entry>, re: Regex, ind: int)
    ensures forall m :: 0 <= m < |AllMatches(ds, re, ind)| ==> AllMatches(ds, re, ind)[m].line < |ds| + ind
    decreases |ds|
  {
    if ds != [] {
      MatchesAbove(ds[..|ds| - 1], re, ind);
    }
  }

  predicate InSpan(spans: seq<Span>, c: int) { exists s :: 0 <= s < |spans| && spans[s].start <= c < spans[s].end }

  /** A search gives spans that are not empty, begin where a cell does, and are in order. */
  ghost predicate CleanSpans(spans: seq<Span>, gs: seq<Glyph>) {
    && (forall s :: 0 <= s < |spans| ==> spans[s].start < spans[s].end && Boundary(gs, 0, spans[s].start))
    && (forall s, t :: 0 <= s < t < |spans| ==> spans[s].end <= spans[t].start)
  }

  /** Cell `k` of line `i`, drawn as `b`: highlighted exactly if a match of the search is
      there, and as the selected one exactly if that is. */
  ghost predicate SearchShows(v: View, env: Env, i: nat, k: nat, b: Glyph)
    requires v.search.Some? && i < |Shows(v)| && k < |Shown(Shows(v)[i].colored, [])|
  {
    var e := Shows(v)[i];
    var gs := Shown(e.colored, []);
    var c := ColumnOf(gs, k);
    && b.text == gs[k].text && b.w == gs[k].w
    && b.style == if !InSpan(v.search.value.find(e.stripped), c) then gs[k].style
                  else if 0 <= v.mi < |v.mp| && Holds(v.mp[v.mi], i + Ind(v), c) then env.palette.sel
                  else env.palette.hi
  }

  lemma {:induction false} SpansAreClean(
      mp: seq<MatchPos>, di: int, at: nat, spans: seq<Span>, gs: seq<Glyph>)
    requires at + |spans| <= |mp| && CleanSpans(spans, gs)
    requires forall s :: 0 <= s < |spans| ==> mp[at + s] == MatchPos(di, spans[s].start, spans[s].end)
    requires forall m :: 0 <= m < |mp| && mp[m].line == di ==> at <= m < at + |spans|
    ensures Clean(mp, di, gs)
    ensures forall c :: InSpan(spans, c) <==> exists m :: 0 <= m < |mp| && Holds(mp[m], di, c)
  {
    hide Boundary;
    forall m | 0 <= m < |mp| && mp[m].line == di
      ensures 0 <= m - at < |spans| && mp[m] == MatchPos(di, spans[m - at].start, spans[m - at].end)
    {
      assert mp[at + (m - at)] == mp[m];
    }
    forall c ensures InSpan(spans, c) <==> exists m :: 0 <= m < |mp| && Holds(mp[m], di, c) {
      if InSpan(spans, c) {
        var s :| 0 <= s < |spans| && spans[s].start <= c < spans[s].end;
        assert Holds(mp[at + s], di, c);
      }
      if m :| 0 <= m < |mp| && Holds(mp[m], di, c) {
        assert spans[m - at].start <= c < spans[m - at].end;
      }
    }
  }

  /** Main result on searching: with an up-to-date match list, a cell drawn right is
      highlighted exactly if the search finds the text there. */
  lemma {:induction false} SearchColors(v: View, env: Env, i: nat, k: nat, b: Glyph)
    requires Fresh(v) && v.search.Some? && i < |Shows(v)| && !env.isMarker(Shows(v)[i].raw)
    requires var e := Shows(v)[i]; CleanSpans(v.search.value.find(e.stripped), Shown(e.colored, []))
    requires k < |Shown(Shows(v)[i].colored, [])| && DrawnRight(v, env, i + Ind(v), k, b)
    ensures SearchShows(v, env, i, k, b)
  {
    hide *;
    var e := Shows(v)[i];
    var gs, spans := Shown(e.colored, []), v.search.value.find(e.stripped);
    FreshList(v);
    var at := MatchesTogether(Shows(v), v.search.value, Ind(v), i);
    SpansAreClean(v.mp, i + Ind(v), at, spans, gs);
    DrawnColored(v, env, i, k, b);
    ColoredShows(v, env, i, k, b);
  }

  lemma {:induction false} FreshList(v: View)
    requires Fresh(v) && v.search.Some?
    ensures v.mp == AllMatches(Shows(v), v.search.value, Ind(v))
  {
  }

  lemma {:induction false} DrawnColored(v: View, env: Env, i: nat, k: nat, b: Glyph)
    requires v.search.Some? && i < |Shows(v)| && !env.isMarker(Shows(v)[i].raw)
    requires k < |Shown(Shows(v)[i].colored, [])| && DrawnRight(v, env, i + Ind(v), k, b)
    requires Clean(v.mp, i + Ind(v), Shown(Shows(v)[i].colored, []))
    ensures var gs := Shown(Shows(v)[i].colored, []);
            Colored(gs[k], b, v.mp, v.mi, i + Ind(v), ColumnOf(gs, k), env.palette)
  {
    hide Shows, Shown, Clean, Colored, ColumnOf, Cells, NoticeText;
  }

  lemma {:induction false} ColoredShows(v: View, env: Env, i: nat, k: nat, b: Glyph)
    requires v.search.Some? && i < |Shows(v)| && k < |Shown(Shows(v)[i].colored, [])|
    requires var gs := Shown(Shows(v)[i].colored, []);
             Colored(gs[k], b, v.mp, v.mi, i + Ind(v), ColumnOf(gs, k), env.palette)
    requires Clean(v.mp, i + Ind(v), Shown(Shows(v)[i].colored, []))
    requires var spans := v.search.value.find(Shows(v)[i].stripped);
             forall c :: InSpan(spans, c) <==> exists m :: 0 <= m < |v.mp| && Holds(v.mp[m], i + Ind(v), c)
    ensures SearchShows(v, env, i, k, b)
  {
    var e, di := Shows(v)[i], i + Ind(v);
    var c := ColumnOf(Shown(e.colored, []), k);
    OneHolder(v.mp, di, Shown(e.colored, []), c);
    hide Shows, Shown, Clean, ColumnOf, InSpan, Holds, Ind;
    if InSpan(v.search.value.find(e.stripped), c) {
      var m :| 0 <= m < |v.mp| && Holds(v.mp[m], di, c);
      assert b.style == if m == v.mi then env.palette.sel else env.palette.hi;
    }
  }

  lemma {:induction false} OneHolder(mp: seq<MatchPos>, di: int, gs: seq<Glyph>, c: int)
    requires Clean(mp, di, gs)
    ensures forall m, n :: 0 <= m < |mp| && 0 <= n < |mp| && Holds(mp[m], di, c) && Holds(mp[n], di, c) ==> m == n
  {
    hide Boundary;
  }

  // ---- the text searched is the text drawn ----

  function GlyphText(gs: seq<Glyph>): string { if gs == [] then "" else gs[0].text + GlyphText(gs[1..]) }

  lemma {:induction false} GlyphTextAppend(a: seq<Glyph>, b: seq<Glyph>)
    ensures GlyphText(a + b) == GlyphText(a) + GlyphText(b)
  {
    if a == [] {
      assert a + b == b;
    } else {
      assert (a + b)[1..] == a[1..] + b;
      GlyphTextAppend(a[1..], b);
    }
  }

  lemma {:induction false} ShownText(ts: seq<Token>, st: Style)
    ensures GlyphText(Shown(ts, st)) == Text(ts)
  {
    if ts != [] {
      ShownText(ts[1..], StyleStep(st, ts[0]));
      if ts[0].Cell? {
        assert Shown(ts, st)[1..] == Shown(ts[1..], StyleStep(st, ts[0]));
      }
    }
  }

  /** The cells `x` to `y` of a stored line show the part of the searched text that lies
      between the text of the cells before `x` and that of the cells before `y`. */
  lemma {:induction false} CellsShowText(e: Entry, x: nat, y: nat)
    requires Recorded(e) && x <= y <= |Shown(e.colored, [])|
    ensures var gs := Shown(e.colored, []);
            var from, to := |GlyphText(gs[..x])|, |GlyphText(gs[..y])|;
            from <= to <= |e.stripped| && GlyphText(gs[x..y]) == e.stripped[from..to]
  {
    var gs := Shown(e.colored, []);
    ShownText(e.colored, []);
    GlyphTextAppend(gs[..x], gs[x..y]);
    GlyphTextAppend(gs[..y], gs[y..]);
    assert gs[..x] + gs[x..y] == gs[..y] && gs[..y] + gs[y..] == gs;
    hide Shown, GlyphText;
    MiddleIs(GlyphText(gs[..x]), GlyphText(gs[x..y]), GlyphText(gs[y..]), e.stripped);
  }

  lemma {:induction false} MiddleIs(a: string, b: string, c: string, s: string)
    requires s == (a + b) + c
    ensures b == s[|a|..|a + b|]
  {
  }

  /** Cells of one character and one column each. */
  predicate Single(gs: seq<Glyph>) { forall i :: 0 <= i < |gs| ==> gs[i].w == 1 && |gs[i].text| == 1 }

  lemma {:induction false} SingleCells(gs: seq<Glyph>)
    requires Single(gs)
    ensures GlyphWidth(gs) == |gs| == |GlyphText(gs)|
  {
    if gs != [] {
      SingleCells(gs[1..]);
    }
  }

  lemma {:induction false} SingleBoundary(gs: seq<Glyph>, col: int, x: int)
    requires Single(gs) && col <= x <= col + |gs|
    ensures Boundary(gs, col, x)
  {
    if x != col {
      SingleBoundary(gs[1..], col + 1, x);
    }
  }

  /** In a line of such cells the character at a column is the one searched at that offset. */
  lemma {:induction false} SingleText(e: Entry, k: nat)
    requires Recorded(e) && Single(Shown(e.colored, [])) && k < |Shown(e.colored, [])|
    ensures var gs := Shown(e.colored, []);
            && |gs| == |e.stripped| && ColumnOf(gs, k) == k && gs[k].text == e.stripped[k..k + 1]
  {
    var gs := Shown(e.colored, []);
    CellsShowText(e, k, k + 1);
    ShownText(e.colored, []);
    SingleCells(gs);
    SingleCells(gs[..k]);
    SingleCells(gs[..k + 1]);
    assert gs[k..k + 1] == [gs[k]] && [gs[k]][1..] == [];
    assert GlyphText([gs[k]]) == gs[k].text + "" == gs[k].text;
  }

  lemma {:induction false} ColumnsRise(gs: seq<Glyph>, i: nat, j: nat)
    requires i < j <= |gs|
    ensures ColumnOf(gs, i) < ColumnOf(gs, j)
  {
    GlyphWidthAppend(gs[..i], gs[i..j]);
    assert gs[..i] + gs[i..j] == gs[..j] && gs[i..j][0] == gs[i];
  }

  /** The width that the search goes by is that of the cells. */
  ghost predicate WidthAgrees(e: Entry, re: Regex) {
    var gs := Shown(e.colored, []);
    forall k :: 0 <= k <= |gs| ==> re.width(GlyphText(gs[..k])) == ColumnOf(gs, k)
  }

  /** A match from the start of cell `x` to that of cell `y`, of cells of any width: it is
      what those cells show, and the columns computed for it are theirs. */
  lemma {:induction false} MatchIsItsCells(e: Entry, re: Regex, m: Span, x: nat, y: nat, k: nat)
    requires Recorded(e) && WidthAgrees(e, re) && x <= y <= |Shown(e.colored, [])| && k < |Shown(e.colored, [])|
    requires var gs := Shown(e.colored, []); m == Span(|GlyphText(gs[..x])|, |GlyphText(gs[..y])|)
    ensures var gs, span := Shown(e.colored, []), re.Columns(e.stripped, m);
            && 0 <= m.start <= m.end <= |e.stripped| && GlyphText(gs[x..y]) == e.stripped[m.start..m.end]
            && (span.start <= ColumnOf(gs, k) < span.end <==> x <= k < y)
  {
    var gs := Shown(e.colored, []);
    CellsShowText(e, x, y);
    PrefixText(e, x);
    PrefixText(e, y);
    if k < x { ColumnsRise(gs, k, x); }
    if x < k { ColumnsRise(gs, x, k); }
    if k < y { ColumnsRise(gs, k, y); }
    if y < k { ColumnsRise(gs, y, k); }
    hide Shown, GlyphText, ColumnOf, Recorded;
  }

  lemma {:induction false} PrefixText(e: Entry, x: nat)
    requires Recorded(e) && x <= |Shown(e.colored, [])|
    ensures var before := GlyphText(Shown(e.colored, [])[..x]); UpTo(e.stripped, |before|) == before
  {
    CellsShowText(e, 0, x);
    var gs := Shown(e.colored, []);
    assert gs[0..x] == gs[..x] && GlyphText(gs[..0]) == "";
    hide Shown, GlyphText, Recorded;
  }

  /** The search counts one column a character in this text, and its matches are not empty,
      within it and in order. */
  ghost predicate PlainSearch(re: Regex, s: string) {
    var ms := re.matches(s);
    && (forall k :: 0 <= k <= |s| ==> re.width(s[..k]) == k)
    && (forall i :: 0 <= i < |ms| ==> 0 <= ms[i].start < ms[i].end <= |s|)
    && (forall i, j :: 0 <= i < j < |ms| ==> ms[i].end <= ms[j].start)
  }

  lemma {:induction false} PlainSearchFinds(re: Regex, s: string)
    requires PlainSearch(re, s)
    ensures re.find(s) == re.matches(s)
  {
    var ms := re.matches(s);
    forall i | 0 <= i < |ms| ensures re.Columns(s, ms[i]) == ms[i] {
      assert UpTo(s, ms[i].start) == s[..ms[i].start] && UpTo(s, ms[i].end) == s[..ms[i].end];
    }
  }

  lemma {:induction false} SpansPlain(re: Regex, s: string)
    requires PlainSearch(re, s)
    ensures var spans := re.find(s);
            && (forall i :: 0 <= i < |spans| ==> 0 <= spans[i].start < spans[i].end <= |s|)
            && (forall i, j :: 0 <= i < j < |spans| ==> spans[i].end <= spans[j].start)
  {
    PlainSearchFinds(re, s);
  }

  /** So in a line of one-column characters those of every match, and no others, are
      highlighted. */
  lemma {:induction false} SearchColorsText(v: View, env: Env, a: seq<bool>, i: nat, k: nat, b: Glyph)
    requires IndexOk(v, a) && Fresh(v) && v.search.Some? && i < |Shows(v)| && !env.isMarker(Shows(v)[i].raw)
    requires Single(Shown(Shows(v)[i].colored, [])) && PlainSearch(v.search.value, Shows(v)[i].stripped)
    requires k < |Shown(Shows(v)[i].colored, [])| && DrawnRight(v, env, i + Ind(v), k, b)
    ensures var e := Shows(v)[i];
            && k < |e.stripped| && b.text == e.stripped[k..k + 1]
            && b.style == if !InSpan(v.search.value.matches(e.stripped), k) then Shown(e.colored, [])[k].style
                          else if 0 <= v.mi < |v.mp| && Holds(v.mp[v.mi], i + Ind(v), k) then env.palette.sel
                          else env.palette.hi
  {
    var e := Shows(v)[i];
    var gs, spans := Shown(e.colored, []), v.search.value.find(e.stripped);
    ShownRecorded(v, a, i);
    SingleText(e, k);
    PlainSearchFinds(v.search.value, e.stripped);
    SpansPlain(v.search.value, e.stripped);
    forall s | 0 <= s < |spans| ensures Boundary(gs, 0, spans[s].start) {
      SingleBoundary(gs, 0, spans[s].start);
    }
    hide PlainSearch, Shown, Shows, Boundary, DrawnRight, IndexOk, Fresh, Single, InSpan, Holds, ColumnOf, Recorded;
    SearchColors(v, env, i, k, b);
  }
}
