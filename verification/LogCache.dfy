/**
  The state behind the log view (internal/ui/logview.go), the caches that its operations keep
  up to date, and what an arriving line does to each of them.
 */
module LogCaches {
  import opened Ansi
  import opened Windows
  import opened Wrap
  import opened Ring
  import opened LogIndex
  import opened Options
  import opened LogWindow

  /** What the view takes from outside: decoding a line into tokens, the highlighting
      pipeline, the shape of a marker line, and colours. */
  datatype Env = Env(
    decode: string -> seq<Token>,
    highlight: string -> seq<Token>,
    isMarker: string -> bool,
    markerStyle: Style,
    palette: Palette)

  /** A pattern as typed: empty, not a regular expression, or compiled. */
  datatype Pattern = Empty | Malformed | Compiled(re: Regex)

  /** Plain text, one column a character. */
  function Cells(s: string): seq<Token> {
    if s == "" then [] else [Cell([s[0]], 1)] + Cells(s[1..])
  }

  lemma {:induction false} TextOfCells(s: string)
    ensures Text(Cells(s)) == s && Width(Cells(s)) == |s|
  {
    if s != "" {
      TextOfCells(s[1..]);
      assert Cells(s)[1..] == Cells(s[1..]);
      assert [s[0]] + s[1..] == s;
    }
  }

  function Decimal(n: nat): string {
    (if n < 10 then "" else Decimal(n / 10)) + ["0123456789"[n % 10]]
  }

  function NoticeText(dropped: nat): string { "~" + Decimal(dropped) + " lines dropped" }

  function MarkerCells(style: Style, raw: string): seq<Token> { Replay(style) + Cells(raw) + [Reset] }

  lemma {:induction false} MarkerText(style: Style, raw: string)
    ensures Width(MarkerCells(style, raw)) == |raw| && Text(MarkerCells(style, raw)) == raw
  {
    ReplayStyle(style, []);
    ReplayControls(style);
    TextOfCells(raw);
    WidthAppend(Replay(style), Cells(raw));
    WidthAppend(Replay(style) + Cells(raw), [Reset]);
    TextAppend(Replay(style), Cells(raw));
    TextAppend(Replay(style) + Cells(raw), [Reset]);
    assert Text([Reset]) == "" && [] + raw == raw + [] == raw;
  }

  /** A marker is drawn in its own style, one column a character. */
  lemma {:induction false} MarkerShown(style: Style, raw: string, k: nat)
    requires k < |raw|
    ensures var gs := Shown(MarkerCells(style, raw), []);
            |gs| == |raw| && gs[k] == Glyph([raw[k]], 1, style)
  {
    ReplayStyle(style, []);
    ShownAppend(Replay(style) + Cells(raw), [Reset], []);
    ShownAppend(Replay(style), Cells(raw), []);
    assert [] + style == style && Shown([Reset], StyleAfter(Replay(style) + Cells(raw), [])) == [];
    CellsShown(raw, style, k);
    var gs := Shown(Cells(raw), style);
    assert [] + gs == gs && gs + [] == gs;
  }

  lemma {:induction false} CellsShown(s: string, style: Style, k: nat)
    requires k < |s|
    ensures |Shown(Cells(s), style)| == |s| && Shown(Cells(s), style)[k] == Glyph([s[k]], 1, style)
  {
    assert Cells(s)[1..] == Cells(s[1..]);
    if |s| > 1 {
      CellsShown(s[1..], style, if k > 0 then k - 1 else 0);
    } else {
      assert Cells(s[1..]) == [];
    }
  }

  /** The width on record is that of the decorated line, and what is searched is its text. */
  predicate Recorded(e: Entry) { e.width == Width(e.colored) && e.stripped == Text(e.colored) }

  // ---- the state the caches depend on, and the caches ----

  datatype View = View(
    es: seq<Entry>, dropped: nat,
    filter: Option<Regex>, search: Option<Regex>, softWrap: bool, vpWidth: int,
    fi: seq<int>, off: int, total: int, mp: seq<MatchPos>, mi: int)

  /** The lines on display, oldest first, without the notice of dropped lines. */
  function Shows(v: View): seq<Entry> {
    if v.filter.Some? then Selected(v.es, Shift(v.fi, v.off)) else v.es
  }

  function Ind(v: View): nat { if v.dropped > 0 then 1 else 0 }

  /** `admitted` marks the lines that a filter shows as markers. */
  ghost predicate IndexOk(v: View, admitted: seq<bool>) {
    && |admitted| == |v.es|
    && (v.filter.Some? ==> IsPassing(Shift(v.fi, v.off), v.es, v.filter.value, admitted))
    && (v.filter.None? ==> v.fi == [])
    && forall i :: 0 <= i < |v.es| ==> Recorded(v.es[i])
  }

  ghost predicate TotalOk(v: View) {
    v.softWrap ==> v.total == TotalRows(Shows(v), v.dropped, v.vpWidth)
  }

  ghost predicate MatchesOk(v: View) {
    && SortedMatches(v.mp, |Shows(v)| + Ind(v))
    && (v.search.None? ==> v.mp == [])
    && -1 <= v.mi
  }

  /** The match list is the one a full rebuild would give. */
  ghost predicate Fresh(v: View) {
    v.search.Some? ==> v.mp == AllMatches(Shows(v), v.search.value, Ind(v))
  }

  ghost predicate Ok(v: View, admitted: seq<bool>) { IndexOk(v, admitted) && TotalOk(v) && MatchesOk(v) }

  /** The filter list points into the buffer. */
  predicate Located(v: View) {
    v.filter.Some? ==> forall i :: 0 <= i < |v.fi| ==> 0 <= v.fi[i] - v.off < |v.es|
  }

  /** The display list with highlights baked in. */
  function Display(v: View, env: Env, both: bool): (ds: seq<DisplayLine>)
    ensures |ds| == |Shows(v)| + Ind(v)
  {
    seq(|Shows(v)| + Ind(v), di requires 0 <= di < |Shows(v)| + Ind(v) => DisplayAt(v, env, both, di))
  }

  function DisplayAt(v: View, env: Env, both: bool, di: int): DisplayLine
    requires 0 <= di < |Shows(v)| + Ind(v)
  {
    if Ind(v) == 1 && di == 0 then
      DisplayLine(Bake(Cells(NoticeText(v.dropped)), false, v.search.Some?, v.mp, v.mi, 0, both, env.palette),
                  |NoticeText(v.dropped)|)
    else
      var e := Shows(v)[di - Ind(v)];
      DisplayLine(Bake(e.colored, env.isMarker(e.raw), v.search.Some?, v.mp, v.mi, di, both, env.palette), e.width)
  }

  lemma DisplayLines(v: View, env: Env, both: bool, di: nat)
    requires di < |Shows(v)| + Ind(v)
    ensures Display(v, env, both)[di] == DisplayAt(v, env, both, di)
    ensures !(Ind(v) == 1 && di == 0) ==> Ind(v) <= di && Display(v, env, both)[di].width == Shows(v)[di - Ind(v)].width
  {
  }

  lemma InRange(v: View, admitted: seq<bool>)
    requires IndexOk(v, admitted)
    ensures Located(v)
  {
    assert forall i :: 0 <= i < |v.fi| ==> Shift(v.fi, v.off)[i] == v.fi[i] - v.off;
  }

  /** What is on display is stored. */
  lemma {:induction false} ShownRecorded(v: View, admitted: seq<bool>, i: nat)
    requires IndexOk(v, admitted) && i < |Shows(v)|
    ensures Recorded(Shows(v)[i])
  {
    InRange(v, admitted);
    hide IsPassing, Recorded;
  }

  // ---- what an arriving line does to the caches ----

  /** `v'` is `v` with line `e` added, the oldest line evicted if `evict`, and the filter
      list trimmed by `k` entries and extended as the view does it. */
  ghost predicate Arrived(v: View, v': View, e: Entry, adm: bool, evict: bool, k: nat) {
    && (evict ==> |v.es| > 0)
    && v'.es == (if evict then v.es[1..] else v.es) + [e]
    && v'.dropped == v.dropped + (if evict then 1 else 0)
    && v'.filter == v.filter && v'.search == v.search && v'.softWrap == v.softWrap && v'.vpWidth == v.vpWidth
    && (v.filter.None? ==> v'.fi == v.fi)
    && (v.filter.Some? ==>
         && v'.off == v.off + (if evict then 1 else 0)
         && k <= |v.fi|
         && (forall i :: 0 <= i < k ==> v.fi[i] < v'.off) && (k < |v.fi| ==> v.fi[k] >= v'.off)
         && v'.fi == v.fi[k..] + if Passes(v.filter.value, e, adm) then [v'.off + |v'.es| - 1] else [])
  }

  function Kept(admitted: seq<bool>, evict: bool): seq<bool> {
    if evict && admitted != [] then admitted[1..] else admitted
  }

  lemma ShiftAppend(fi: seq<int>, off: int, x: int)
    ensures Shift(fi + [x], off) == Shift(fi, off) + [x - off]
  {
  }

  /** Without eviction nothing is trimmed. */
  lemma NothingTrimmed(v: View, v': View, e: Entry, adm: bool, k: nat)
    requires Located(v) && v.filter.Some? && Arrived(v, v', e, adm, false, k)
    ensures v.fi[k..] == v.fi
  {
    assert |v.fi| > 0 ==> v.fi[0] - v.off >= 0;
  }

  lemma TrimKeepsPassing(v: View, v': View, e: Entry, adm: bool, evict: bool, k: nat, a: seq<bool>)
    requires IndexOk(v, a) && v.filter.Some? && Arrived(v, v', e, adm, evict, k)
    ensures |Kept(a, evict)| == |v'.es| - 1
    ensures IsPassing(Shift(v.fi[k..], v'.off), if evict then v.es[1..] else v.es, v.filter.value, Kept(a, evict))
  {
    InRange(v, a);
    hide IsPassing, Passes, Shift;
    if evict {
      PassingEvict(v.fi, v.off, k, v.es, v.filter.value, a);
    } else {
      NothingTrimmed(v, v', e, adm, k);
    }
  }

  lemma ArrivalKeepsPassing(v: View, v': View, e: Entry, adm: bool, evict: bool, k: nat, a: seq<bool>)
    requires IndexOk(v, a) && v.filter.Some? && Arrived(v, v', e, adm, evict, k)
    ensures |Kept(a, evict)| == |v'.es| - 1
    ensures IsPassing(Shift(v'.fi, v'.off), v'.es, v.filter.value, Kept(a, evict) + [adm])
  {
    hide *;
    TrimKeepsPassing(v, v', e, adm, evict, k, a);
    ArrivalParts(v, v', e, adm, evict, k);
    var es := if evict then v.es[1..] else v.es;
    PassingGrows(v.fi[k..], v'.fi, v'.off, es, v'.es, v.filter.value, Kept(a, evict), e, adm);
  }

  lemma PassingGrows(
      fi: seq<int>, fi': seq<int>, off: int, es: seq<Entry>, es': seq<Entry>, re: Regex, a: seq<bool>, e: Entry,
      adm: bool)
    requires |a| == |es| && IsPassing(Shift(fi, off), es, re, a) && es' == es + [e]
    requires fi' == if Passes(re, e, adm) then fi + [off + |es'| - 1] else fi
    ensures IsPassing(Shift(fi', off), es', re, a + [adm])
  {
    hide *;
    PassingAppend(Shift(fi, off), es, re, a, e, adm);
    ShiftAppend(fi, off, off + |es'| - 1);
  }

  lemma ArrivalParts(v: View, v': View, e: Entry, adm: bool, evict: bool, k: nat)
    requires v.filter.Some? && Arrived(v, v', e, adm, evict, k)
    ensures (evict ==> |v.es| > 0) && k <= |v.fi| && v'.es == (if evict then v.es[1..] else v.es) + [e]
    ensures v'.fi == if Passes(v.filter.value, e, adm) then v.fi[k..] + [v'.off + |v'.es| - 1] else v.fi[k..]
  {
    assert v.fi[k..] + [] == v.fi[k..];
  }

  lemma ArrivalKeepsIndex(v: View, v': View, e: Entry, adm: bool, evict: bool, k: nat, a: seq<bool>)
    requires IndexOk(v, a) && Arrived(v, v', e, adm, evict, k) && Recorded(e)
    ensures IndexOk(v', Kept(a, evict) + [adm])
  {
    hide IsPassing;
    if v.filter.Some? {
      ArrivalKeepsPassing(v, v', e, adm, evict, k, a);
    }
  }

  lemma SelectedGrows(es: seq<Entry>, e: Entry, vis: seq<int>)
    requires forall i :: 0 <= i < |vis| ==> 0 <= vis[i] < |es|
    ensures Selected(es + [e], vis) == Selected(es, vis)
    ensures Selected(es + [e], vis + [|es|]) == Selected(es, vis) + [e]
  {
  }

  /** Without eviction the display list grows by the new line, or not at all. */
  lemma ArrivalExtendsDisplay(v: View, v': View, e: Entry, adm: bool, k: nat)
    requires Located(v) && Arrived(v, v', e, adm, false, k)
    ensures Shows(v') == Shows(v) + if v.filter.None? || Passes(v.filter.value, e, adm) then [e] else []
  {
    hide Passes;
    if v.filter.Some? {
      NothingTrimmed(v, v', e, adm, k);
      ShiftAppend(v.fi, v.off, v'.off + |v'.es| - 1);
      SelectedGrows(v.es, e, Shift(v.fi, v.off));
      hide Selected, Shift;
    }
  }

  /** The incremental row count: add the new line, subtract the evicted one, and add one
      when the notice of dropped lines first appears. */
  lemma TotalOfArrival(v: View, v': View, e: Entry, adm: bool, evict: bool, k: nat)
    requires Arrived(v, v', e, adm, evict, k) && v.filter.None?
    ensures TotalRows(Shows(v'), v'.dropped, v.vpWidth) ==
            TotalRows(Shows(v), v.dropped, v.vpWidth) + WrapHeight(e.width, v.vpWidth)
            - (if evict then WrapHeight(v.es[0].width, v.vpWidth) else 0)
            + if evict && v.dropped == 0 then 1 else 0
  {
    HeightsSnoc(if evict then v.es[1..] else v.es, e, v.vpWidth);
    if evict {
      HeightsFirst(v.es, v.vpWidth);
    }
  }

  /** Adding the new line's matches at the end of the list. */
  lemma MatchesOfArrival(v: View, v': View, e: Entry, adm: bool, k: nat)
    requires Located(v) && MatchesOk(v) && Arrived(v, v', e, adm, false, k)
    requires v.filter.None? || Passes(v.filter.value, e, adm)
    requires v.search.Some?
    ensures var mp' := v.mp + LineMatches(v.search.value.find(e.stripped), |Shows(v)| + Ind(v));
            && |Shows(v')| == |Shows(v)| + 1 && Ind(v') == Ind(v)
            && SortedMatches(mp', |Shows(v')| + Ind(v'))
            && (Fresh(v) ==> mp' == AllMatches(Shows(v'), v'.search.value, Ind(v')))
  {
    ArrivalExtendsDisplay(v, v', e, adm, k);
    SortedMatchesSnoc(v.mp, v.search.value.find(e.stripped), |Shows(v)| + Ind(v));
    AllMatchesSnoc(Shows(v), e, v.search.value, Ind(v));
  }

  /** A list left alone stays ordered, and stays right only if the new line, when it is
      displayed, has no match. */
  lemma MatchesLeftAlone(v: View, v': View, e: Entry, adm: bool, k: nat)
    requires Located(v) && MatchesOk(v) && Arrived(v, v', e, adm, false, k)
    requires v'.mp == v.mp && v'.mi == v.mi
    ensures MatchesOk(v')
    ensures Fresh(v) && v.search.Some? ==>
              (Fresh(v') <==> (v.filter.Some? && !Passes(v.filter.value, e, adm)) || NoMatch(e, v.search.value))
  {
    ArrivalExtendsDisplay(v, v', e, adm, k);
    if v.search.Some? {
      AllMatchesSnoc(Shows(v), e, v.search.value, Ind(v));
      assert Shows(v) + [] == Shows(v);
    }
  }

  /** A rebuilt list is ordered and right. */
  lemma RebuiltMatches(v: View)
    requires v.search.Some? ==> v.mp == AllMatches(Shows(v), v.search.value, Ind(v))
    requires v.search.None? ==> v.mp == []
    requires -1 <= v.mi
    ensures MatchesOk(v) && Fresh(v)
  {
    if v.search.Some? {
      AllMatchesSorted(Shows(v), v.search.value, Ind(v));
    }
  }

  // ---- the rows counted are the rows displayed ----

  lemma {:induction false} CountedTotal(v: View, env: Env, both: bool, n: nat)
    requires n <= |Display(v, env, both)|
    ensures CountedRows(Display(v, env, both), Ind(v) == 1, Max(1, v.vpWidth), n) ==
            if n == 0 then 0 else Heights(Shows(v)[..n - Ind(v)], v.vpWidth) + Ind(v)
  {
    hide *;
    var ds, notice, vpW := Display(v, env, both), Ind(v) == 1, Max(1, v.vpWidth);
    CountedStart(v, ds, notice, vpW);
    if n > 0 {
      CountedTotal(v, env, both, n - 1);
      CountedStep(ds, notice, vpW, n - 1);
      DisplayLines(v, env, both, n - 1);
      CountedLine(v, n - 1, if n - 1 < Ind(v) then 0 else ds[n - 1].width);
    }
  }

  lemma {:induction false} CountedStart(v: View, ds: seq<DisplayLine>, notice: bool, vpW: int)
    ensures CountedRows(ds, notice, vpW, 0) == 0
    ensures vpW == Max(1, v.vpWidth) ==> vpW >= 1
    ensures 0 <= Ind(v) <= 1 && Heights(Shows(v)[..0], v.vpWidth) == 0
  {
  }

  /** One more display line, counted. */
  lemma CountedLine(v: View, di: nat, width: nat)
    requires di < |Shows(v)| + Ind(v) && (di >= Ind(v) ==> width == Shows(v)[di - Ind(v)].width)
    ensures di >= Ind(v) ==>
              Heights(Shows(v)[..di + 1 - Ind(v)], v.vpWidth) ==
              Heights(Shows(v)[..di - Ind(v)], v.vpWidth) + WrapHeight(width, Max(1, v.vpWidth))
  {
    var i := di - Ind(v);
    if i >= 0 {
      assert Shows(v)[..i + 1][..i] == Shows(v)[..i];
      SameWrapHeight(width, v.vpWidth);
    }
  }

  lemma CountedAll(v: View, env: Env, both: bool)
    requires TotalOk(v) && v.softWrap
    ensures var ds := Display(v, env, both);
            |ds| > 0 ==> CountedRows(ds, Ind(v) == 1, Max(1, v.vpWidth), |ds|) == v.total
    ensures Display(v, env, both) == [] ==> v.total == 0
  {
    var ds := Display(v, env, both);
    CountedTotal(v, env, both, |ds|);
    assert Shows(v)[..|Shows(v)|] == Shows(v);
  }

  lemma SameWrapHeight(w: int, vpWidth: int)
    ensures WrapHeight(w, vpWidth) == WrapHeight(w, if vpWidth <= 0 then 1 else vpWidth)
  {
  }
}
