/**
  What the log view's caches are caches of (internal/ui/logview.go): the list of lines a
  filter lets through, the number of wrapped rows, and the positions of search matches.
  Each is defined here from scratch, and each incremental update is proved to agree with
  the definition.
 */
module LogIndex {
  import opened Ansi
  import opened Options
  import opened Ring
  import opened Wrap

  /** From `start` up to `end`, in characters or in columns. */
  datatype Span = Span(start: int, end: int)

  function UpTo(s: string, i: int): string { if i <= 0 then "" else if i < |s| then s[..i] else s }

  /** A compiled pattern: what it accepts, and where it matches in a stripped line, in
      characters; with the display width of a text, which turns them into columns. */
  datatype Regex = Regex(test: string -> bool, matches: string -> seq<Span>, width: string -> nat) {
    function Columns(s: string, m: Span): Span { Span(width(UpTo(s, m.start)), width(UpTo(s, m.end))) }

    /** The matches in columns. */
    function find(s: string): (r: seq<Span>)
      ensures |r| == |matches(s)|
      ensures forall k :: 0 <= k < |r| ==> r[k] == Columns(s, matches(s)[k])
    {
      seq(|matches(s)|, k requires 0 <= k < |matches(s)| => Columns(s, matches(s)[k]))
    }
  }

  datatype MatchPos = MatchPos(line: int, colStart: int, colEnd: int)

  // ---- lines that pass the filter ----

  predicate Increasing(s: seq<int>) {
    forall i, j :: 0 <= i < j < |s| ==> s[i] < s[j]
  }

  /** A line passes if the pattern accepts it or it was admitted as a marker. */
  predicate Passes(re: Regex, e: Entry, admitted: bool) {
    re.test(e.raw) || admitted
  }

  /** `vis` lists exactly the positions of the lines that pass, in order. */
  ghost predicate IsPassing(vis: seq<int>, es: seq<Entry>, re: Regex, admitted: seq<bool>)
    requires |admitted| == |es|
  {
    && Increasing(vis)
    && (forall k :: 0 <= k < |vis| ==> 0 <= vis[k] < |es|)
    && (forall i :: 0 <= i < |es| ==> (i in vis <==> Passes(re, es[i], admitted[i])))
  }

  /** Absolute indices made logical. */
  function Shift(fi: seq<int>, off: int): (r: seq<int>)
    ensures |r| == |fi|
    ensures forall k :: 0 <= k < |fi| ==> r[k] == fi[k] - off
  {
    seq(|fi|, k requires 0 <= k < |fi| => fi[k] - off)
  }

  /** Two listings of the passing lines are the same list. */
  lemma {:induction false} PassingUnique(a: seq<int>, b: seq<int>)
    requires Increasing(a) && Increasing(b)
    requires forall i :: i in a <==> i in b
    ensures a == b
    decreases |a|
  {
    assert |b| > 0 ==> b[0] in b;
    if a != [] {
      assert a[0] in a && a[0] in b;
      assert b[0] in b && b[0] in a;
      assert a[0] == b[0];
      forall i ensures i in a[1..] <==> i in b[1..] {
        if i in a[1..] {
          var k :| 0 <= k < |a[1..]| && a[1..][k] == i;
          assert a[k + 1] == i && i > a[0] && i in a;
          assert i in b[1..] by {
            var m :| 0 <= m < |b| && b[m] == i;
            assert b[1..][m - 1] == i;
          }
        }
        if i in b[1..] {
          var k :| 0 <= k < |b[1..]| && b[1..][k] == i;
          assert b[k + 1] == i && i > b[0] && i in b;
          assert i in a[1..] by {
            var m :| 0 <= m < |a| && a[m] == i;
            assert a[1..][m - 1] == i;
          }
        }
      }
      PassingUnique(a[1..], b[1..]);
    }
  }

  /** A new last line joins the list if it passes. */
  lemma PassingAppend(vis: seq<int>, es: seq<Entry>, re: Regex, admitted: seq<bool>, e: Entry, adm: bool)
    requires |admitted| == |es| && IsPassing(vis, es, re, admitted)
    ensures IsPassing(if Passes(re, e, adm) then vis + [|es|] else vis, es + [e], re, admitted + [adm])
  {
    var vis' := if Passes(re, e, adm) then vis + [|es|] else vis;
    forall i | 0 <= i < |es| + 1
      ensures i in vis' <==> Passes(re, (es + [e])[i], (admitted + [adm])[i])
    {
      if i == |es| {
        assert i !in vis;
        if Passes(re, e, adm) {
          assert vis'[|vis|] == i;
        }
      }
    }
  }

  /** Dropping the oldest line moves every position down, and position 0 out. */
  lemma PassingEvict(fi: seq<int>, off: int, k: nat, es: seq<Entry>, re: Regex, admitted: seq<bool>)
    requires |admitted| == |es| > 0 && IsPassing(Shift(fi, off), es, re, admitted)
    requires k <= |fi| && (forall i :: 0 <= i < k ==> fi[i] < off + 1) && (k < |fi| ==> fi[k] >= off + 1)
    ensures IsPassing(Shift(fi[k..], off + 1), es[1..], re, admitted[1..])
  {
    hide Passes;
    var vis, vis' := Shift(fi, off), Shift(fi[k..], off + 1);
    assert forall i :: 0 <= i < k ==> vis[i] < 1;
    hide Shift;
    TailShifted(vis, vis', k);
    assert forall i :: 0 <= i < |es| - 1 ==> es[1..][i] == es[i + 1] && admitted[1..][i] == admitted[i + 1];
  }

  lemma TailShifted(vis: seq<int>, vis': seq<int>, k: nat)
    requires Increasing(vis) && k <= |vis| == |vis'| + k
    requires forall i :: 0 <= i < |vis'| ==> vis'[i] == vis[k + i] - 1
    requires (forall i :: 0 <= i < k ==> vis[i] < 1) && (k < |vis| ==> vis[k] >= 1)
    ensures Increasing(vis') && forall i :: 0 <= i < |vis'| ==> vis'[i] >= 0
    ensures forall i :: 0 <= i ==> (i in vis' <==> i + 1 in vis)
  {
    forall i | 0 <= i ensures i in vis' <==> i + 1 in vis {
      if i in vis' {
        var j :| 0 <= j < |vis'| && vis'[j] == i;
        assert vis[k + j] == i + 1;
      }
      if i + 1 in vis {
        var j :| 0 <= j < |vis| && vis[j] == i + 1;
        assert vis'[j - k] == i;
      }
    }
    forall i | 0 <= i < |vis'| ensures vis'[i] >= 0 {
      assert i > 0 ==> vis[k] < vis[k + i];
    }
  }

  // ---- the lines on display ----

  function Selected(es: seq<Entry>, vis: seq<int>): (ds: seq<Entry>)
    ensures |ds| == |vis|
    ensures forall k :: 0 <= k < |vis| ==> ds[k] == if 0 <= vis[k] < |es| then es[vis[k]] else NoEntry
  {
    seq(|vis|, k requires 0 <= k < |vis| => if 0 <= vis[k] < |es| then es[vis[k]] else NoEntry)
  }

  // ---- wrapped rows ----

  function Heights(ds: seq<Entry>, vpWidth: int): int {
    if ds == [] then 0 else Heights(ds[..|ds| - 1], vpWidth) + WrapHeight(ds[|ds| - 1].width, vpWidth)
  }

  /** The number of wrapped rows, counted from scratch; the notice of dropped lines
      counts as one. */
  function TotalRows(ds: seq<Entry>, dropped: int, vpWidth: int): int {
    Heights(ds, vpWidth) + if dropped > 0 then 1 else 0
  }

  lemma {:induction false} HeightsSnoc(ds: seq<Entry>, e: Entry, vpWidth: int)
    ensures Heights(ds + [e], vpWidth) == Heights(ds, vpWidth) + WrapHeight(e.width, vpWidth)
  {
    assert (ds + [e])[..|ds|] == ds;
  }

  lemma {:induction false} HeightsFirst(ds: seq<Entry>, vpWidth: int)
    requires ds != []
    ensures Heights(ds, vpWidth) == WrapHeight(ds[0].width, vpWidth) + Heights(ds[1..], vpWidth)
    decreases |ds|
  {
    var n := |ds| - 1;
    if n > 0 {
      HeightsFirst(ds[..n], vpWidth);
      assert ds[..n][1..] == ds[1..][..n - 1];
      assert ds[..n][0] == ds[0];
    } else {
      assert ds[..0] == [] && ds[1..] == [];
    }
  }

  // ---- search matches ----

  function LineMatches(spans: seq<Span>, line: int): (ps: seq<MatchPos>)
    ensures |ps| == |spans|
    ensures forall k :: 0 <= k < |spans| ==> ps[k] == MatchPos(line, spans[k].start, spans[k].end)
  {
    seq(|spans|, k requires 0 <= k < |spans| => MatchPos(line, spans[k].start, spans[k].end))
  }

  /** computeLineMatchPositions */
  method ComputeLineMatchPositions(stripped: string, re: Regex, line: int) returns (positions: seq<MatchPos>)
    ensures positions == LineMatches(re.find(stripped), line)
  {
    var found := re.matches(stripped);
    positions := [];
    var k := 0;
    while k < |found|
      invariant 0 <= k <= |found| && positions == LineMatches(re.find(stripped)[..k], line)
    {
      var colStart := re.width(UpTo(stripped, found[k].start));
      var colEnd := re.width(UpTo(stripped, found[k].end));
      positions := positions + [MatchPos(line, colStart, colEnd)];
      k := k + 1;
    }
    assert re.find(stripped)[..|found|] == re.find(stripped);
  }

  /** Every match in the display list, found from scratch. `ind` is 1 when the notice of
      dropped lines takes display line 0. */
  function AllMatches(ds: seq<Entry>, re: Regex, ind: int): seq<MatchPos> {
    if ds == [] then []
    else
      AllMatches(ds[..|ds| - 1], re, ind) + LineMatches(re.find(ds[|ds| - 1].stripped), |ds| - 1 + ind)
  }

  lemma {:induction false} AllMatchesSnoc(ds: seq<Entry>, e: Entry, re: Regex, ind: int)
    ensures AllMatches(ds + [e], re, ind) == AllMatches(ds, re, ind) + LineMatches(re.find(e.stripped), |ds| + ind)
  {
    assert (ds + [e])[..|ds|] == ds;
  }

  /** Ordered by line, with every line on display. */
  predicate SortedMatches(ps: seq<MatchPos>, lines: int) {
    && (forall i :: 0 <= i < |ps| ==> 0 <= ps[i].line < lines)
    && (forall i, j :: 0 <= i < j < |ps| ==> ps[i].line <= ps[j].line)
  }

  lemma SortedMatchesSnoc(ps: seq<MatchPos>, spans: seq<Span>, line: int)
    requires 0 <= line && SortedMatches(ps, line)
    ensures SortedMatches(ps + LineMatches(spans, line), line + 1)
  {
  }

  lemma {:induction false} AllMatchesSorted(ds: seq<Entry>, re: Regex, ind: int)
    requires 0 <= ind
    ensures SortedMatches(AllMatches(ds, re, ind), |ds| + ind)
    decreases |ds|
  {
    if ds != [] {
      var n := |ds| - 1;
      AllMatchesSorted(ds[..n], re, ind);
      SortedMatchesSnoc(AllMatches(ds[..n], re, ind), re.find(ds[n].stripped), n + ind);
    }
  }

  /** Moving every match down by the notice of dropped lines. */
  function Lowered(ps: seq<MatchPos>): (r: seq<MatchPos>)
    ensures |r| == |ps|
    ensures forall k :: 0 <= k < |ps| ==> r[k] == ps[k].(line := ps[k].line + 1)
  {
    seq(|ps|, k requires 0 <= k < |ps| => ps[k].(line := ps[k].line + 1))
  }

  lemma {:induction false} LoweredMatches(ds: seq<Entry>, re: Regex)
    ensures Lowered(AllMatches(ds, re, 0)) == AllMatches(ds, re, 1)
    decreases |ds|
  {
    if ds != [] {
      var n := |ds| - 1;
      LoweredMatches(ds[..n], re);
      var a, b := AllMatches(ds[..n], re, 0), LineMatches(re.find(ds[n].stripped), n);
      assert Lowered(a + b) == Lowered(a) + LineMatches(re.find(ds[n].stripped), n + 1);
    }
  }

  // ---- when clearing the filter keeps the matches right ----

  predicate NoMatch(e: Entry, re: Regex) { re.find(e.stripped) == [] }

  /** No hidden line lies at or before a line that matches. */
  ghost predicate MatchesAboveHidden(es: seq<Entry>, vis: seq<int>, re: Regex) {
    forall h, i :: 0 <= h <= i < |es| && h !in vis ==> NoMatch(es[i], re)
  }

  lemma {:induction false} NoMatchesAtAll(es: seq<Entry>, re: Regex, ind: int)
    ensures AllMatches(es, re, ind) == [] <==> forall i :: 0 <= i < |es| ==> NoMatch(es[i], re)
    decreases |es|
  {
    if es != [] {
      NoMatchesAtAll(es[..|es| - 1], re, ind);
    }
  }

  lemma {:induction false} MatchesOfPrefix(es: seq<Entry>, k: nat, re: Regex, ind: int)
    requires k <= |es|
    ensures AllMatches(es[..k], re, ind) <= AllMatches(es, re, ind)
    ensures (forall i :: k <= i < |es| ==> NoMatch(es[i], re)) ==>
            AllMatches(es, re, ind) == AllMatches(es[..k], re, ind)
    decreases |es|
  {
    if k < |es| {
      var n := |es| - 1;
      MatchesOfPrefix(es[..n], k, re, ind);
      assert es[..n][..k] == es[..k];
    } else {
      assert es[..k] == es;
    }
  }

  /** The number of leading lines that are all visible. */
  lemma {:induction false} VisiblePrefix(vis: seq<int>, n: nat) returns (k: nat)
    requires Increasing(vis) && forall i :: 0 <= i < |vis| ==> 0 <= vis[i] < n
    ensures k <= n && k <= |vis|
    ensures forall i :: 0 <= i < k ==> vis[i] == i
    ensures k < n ==> k !in vis
    ensures k < |vis| ==> vis[k] > k
  {
    k := 0;
    while k < |vis| && vis[k] == k
      invariant k <= |vis| && k <= n
      invariant forall i :: 0 <= i < k ==> vis[i] == i
    {
      k := k + 1;
    }
    if k < |vis| {
      if k > 0 {
        assert vis[k - 1] < vis[k];
      }
      assert vis[k] > k;
      forall i | 0 <= i < |vis| ensures vis[i] != k {
        if i > k {
          assert vis[k] < vis[i];
        }
      }
    }
  }

  lemma FirstMatchLine(es: seq<Entry>, re: Regex, ind: int, k: nat) returns (m: nat)
    requires k < |es| && exists i :: k <= i < |es| && !NoMatch(es[i], re)
    ensures k <= m < |es| && !NoMatch(es[m], re) && forall i :: k <= i < m ==> NoMatch(es[i], re)
  {
    m := k;
    while NoMatch(es[m], re)
      invariant k <= m < |es|
      invariant forall i :: k <= i < m ==> NoMatch(es[i], re)
      decreases |es| - m
    {
      m := m + 1;
    }
  }

  /** The first match at or after display line `k` is on the first line there with one. */
  lemma {:induction false} NextMatchIsOn(es: seq<Entry>, re: Regex, ind: int, k: nat, m: nat)
    requires k <= m < |es| && !NoMatch(es[m], re) && forall i :: k <= i < m ==> NoMatch(es[i], re)
    ensures var before := |AllMatches(es[..k], re, ind)|;
            before < |AllMatches(es, re, ind)| && AllMatches(es, re, ind)[before].line == m + ind
  {
    hide AllMatches;
    var some, line := es[..m], LineMatches(re.find(es[m].stripped), m + ind);
    assert some[..k] == es[..k] && some + [es[m]] == es[..m + 1];
    assert forall i :: k <= i < m ==> some[i] == es[i];
    MatchesOfPrefix(some, k, re, ind);
    MatchesOfPrefix(es, m + 1, re, ind);
    AllMatchesSnoc(some, es[m], re, ind);
    PrefixHolds(AllMatches(es[..k], re, ind), line, AllMatches(es, re, ind));
  }

  lemma {:induction false} PrefixHolds(a: seq<MatchPos>, b: seq<MatchPos>, all: seq<MatchPos>)
    requires b != [] && a + b <= all
    ensures |a| < |all| && all[|a|] == b[0]
  {
    assert (a + b)[|a|] == b[0];
  }

  /** ClearFilter keeps the match list it has. That list is right for the unfiltered
      view if and only if no hidden line lies at or before a line that matches. */
  lemma {:induction false} ClearFilterKeepsMatches(es: seq<Entry>, vis: seq<int>, re: Regex, ind: int)
    requires Increasing(vis) && forall i :: 0 <= i < |vis| ==> 0 <= vis[i] < |es|
    ensures AllMatches(Selected(es, vis), re, ind) == AllMatches(es, re, ind) <==> MatchesAboveHidden(es, vis, re)
  {
    var ds := Selected(es, vis);
    var k := VisiblePrefix(vis, |es|);
    assert ds[..k] == es[..k];
    MatchesOfPrefix(es, k, re, ind);
    MatchesOfPrefix(ds, k, re, ind);
    if forall i :: k <= i < |es| ==> NoMatch(es[i], re) {
      forall i | k <= i < |ds| ensures NoMatch(ds[i], re) {
        if i > k {
          assert vis[k] < vis[i];
        }
      }
      forall i | 0 <= i < k ensures i in vis {
        assert vis[i] == i;
      }
      forall h, i | 0 <= h <= i < |es| && h !in vis ensures NoMatch(es[i], re) {
      }
    } else {
      var m := FirstMatchLine(es, re, ind, k);
      NextMatchIsOn(es, re, ind, k, m);
      assert !MatchesAboveHidden(es, vis, re) by {
        assert 0 <= k <= m < |es| && k !in vis;
      }
      if exists i :: k <= i < |ds| && !NoMatch(ds[i], re) {
        var d := FirstMatchLine(ds, re, ind, k);
        NextMatchIsOn(ds, re, ind, k, d);
        if d == m {
          // Line m cannot be visible, or it would match at a rank below m. So it is
          // hidden, and its matches make the unfiltered list the longer one.
          forall r | 0 <= r < |vis| ensures vis[r] != m {
            if k <= r {
              VisAboveRank(vis, k, r);
            }
            if k <= r < d {
              assert NoMatch(ds[r], re);
            }
          }
          HiddenMatchesCount(es, vis, re, ind, m);
        }
      } else {
        assert AllMatches(ds, re, ind) == AllMatches(ds[..k], re, ind);
      }
    }
  }

  /** The filtered list lacks at least the matches of any one hidden line `h`. */
  lemma {:induction false} HiddenMatchesCount(es: seq<Entry>, vis: seq<int>, re: Regex, ind: int, h: int)
    requires Increasing(vis) && forall i :: 0 <= i < |vis| ==> 0 <= vis[i] < |es|
    requires h == -1 || (0 <= h < |es| && h !in vis)
    ensures |AllMatches(Selected(es, vis), re, ind)| + (if h == -1 then 0 else |re.find(es[h].stripped)|) <=
            |AllMatches(es, re, ind)|
    decreases |es|
  {
    if es != [] {
      var n := |es| - 1;
      var last, vis' := SelectedSplit(es, vis, re, ind);
      HiddenMatchesCount(es[..n], vis', re, ind, if h == n then -1 else h);
      assert h != -1 && h < n ==> es[..n][h] == es[h];
    }
  }

  lemma SelectedSplit(es: seq<Entry>, vis: seq<int>, re: Regex, ind: int) returns (last: bool, vis': seq<int>)
    requires es != [] && Increasing(vis) && forall i :: 0 <= i < |vis| ==> 0 <= vis[i] < |es|
    ensures last <==> |es| - 1 in vis
    ensures Increasing(vis') && (forall i :: 0 <= i < |vis'| ==> 0 <= vis'[i] < |es| - 1)
    ensures forall h :: h in vis' ==> h in vis
    ensures |AllMatches(Selected(es, vis), re, ind)| ==
            |AllMatches(Selected(es[..|es| - 1], vis'), re, ind)| + if last then |re.find(es[|es| - 1].stripped)| else 0
  {
    hide AllMatches;
    var n := |es| - 1;
    last := vis != [] && vis[|vis| - 1] == n;
    vis' := if last then vis[..|vis| - 1] else vis;
    assert forall i :: 0 <= i < |vis| - 1 ==> vis[i] < vis[|vis| - 1];
    SelectedMatches(es, vis, vis', last, re, ind);
  }

  lemma {:induction false} SelectedMatches(
      es: seq<Entry>, vis: seq<int>, vis': seq<int>, last: bool, re: Regex, ind: int)
    requires es != [] && forall i :: 0 <= i < |vis'| ==> 0 <= vis'[i] < |es| - 1
    requires vis == if last then vis' + [|es| - 1] else vis'
    ensures |AllMatches(Selected(es, vis), re, ind)| ==
            |AllMatches(Selected(es[..|es| - 1], vis'), re, ind)| + if last then |re.find(es[|es| - 1].stripped)| else 0
  {
    var n := |es| - 1;
    var ds, ds' := Selected(es, vis), Selected(es[..n], vis');
    hide AllMatches;
    if last {
      assert ds == ds' + [es[n]];
      AllMatchesSnoc(ds', es[n], re, ind);
    } else {
      assert ds == ds';
    }
  }

  lemma {:induction false} VisAboveRank(vis: seq<int>, k: nat, m: nat)
    requires Increasing(vis) && k <= m < |vis| && vis[k] > k
    ensures vis[m] > m
    decreases m - k
  {
    if k < m {
      assert vis[k] < vis[k + 1];
      VisAboveRank(vis, k + 1, m);
    }
  }
}
