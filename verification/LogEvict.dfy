/** The selected match after an append that evicts the oldest line (internal/ui/logview.go). */
module LogEvictions {
  import opened Ring
  import opened LogIndex
  import opened LogCaches
  import opened LogFrames

  lemma {:induction false} MatchesWithoutFirst(ds: seq<Entry>, re: Regex, ind: int, ind': int)
    requires ds != []
    ensures |AllMatches(ds, re, ind)| == |re.find(ds[0].stripped)| + |AllMatches(ds[1..], re, ind')|
    decreases |ds|
  {
    var n := |ds| - 1;
    if n > 0 {
      MatchesWithoutFirst(ds[..n], re, ind, ind');
      assert ds[..n][1..] == ds[1..][..n - 1] && ds[..n][0] == ds[0];
    } else {
      assert ds[..0] == [] && ds[1..] == [];
    }
  }

  /** Whether the oldest line is on display. */
  predicate OldestShown(v: View) { v.filter.None? || 0 in Shift(v.fi, v.off) }

  predicate Displayed(v: View, e: Entry, adm: bool) { v.filter.None? || Passes(v.filter.value, e, adm) }

  /** The trimmed entries are the one for position 0, if it is listed. */
  lemma TrimmedOne(vis: seq<int>, k: nat, n: nat)
    requires Increasing(vis) && forall i :: 0 <= i < |vis| ==> 0 <= vis[i] < n
    requires k <= |vis| && (forall i :: 0 <= i < k ==> vis[i] < 1) && (k < |vis| ==> vis[k] >= 1)
    ensures k == if 0 in vis then 1 else 0
    ensures forall i :: k <= i < |vis| ==> 1 <= vis[i] < n
    ensures k == 1 ==> vis[0] == 0
  {
    if k > 0 {
      IncreasingAbove(vis, k - 1);
      assert vis[0] == 0;
    }
    if k < |vis| {
      forall i | k <= i < |vis| ensures 1 <= vis[i] {
        assert i > k ==> vis[k] < vis[i];
      }
    }
  }

  lemma SelectedAfter(es: seq<Entry>, e: Entry, vis: seq<int>, vis': seq<int>, k: nat, shown: bool)
    requires es != [] && k <= |vis| && forall i :: k <= i < |vis| ==> 1 <= vis[i] < |es|
    requires |vis'| == |vis| - k + if shown then 1 else 0
    requires forall i :: k <= i < |vis| ==> vis'[i - k] == vis[i] - 1
    requires shown ==> vis'[|vis| - k] == |es| - 1
    ensures Selected(es[1..] + [e], vis') == Selected(es, vis)[k..] + if shown then [e] else []
  {
    var ds := Selected(es, vis);
    forall i | 0 <= i < |vis'| ensures Selected(es[1..] + [e], vis')[i] == (ds[k..] + if shown then [e] else [])[i] {
      if i < |vis| - k {
        assert vis'[i] == vis[i + k] - 1 && ds[k..][i] == ds[i + k];
      }
    }
  }

  lemma ShiftedTail(fi: seq<int>, off: int, k: nat, more: seq<int>)
    requires k <= |fi|
    ensures var vis, vis' := Shift(fi, off), Shift(fi[k..] + more, off + 1);
            && |vis'| == |fi| - k + |more|
            && (forall i :: k <= i < |fi| ==> vis'[i - k] == vis[i] - 1)
            && forall i :: 0 <= i < |more| ==> vis'[|fi| - k + i] == more[i] - off - 1
  {
  }

  /** An evicting line takes the oldest line off the display, if it was there, and joins it at
      the end, if the filter lets it through. */
  lemma EvictionShows(v: View, v': View, e: Entry, adm: bool, k: nat, a: seq<bool>)
    requires IndexOk(v, a) && Arrived(v, v', e, adm, true, k)
    ensures OldestShown(v) ==> |Shows(v)| > 0 && Shows(v)[0] == v.es[0]
    ensures Shows(v') == Shows(v)[if OldestShown(v) then 1 else 0..] + if Displayed(v, e, adm) then [e] else []
  {
    hide *;
    EvictedParts(v, v', e, adm, k, a);
    if v.filter.Some? {
      var vis := Shift(v.fi, v.off);
      var more := if Displayed(v, e, adm) then [v'.off + |v'.es| - 1] else [];
      TrimmedOne(vis, k, |v.es|);
      ShiftedTail(v.fi, v.off, k, more);
      SelectedAfter(v.es, e, vis, Shift(v'.fi, v'.off), k, Displayed(v, e, adm));
    }
  }

  /** What an eviction does to the filter list and the lines, spelled out. */
  lemma EvictedParts(v: View, v': View, e: Entry, adm: bool, k: nat, a: seq<bool>)
    requires IndexOk(v, a) && Arrived(v, v', e, adm, true, k)
    ensures v.es != [] && v'.es == v.es[1..] + [e]
    ensures v.filter.None? ==> OldestShown(v) && Displayed(v, e, adm) && Shows(v) == v.es && Shows(v') == v'.es
    ensures v.filter.Some? ==>
              var vis := Shift(v.fi, v.off);
              && Increasing(vis) && (forall i :: 0 <= i < |vis| ==> 0 <= vis[i] < |v.es|)
              && k <= |vis| && (forall i :: 0 <= i < k ==> vis[i] < 1) && (k < |vis| ==> vis[k] >= 1)
              && (OldestShown(v) <==> 0 in vis) && Shows(v) == Selected(v.es, vis)
              && Shows(v') == Selected(v'.es, Shift(v'.fi, v'.off))
              && v'.off == v.off + 1 && v'.fi == v.fi[k..] + if Displayed(v, e, adm) then [v'.off + |v'.es| - 1] else []
  {
    hide Passes, Selected;
  }

  /** A line that evicts another leaves the selected index where it was. Under any filter it
      is past the end of the rebuilt list if and only if the list lost enough matches: those
      of the oldest line, if it was on display, less those of the new one, if it is. */
  lemma SelectionAfterEviction(v: View, v': View, e: Entry, adm: bool, k: nat, a: seq<bool>)
    requires IndexOk(v, a) && Arrived(v, v', e, adm, true, k) && v.search.Some? && Fresh(v) && Fresh(v') &&
             v'.mi == v.mi
    ensures var re := v.search.value;
            v'.mi >= |v'.mp| <==>
            v.mi >= |v.mp| - (if OldestShown(v) then |re.find(v.es[0].stripped)| else 0)
                           + (if Displayed(v, e, adm) then |re.find(e.stripped)| else 0)
  {
    hide *;
    var re := v.search.value;
    EvictionShows(v, v', e, adm, k, a);
    SameSearch(v, v', e, adm, k);
    FreshIs(v);
    FreshIs(v');
    var left := Shows(v)[if OldestShown(v) then 1 else 0..];
    if OldestShown(v) {
      MatchesWithoutFirst(Shows(v), re, Ind(v), Ind(v'));
    } else {
      assert left == Shows(v);
      SameNumber(left, re, Ind(v), Ind(v'));
    }
    AllMatchesSnoc(left, e, re, Ind(v'));
    assert left + [] == left;
  }

  lemma FreshIs(v: View)
    requires Fresh(v) && v.search.Some?
    ensures v.mp == AllMatches(Shows(v), v.search.value, Ind(v))
  {
  }

  lemma SameSearch(v: View, v': View, e: Entry, adm: bool, k: nat)
    requires Arrived(v, v', e, adm, true, k)
    ensures v'.search == v.search
  {
  }

  lemma {:induction false} SameNumber(ds: seq<Entry>, re: Regex, ind: int, ind': int)
    ensures |AllMatches(ds, re, ind)| == |AllMatches(ds, re, ind')|
    decreases |ds|
  {
    if ds != [] {
      SameNumber(ds[..|ds| - 1], re, ind, ind');
    }
  }
}
