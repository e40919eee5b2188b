/** Parts of the log view's state that an operation leaves alone, and single steps of its methods. */
module LogFrames {
  import opened Ansi
  import opened Ring
  import opened LogIndex
  import opened Options
  import opened LogCaches
  import opened LogLoops

  lemma SameShows(v: View, v': View)
    requires v'.es == v.es && v'.filter == v.filter && v'.fi == v.fi && v'.off == v.off
    ensures Shows(v') == Shows(v)
  {
  }

  lemma SameIndex(v: View, v': View, a: seq<bool>)
    requires IndexOk(v, a) && v'.es == v.es && v'.filter == v.filter && v'.fi == v.fi && v'.off == v.off
    ensures IndexOk(v', a) && Located(v') && Shows(v') == Shows(v)
  {
    InRange(v, a);
  }

  lemma SameInd(v: View, v': View)
    requires v'.dropped == v.dropped
    ensures Ind(v') == Ind(v)
  {
  }

  lemma SameState(v: View, v': View, a: seq<bool>)
    requires v'.es == v.es && v'.filter == v.filter && v'.fi == v.fi && v'.off == v.off
    requires v'.total == v.total && v'.dropped == v.dropped && v'.vpWidth == v.vpWidth && v'.softWrap == v.softWrap
    requires v'.search == v.search && v'.mp == v.mp && v'.mi == v.mi
    ensures v == v'
  {
  }

  lemma SameArrival(v: View, v1: View, v2: View, e: Entry, adm: bool, evict: bool, k: nat)
    requires Arrived(v, v1, e, adm, evict, k)
    requires v2.es == v1.es && v2.filter == v1.filter && v2.fi == v1.fi && v2.off == v1.off && v2.dropped == v1.dropped
    requires v2.search == v1.search && v2.softWrap == v1.softWrap && v2.vpWidth == v1.vpWidth
    ensures Arrived(v, v2, e, adm, evict, k)
  {
  }

  lemma AtStart(v: View)
    requires Located(v)
    ensures v.filter.Some? && |v.fi| > 0 ==> v.fi[0] >= v.off
    ensures v.fi[0..] == v.fi
  {
  }

  lemma PushDrops(b: Buffer, e: Entry)
    requires b.Valid()
    ensures b.Push(e).dropped > b.dropped <==> b.Full()
  {
  }

  lemma ArrivedBy(b: Buffer, v: View, v': View, e: Entry, adm: bool, evict: bool, k: nat)
    requires b.Valid() && v.es == b.lines && v.dropped == b.dropped && evict == b.Full()
    requires v'.es == b.Push(e).lines && v'.dropped == b.Push(e).dropped
    requires v'.filter == v.filter && v'.search == v.search && v'.softWrap == v.softWrap && v'.vpWidth == v.vpWidth
    requires v.filter.None? ==> v'.fi == v.fi
    requires v.filter.Some? ==>
               && v'.off == v.off + (if evict then 1 else 0)
               && k <= |v.fi|
               && (forall i :: 0 <= i < k ==> v.fi[i] < v'.off) && (k < |v.fi| ==> v.fi[k] >= v'.off)
               && v'.fi == v.fi[k..] + if Passes(v.filter.value, e, adm) then [v'.off + |v'.es| - 1] else []
    ensures Arrived(v, v', e, adm, evict, k)
  {
  }

  lemma SameSettings(v: View, v': View, e: Entry, k: nat)
    requires Arrived(v, v', e, true, false, k)
    ensures v'.search == v.search && v'.filter == v.filter
  {
  }

  lemma PlainPass(v: View, e: Entry)
    ensures v.filter.Some? ==> Passes(v.filter.value, e, false) == v.filter.value.test(e.raw)
  {
  }

  lemma MarkerPass(v: View, e: Entry)
    ensures v.filter.Some? ==> Passes(v.filter.value, e, true)
  {
  }

  lemma NothingYet(v: View)
    requires v.es == [] && v.dropped == 0 && v.filter.None? && v.search.None? && v.fi == [] && v.mp == [] && v.mi >= -1
    requires v.total == 0
    ensures IndexOk(v, []) && TotalOk(v) && MatchesOk(v) && Fresh(v)
  {
  }

  lemma SameTotal(v: View, v': View)
    requires TotalOk(v) && v'.es == v.es && v'.filter == v.filter && v'.fi == v.fi && v'.off == v.off
    requires v'.total == v.total && v'.dropped == v.dropped && v'.vpWidth == v.vpWidth && v'.softWrap == v.softWrap
    ensures TotalOk(v')
  {
  }

  lemma SameMatches(v: View, v': View)
    requires MatchesOk(v) && v'.es == v.es && v'.filter == v.filter && v'.fi == v.fi && v'.off == v.off
    requires v'.dropped == v.dropped && v'.search == v.search && v'.mp == v.mp && -1 <= v'.mi
    ensures MatchesOk(v') && (Fresh(v) <==> Fresh(v'))
  {
  }

  lemma TotalIs(v: View)
    requires v.softWrap ==> v.total == TotalRows(Shows(v), v.dropped, v.vpWidth)
    ensures TotalOk(v)
  {
  }

  lemma OldIndex(v: View)
    requires MatchesOk(v)
    ensures -1 <= v.mi
  {
  }

  lemma NotStale(v: View)
    requires v.mi == if v.mp == [] then -1 else 0
    ensures forall y, h :: !StaleSelection(v, y, h)
  {
  }

  lemma FreshWithoutSearch(v: View)
    ensures v.search.None? ==> Fresh(v)
  {
  }

  lemma NoSearch(v: View, v': View)
    requires MatchesOk(v) && v.search.None? && v'.search.None? && v'.mp == v.mp && v'.mi == v.mi
    ensures MatchesOk(v') && Fresh(v')
  {
  }

  lemma AppendedMatches(v: View, v1: View, v': View)
    requires v1.search.Some? && v1.mp == v.mp && -1 <= v.mi == v1.mi && v'.search == v1.search && v'.mi == v1.mi
    requires v'.es == v1.es && v'.filter == v1.filter && v'.fi == v1.fi && v'.off == v1.off && v'.dropped == v1.dropped
    requires SortedMatches(v'.mp, |Shows(v1)| + Ind(v1))
    requires Fresh(v) ==> v'.mp == AllMatches(Shows(v1), v1.search.value, Ind(v1))
    ensures MatchesOk(v') && (Fresh(v) ==> Fresh(v'))
  {
  }

  /** A line that the filter hides, added without eviction, changes nothing on display. */
  lemma HiddenArrival(v: View, v': View, e: Entry, k: nat, a: seq<bool>)
    requires Ok(v, a) && v.filter.Some? && !v.filter.value.test(e.raw)
    requires Arrived(v, v', e, false, false, k) && Recorded(e)
    requires v'.total == v.total && v'.mp == v.mp && v'.mi == v.mi
    ensures IndexOk(v', Kept(a, false) + [false]) && TotalOk(v') && MatchesOk(v')
    ensures (Fresh(v) ==> Fresh(v')) && Shows(v') == Shows(v)
  {
    InRange(v, a);
    ArrivalKeepsIndex(v, v', e, false, false, k, a);
    hide IndexOk, Shows;
    ArrivalExtendsDisplay(v, v', e, false, k);
    assert Shows(v) + [] == Shows(v);
  }

  lemma {:induction false} IncreasingAbove(vis: seq<int>, i: nat)
    requires Increasing(vis) && i < |vis| && vis[0] >= 0
    ensures vis[i] >= i
  {
    if i > 0 {
      IncreasingAbove(vis, i - 1);
    }
  }

  lemma Unfiltered(v: View, v': View, a: seq<bool>)
    requires Ok(v, a)
    requires v' == v.(filter := None, fi := [], off := 0)
    ensures IndexOk(v', a) && MatchesOk(v')
    ensures Fresh(v) ==>
              (Fresh(v') <==> v.search.None? || v.filter.None? ||
                              MatchesAboveHidden(v.es, Shift(v.fi, v.off), v.search.value))
  {
    if v.filter.Some? {
      var vis := Shift(v.fi, v.off);
      if |vis| > 0 {
        IncreasingAbove(vis, |vis| - 1);
      }
      assert |Shows(v)| <= |v.es|;
      if v.search.Some? {
        ClearFilterKeepsMatches(v.es, vis, v.search.value, Ind(v));
      }
    }
  }

  lemma Resized(v: View, v': View, a: seq<bool>)
    requires Ok(v, a)
    requires v'.es == v.es && v'.dropped == v.dropped && v'.filter == v.filter && v'.search == v.search
    requires v'.fi == v.fi && v'.off == v.off && v'.mp == v.mp && v'.mi == v.mi
    ensures IndexOk(v', a) && MatchesOk(v') && (Fresh(v) ==> Fresh(v'))
  {
    SameIndex(v, v', a);
    SameMatches(v, v');
  }

  lemma Redecorated(v: View, v': View, a: seq<bool>)
    requires Ok(v, a)
    requires v'.filter == v.filter && v'.search == v.search && v'.fi == v.fi && v'.off == v.off
    requires v'.mp == v.mp && v'.mi == v.mi && v'.dropped == v.dropped && |v'.es| == |v.es|
    requires forall i :: 0 <= i < |v.es| ==> v'.es[i].raw == v.es[i].raw && Recorded(v'.es[i])
    ensures IndexOk(v', a) && MatchesOk(v')
  {
  }
}
