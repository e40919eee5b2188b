/**
  Highlighting only what is not styled yet (internal/highlight/segments.go). One scan cuts
  the line into styled and plain segments; then the plain ones go through a highlighter,
  and the result is built only once something has changed. Characters stand for bytes.
 */
module Segments {

  import opened Windows

  const ESC: char := '\U{1B}'

  datatype Segment = Segment(start: nat, end: nat, styled: bool)

  /** An SGR sequence found by the scan. */
  datatype Code = Code(start: nat, end: nat, reset: bool)

  predicate Param(c: char) { '0' <= c <= '9' || c == ';' }

  function ParamsEnd(s: string, i: nat): (r: nat)
    requires i <= |s|
    ensures i <= r <= |s|
    decreases |s| - i
  {
    if i < |s| && Param(s[i]) then ParamsEnd(s, i + 1) else i
  }

  predicate IsReset(seq': string) { seq' == [ESC] + "[0m" || seq' == [ESC] + "[m" }

  /** What the scan does at an ESC: the end of the SGR sequence there, or where it goes on
      looking if there is none; then a byte is passed over unread. */
  datatype Found = Sgr(end: nat) | Other(resume: nat)

  function Look(s: string, i: nat): (r: Found)
    requires i < |s| && s[i] == ESC
    ensures r.Sgr? ==> i + 3 <= r.end <= |s|
    ensures r.Other? ==> i + 2 <= r.resume
  {
    if i + 1 >= |s| || s[i + 1] != '[' then Other(i + 2)
    else
      var j := ParamsEnd(s, i + 2);
      if j >= |s| || s[j] != 'm' then Other(j + 1) else Sgr(j + 1)
  }

  /** The SGR sequences the scan finds from `i` on. */
  function Codes(s: string, i: nat): (r: seq<Code>)
    ensures forall k :: 0 <= k < |r| ==> i <= r[k].start && r[k].start + 3 <= r[k].end <= |s|
    decreases |s| - i
  {
    if i >= |s| then []
    else if s[i] != ESC then Codes(s, i + 1)
    else
      match Look(s, i)
      case Other(resume) => Codes(s, resume)
      case Sgr(end) => [Code(i, end, IsReset(s[i..end]))] + Codes(s, end)
  }

  /** Whether byte `p` is styled: a sequence opened a style at or before it, and no reset
      since then ended at or before it. */
  predicate StyledAt(codes: seq<Code>, styled: bool, p: nat) {
    if codes == [] then styled
    else
      var c := codes[0];
      if !styled && !c.reset && c.start <= p then StyledAt(codes[1..], true, p)
      else if styled && c.reset && c.end <= p then StyledAt(codes[1..], false, p)
      else StyledAt(codes[1..], styled, p)
  }

  // ---- the scan ----

  /** The segments from `from` on, when the scan has come to `i`. */
  function Segs(s: string, i: nat, from: nat, styled: bool): seq<Segment>
    decreases |s| - i
  {
    if i >= |s| then if from < |s| then [Segment(from, |s|, styled)] else []
    else if s[i] != ESC then Segs(s, i + 1, from, styled)
    else
      match Look(s, i)
      case Other(resume) => Segs(s, resume, from, styled)
      case Sgr(end) =>
        var reset := IsReset(s[i..end]);
        if !styled && !reset then (if i > from then [Segment(from, i, false)] else []) + Segs(s, end, i, true)
        else if styled && reset then [Segment(from, end, true)] + Segs(s, end, end, false)
        else Segs(s, end, from, styled)
  }

  /** Every segment starts where the one before it ended, and none is empty. */
  predicate Tiles(segs: seq<Segment>, from: nat, to: nat) {
    if segs == [] then from == to
    else segs[0].start == from && from < segs[0].end <= to && Tiles(segs[1..], segs[0].end, to)
  }

  lemma {:induction false} TilesJoin(seg: Segment, rest: seq<Segment>, to: nat)
    requires seg.start < seg.end <= to && Tiles(rest, seg.end, to)
    ensures Tiles([seg] + rest, seg.start, to)
  {
    assert ([seg] + rest)[1..] == rest;
  }

  lemma {:induction false} SegsTile(s: string, i: nat, from: nat, styled: bool)
    requires from <= i && from <= |s|
    ensures Tiles(Segs(s, i, from, styled), from, |s|)
    decreases |s| - i
  {
    if i < |s| {
      if s[i] != ESC {
        SegsTile(s, i + 1, from, styled);
      } else {
        match Look(s, i)
        case Other(resume) => SegsTile(s, resume, from, styled);
        case Sgr(end) =>
          var reset := IsReset(s[i..end]);
          if !styled && !reset {
            SegsTile(s, end, i, true);
            if i > from {
              TilesJoin(Segment(from, i, false), Segs(s, end, i, true), |s|);
            } else {
              assert [] + Segs(s, end, i, true) == Segs(s, end, i, true);
            }
          } else if styled && reset {
            SegsTile(s, end, end, false);
            TilesJoin(Segment(from, end, true), Segs(s, end, end, false), |s|);
          } else {
            SegsTile(s, end, from, styled);
          }
      }
    }
  }

  /** Every byte is in a segment of its own kind. */
  predicate RightAt(segs: seq<Segment>, codes: seq<Code>, styled: bool, p: nat) {
    exists k :: 0 <= k < |segs| && segs[k].start <= p < segs[k].end && (segs[k].styled <==> StyledAt(codes, styled, p))
  }

  lemma {:induction false} LaterCodes(codes: seq<Code>, styled: bool, p: nat)
    requires forall k :: 0 <= k < |codes| ==> p < codes[k].start <= codes[k].end
    ensures StyledAt(codes, styled, p) <==> styled
    decreases |codes|
  {
    if codes != [] {
      LaterCodes(codes[1..], styled, p);
    }
  }

  lemma {:induction false} Head(seg: Segment, rest: seq<Segment>, codes: seq<Code>, styled: bool, p: nat)
    ensures seg.start <= p < seg.end && (seg.styled <==> StyledAt(codes, styled, p)) ==>
            RightAt([seg] + rest, codes, styled, p)
  {
    assert ([seg] + rest)[0] == seg;
  }

  lemma {:induction false} Tail(
      seg: Segment, rest: seq<Segment>, codes: seq<Code>, c: seq<Code>, styled: bool, t: bool, p: nat)
    requires RightAt(rest, c, t, p) && (StyledAt(codes, styled, p) <==> StyledAt(c, t, p))
    ensures RightAt([seg] + rest, codes, styled, p)
  {
    var k :| 0 <= k < |rest| && rest[k].start <= p < rest[k].end && (rest[k].styled <==> StyledAt(c, t, p));
    assert ([seg] + rest)[k + 1] == rest[k];
  }

  lemma {:induction false} OneCode(c: Code, rest: seq<Code>, styled: bool, p: nat)
    ensures StyledAt([c] + rest, styled, p) ==
            if !styled && !c.reset && c.start <= p then StyledAt(rest, true, p)
            else if styled && c.reset && c.end <= p then StyledAt(rest, false, p)
            else StyledAt(rest, styled, p)
  {
    assert ([c] + rest)[1..] == rest;
  }

  lemma {:induction false} SegsRight(s: string, i: nat, from: nat, styled: bool, p: nat)
    requires from <= i && from <= p < |s|
    ensures RightAt(Segs(s, i, from, styled), Codes(s, i), styled, p)
    decreases |s| - i
  {
    if i >= |s| {
      Head(Segment(from, |s|, styled), [], [], styled, p);
      assert [Segment(from, |s|, styled)] + [] == [Segment(from, |s|, styled)];
    } else if s[i] != ESC {
      SegsRight(s, i + 1, from, styled, p);
    } else {
      match Look(s, i)
      case Other(resume) => SegsRight(s, resume, from, styled, p);
      case Sgr(end) => SgrRight(s, i, end, from, styled, p);
    }
  }

  lemma {:induction false} SgrRight(s: string, i: nat, end: nat, from: nat, styled: bool, p: nat)
    requires from <= i < |s| && s[i] == ESC && Look(s, i) == Sgr(end) && from <= p < |s|
    ensures RightAt(Segs(s, i, from, styled), Codes(s, i), styled, p)
    decreases |s| - i, 0
  {
    var reset := IsReset(s[i..end]);
    var c, rest := Code(i, end, reset), Codes(s, end);
    OneCode(c, rest, styled, p);
    if !styled && !reset {
      var tail := Segs(s, end, i, true);
      if p < i {
        LaterCodes(rest, styled, p);
        Head(Segment(from, i, false), tail, [c] + rest, styled, p);
      } else {
        SegsRight(s, end, i, true, p);
        if i > from {
          Tail(Segment(from, i, false), tail, [c] + rest, rest, styled, true, p);
        } else {
          assert [] + tail == tail;
        }
      }
    } else if styled && reset {
      var tail := Segs(s, end, end, false);
      if p < end {
        LaterCodes(rest, styled, p);
        Head(Segment(from, end, true), tail, [c] + rest, styled, p);
      } else {
        SegsRight(s, end, end, false, p);
        Tail(Segment(from, end, true), tail, [c] + rest, rest, styled, false, p);
      }
    } else {
      SegsRight(s, end, from, styled, p);
    }
  }

  method Split(s: string) returns (segs: seq<Segment>)
    ensures segs == Segs(s, 0, 0, false)
  {
    segs := [];
    var inStyled, segStart, i := false, 0, 0;
    while i < |s|
      invariant segs + Segs(s, i, segStart, inStyled) == Segs(s, 0, 0, false)
      decreases |s| - i
    {
      if s[i] != ESC {
        i := i + 1;
        continue;
      }
      var seqStart := i;
      ghost var found := Look(s, i);
      i := i + 1;
      if i >= |s| || s[i] != '[' {
        i := i + 1;
        continue;
      }
      i := i + 1;
      while i < |s| && Param(s[i])
        invariant seqStart + 2 <= i <= |s| && ParamsEnd(s, i) == ParamsEnd(s, seqStart + 2)
      {
        i := i + 1;
      }
      if i >= |s| || s[i] != 'm' {
        i := i + 1;
        continue;
      }
      i := i + 1;
      var reset := IsReset(s[seqStart..i]);
      assert found == Sgr(i);
      if !inStyled {
        if reset {
          continue;
        }
        if seqStart > segStart {
          segs := segs + [Segment(segStart, seqStart, false)];
        }
        segStart := seqStart;
        inStyled := true;
      } else {
        if reset {
          segs := segs + [Segment(segStart, i, true)];
          segStart := i;
          inStyled := false;
        }
      }
    }
    if segStart < |s| {
      segs := segs + [Segment(segStart, |s|, inStyled)];
    }
  }

  // ---- what the scan misses ----

  /** s[a..b] is an SGR sequence (sections 5.4 and 8.3.117 of ECMA-48): an introducer,
      parameters, which may have sub-parameters after colons, and a final m. */
  predicate Sequence(s: string, a: nat, b: nat) {
    && a + 3 <= b <= |s| && s[a] == ESC && s[a + 1] == '[' && s[b - 1] == 'm'
    && forall k :: a + 2 <= k < b - 1 ==> Param(s[k]) || s[k] == ':'
  }

  predicate NoColon(s: string, a: nat, b: nat)
    requires b <= |s|
  {
    forall k :: a <= k < b ==> s[k] != ':'
  }

  lemma {:induction false} ParamsStop(s: string, i: nat)
    requires i <= |s|
    ensures var j := ParamsEnd(s, i);
            (forall k :: i <= k < j ==> Param(s[k])) && (j < |s| ==> !Param(s[j]))
    decreases |s| - i
  {
    if i < |s| && Param(s[i]) {
      ParamsStop(s, i + 1);
    }
  }

  /** Looking at an ESC finds the sequence that begins there, if it has no colons. */
  lemma LookFinds(s: string, a: nat, b: nat)
    requires a < |s| && s[a] == ESC
    ensures Look(s, a) == Sgr(b) <==> Sequence(s, a, b) && NoColon(s, a, b)
  {
    if a + 1 < |s| {
      ParamsStop(s, a + 2);
    }
  }

  /** The end of the sequence that begins at `a`, or 0 if none does. */
  function SequenceEnd(s: string, a: nat): (b: nat)
    requires a < |s|
    ensures b != 0 ==> Sequence(s, a, b)
    ensures b == 0 ==> forall e :: !Sequence(s, a, e)
  {
    if a + 1 < |s| && s[a] == ESC && s[a + 1] == '[' then
      var j := LongParamsEnd(s, a + 2);
      if j < |s| && s[j] == 'm' then j + 1 else 0
    else 0
  }

  function LongParamsEnd(s: string, i: nat): (r: nat)
    requires i <= |s|
    ensures i <= r <= |s|
    ensures forall k :: i <= k < r ==> Param(s[k]) || s[k] == ':'
    ensures r < |s| ==> !Param(s[r]) && s[r] != ':'
    decreases |s| - i
  {
    if i < |s| && (Param(s[i]) || s[i] == ':') then LongParamsEnd(s, i + 1) else i
  }

  lemma OneEnd(s: string, a: nat, b: nat, c: nat)
    requires Sequence(s, a, b) && Sequence(s, a, c)
    ensures b == c
  {
  }

  /** Every sequence of the line from `i` on, wherever it begins. */
  function AllCodes(s: string, i: nat): (r: seq<Code>)
    ensures forall k :: 0 <= k < |r| ==> i <= r[k].start
    decreases |s| - i
  {
    if i >= |s| then []
    else
      var b := SequenceEnd(s, i);
      (if b != 0 then [Code(i, b, IsReset(s[i..b]))] else []) + AllCodes(s, i + 1)
  }

  function Next(s: string, i: nat): (r: nat)
    requires i < |s|
    ensures i < r
  {
    if s[i] != ESC then i + 1
    else
      match Look(s, i)
      case Sgr(end) => end
      case Other(resume) => resume
  }

  /** The scan, having come to `i`, comes to `a`. */
  predicate Reads(s: string, i: nat, a: nat)
    decreases |s| - i
  {
    i == a || (i < a && i < |s| && Reads(s, Next(s, i), a))
  }

  lemma {:induction false} ReadsOn(s: string, i: nat, p: nat, a: nat)
    requires Reads(s, i, p) && p <= a
    ensures Reads(s, i, a) <==> Reads(s, p, a)
    decreases |s| - i
  {
    if i != p {
      ReadsOn(s, Next(s, i), p, a);
      ReadsUp(s, Next(s, i), p);
    }
  }

  lemma {:induction false} ReadsUp(s: string, i: nat, a: nat)
    requires Reads(s, i, a)
    ensures i <= a
  {
  }

  /** What the scan does not come to, it passes over from some place before it. */
  lemma {:induction false} PassedOver(s: string, i: nat, a: nat) returns (q: nat)
    requires i <= a < |s| && !Reads(s, i, a)
    ensures i <= q < a && Reads(s, i, q) && Next(s, q) > a
    decreases |s| - i
  {
    if Next(s, i) > a {
      q := i;
    } else {
      q := PassedOver(s, Next(s, i), a);
    }
  }

  function BackOverParams(s: string, a: nat): (j: nat)
    requires a <= |s|
    ensures j <= a
  {
    if a > 0 && Param(s[a - 1]) then BackOverParams(s, a - 1) else a
  }

  lemma {:induction false} BackStops(s: string, a: nat)
    requires a <= |s|
    ensures var j := BackOverParams(s, a);
            (forall k :: j <= k < a ==> Param(s[k])) && (j > 0 ==> !Param(s[j - 1]))
  {
    if a > 0 && Param(s[a - 1]) {
      BackStops(s, a - 1);
    }
  }

  /** Where a sequence begins that is broken off right before `a`: an ESC, or an ESC with
      its bracket and parameters. -1 if there is none. */
  function BrokenOff(s: string, a: nat): (p: int)
    requires a <= |s|
    ensures -1 <= p < a
    ensures p >= 0 ==> s[p] == ESC
  {
    var j := BackOverParams(s, a);
    if j >= 2 && s[j - 1] == '[' && s[j - 2] == ESC then j - 2
    else if a >= 1 && s[a - 1] == ESC then a - 1
    else -1
  }

  /** How many sequences in a row are broken off right before `a`. */
  function BrokenRun(s: string, a: nat): nat
    requires a <= |s|
  {
    if BrokenOff(s, a) < 0 then 0 else 1 + BrokenRun(s, BrokenOff(s, a))
  }

  /** An ESC that interrupts a sequence is the byte that is passed over unread. */
  lemma BrokenOffSwallows(s: string, a: nat, q: nat)
    requires q < a < |s| && s[a] == ESC
    ensures BrokenOff(s, a) == q <==> s[q] == ESC && Next(s, q) > a
    ensures BrokenOff(s, a) == q ==> Next(s, q) == a + 1
  {
    BackStops(s, a);
    if s[q] == ESC && q + 1 < a && s[q + 1] == '[' {
      ParamsStop(s, q + 2);
    }
  }

  lemma {:induction false} ReadsByRun(s: string, a: nat)
    requires a < |s| && s[a] == ESC
    ensures Reads(s, 0, a) <==> BrokenRun(s, a) % 2 == 0
    decreases a
  {
    var p := BrokenOff(s, a);
    if p >= 0 {
      ReadsByRun(s, p);
      BrokenOffSwallows(s, a, p);
      if Reads(s, 0, p) {
        ReadsOn(s, 0, p, a);
      }
    }
    if !Reads(s, 0, a) {
      var q := PassedOver(s, 0, a);
      BrokenOffSwallows(s, a, q);
    }
  }

  /** The scan records exactly the sequences it comes to. */
  lemma {:induction false} CodesRead(s: string, i: nat, c: Code)
    ensures c in Codes(s, i) <==>
              && i <= c.start && Sequence(s, c.start, c.end) && NoColon(s, c.start, c.end)
              && c.reset == IsReset(s[c.start..c.end]) && Reads(s, i, c.start)
    decreases |s| - i
  {
    if i < |s| {
      CodesRead(s, Next(s, i), c);
      if s[i] == ESC {
        LookFinds(s, i, c.end);
        if Look(s, i).Sgr? {
          LookFinds(s, i, Look(s, i).end);
        }
      }
      if c.start > i && Reads(s, Next(s, i), c.start) {
        ReadsUp(s, Next(s, i), c.start);
      }
    }
  }

  /** Main result on the scan: of the sequences in a line it finds exactly those without
      colons before which an even number of sequences in a row are broken off, and nothing
      else. */
  lemma {:induction false} ScanFindsExactly(s: string, c: Code)
    ensures c in Codes(s, 0) <==>
              && Sequence(s, c.start, c.end) && NoColon(s, c.start, c.end) && BrokenRun(s, c.start) % 2 == 0
              && c.reset == IsReset(s[c.start..c.end])
  {
    CodesRead(s, 0, c);
    if Sequence(s, c.start, c.end) {
      ReadsByRun(s, c.start);
    }
  }

  /** No sequence has colons, or an odd number of sequences broken off before it. */
  ghost predicate NothingMissed(s: string) {
    forall a: nat, b: nat :: Sequence(s, a, b) ==> NoColon(s, a, b) && BrokenRun(s, a) % 2 == 0
  }

  lemma {:induction false} AllCodesAre(s: string, i: nat, c: Code)
    ensures c in AllCodes(s, i) <==>
            i <= c.start && Sequence(s, c.start, c.end) && c.reset == IsReset(s[c.start..c.end])
    decreases |s| - i
  {
    if i < |s| {
      AllCodesAre(s, i + 1, c);
      if c.start == i && Sequence(s, i, c.end) {
        OneEnd(s, i, c.end, SequenceEnd(s, i));
      }
    }
  }

  /** Between two places the scan comes to, all sequences are those it finds. */
  lemma {:induction false} NothingBetween(s: string, i: nat, n: nat)
    requires i <= n <= |s| && forall a, b :: i <= a < n ==> !Sequence(s, a, b)
    ensures AllCodes(s, i) == AllCodes(s, n)
    decreases n - i
  {
    if i < n {
      NothingBetween(s, i + 1, n);
      assert [] + AllCodes(s, i + 1) == AllCodes(s, i + 1);
    }
  }

  lemma {:induction false} SameCodes(s: string, i: nat)
    requires forall a, b :: i <= a && Sequence(s, a, b) ==> Reads(s, i, a) && NoColon(s, a, b)
    ensures Codes(s, i) == AllCodes(s, i)
    decreases |s| - i
  {
    if i < |s| {
      var n := Next(s, i);
      hide Sequence, NoColon, Codes, AllCodes, Next;
      forall a, b | n <= a && Sequence(s, a, b) ensures Reads(s, n, a) && NoColon(s, a, b) {
        assert Reads(s, i, a);
      }
      SameCodes(s, n);
      var m := Min(n, |s|);
      forall a, b | i < a < m ensures !Sequence(s, a, b) {
        if Sequence(s, a, b) {
          assert Reads(s, i, a);
          ReadsUp(s, n, a);
        }
      }
      NothingBetween(s, i + 1, m);
      FirstCode(s, i);
    }
  }

  /** One sequence, or none, and the ones after it: both ways of listing them. */
  lemma {:induction false} FirstCode(s: string, i: nat)
    requires i < |s| && forall b :: Sequence(s, i, b) ==> NoColon(s, i, b)
    ensures var end := SequenceEnd(s, i);
            var head := if end != 0 then [Code(i, end, IsReset(s[i..end]))] else [];
            Codes(s, i) == head + Codes(s, Next(s, i)) && AllCodes(s, i) == head + AllCodes(s, i + 1)
    ensures Next(s, i) > |s| ==> Codes(s, Next(s, i)) == AllCodes(s, |s|)
  {
    var b, n := SequenceEnd(s, i), Next(s, i);
    if s[i] == ESC {
      LookFinds(s, i, b);
      if Look(s, i).Sgr? {
        LookFinds(s, i, Look(s, i).end);
      }
    }
    hide Sequence, NoColon, SequenceEnd, IsReset;
    if b == 0 {
      assert [] + Codes(s, n) == Codes(s, n);
    } else {
      assert Look(s, i) == Sgr(b);
    }
  }

  /** The scan finds every sequence of the line exactly if none is missed. */
  lemma {:induction false} FindsAllExactly(s: string)
    ensures Codes(s, 0) == AllCodes(s, 0) <==> NothingMissed(s)
  {
    if NothingMissed(s) {
      forall a, b | 0 <= a && Sequence(s, a, b) ensures Reads(s, 0, a) && NoColon(s, a, b) {
        ReadsByRun(s, a);
      }
      SameCodes(s, 0);
    } else {
      var a: nat, b: nat :| Sequence(s, a, b) && !(NoColon(s, a, b) && BrokenRun(s, a) % 2 == 0);
      var c := Code(a, b, IsReset(s[a..b]));
      AllCodesAre(s, 0, c);
      ScanFindsExactly(s, c);
    }
  }

  /** ESC ESC [31m x: the second ESC opens a style, and is taken for the byte after the first. */
  lemma MissedSequence()
    ensures var s := [ESC, ESC, '[', '3', '1', 'm', 'x'];
            Sequence(s, 1, 6) && Codes(s, 0) == [] && Segs(s, 0, 0, false) == [Segment(0, 7, false)]
  {
    var s := [ESC, ESC, '[', '3', '1', 'm', 'x'];
    assert Look(s, 0) == Other(2);
    assert Codes(s, 7) == [] && Codes(s, 6) == [] && Codes(s, 5) == [] && Codes(s, 4) == [] && Codes(s, 3) == [] &&
           Codes(s, 2) == [];
    assert Segs(s, 7, 0, false) == [Segment(0, 7, false)];
    assert Segs(s, 5, 0, false) == Segs(s, 6, 0, false) == Segs(s, 7, 0, false);
    assert Segs(s, 2, 0, false) == Segs(s, 3, 0, false) == Segs(s, 4, 0, false) == Segs(s, 5, 0, false);
  }

  // ---- applying the highlighter ----

  /** Every segment in place, the plain ones highlighted. */
  function Eager(s: string, segs: seq<Segment>, from: nat, h: string -> string): string
    requires Tiles(segs, from, |s|)
    decreases |segs|
  {
    if segs == [] then ""
    else
      var text := s[segs[0].start..segs[0].end];
      (if segs[0].styled then text else h(text)) + Eager(s, segs[1..], segs[0].end, h)
  }

  lemma {:induction false} Unchanged(s: string, segs: seq<Segment>, from: nat, h: string -> string)
    requires from <= |s| && Tiles(segs, from, |s|)
    requires forall k :: 0 <= k < |segs| && !segs[k].styled && segs[k].start <= segs[k].end <= |s| ==>
               h(s[segs[k].start..segs[k].end]) == s[segs[k].start..segs[k].end]
    ensures Eager(s, segs, from, h) == s[from..]
    decreases |segs|
  {
    if segs != [] {
      Unchanged(s, segs[1..], segs[0].end, h);
      assert s[from..] == s[from..segs[0].end] + s[segs[0].end..];
    }
  }

  /** One segment further. */
  lemma {:induction false} EagerStep(s: string, segs: seq<Segment>, k: nat, from: nat, h: string -> string)
    requires k < |segs| && from <= |s| && Tiles(segs[k..], from, |s|)
    ensures var seg := segs[k];
            && from == seg.start < seg.end <= |s| && Tiles(segs[k + 1..], seg.end, |s|)
            && Eager(s, segs[k..], from, h) ==
               (if seg.styled then s[from..seg.end] else h(s[from..seg.end])) + Eager(s, segs[k + 1..], seg.end, h)
            && s[..seg.end] == s[..from] + s[from..seg.end]
  {
    assert segs[k..][1..] == segs[k + 1..];
  }

  /** The builder is started at the first plain segment that changes, with all that went
      before it; and is not needed if none does. */
  method Render(s: string, segs: seq<Segment>, h: string -> string) returns (r: string)
    requires Tiles(segs, 0, |s|)
    ensures r == Eager(s, segs, 0, h)
  {
    hide Tiles, Eager;
    ghost var total := Eager(s, segs, 0, h);
    var sb, modified := "", false;
    var k := 0;
    ghost var at: nat := 0;
    assert segs[0..] == segs;
    while k < |segs|
      invariant 0 <= k <= |segs| && at <= |s| && Tiles(segs[k..], at, |s|)
      invariant total == (if modified then sb else s[..at]) + Eager(s, segs[k..], at, h)
    {
      EagerStep(s, segs, k, at, h);
      var seg := segs[k];
      var text := s[seg.start..seg.end];
      ghost var rest := Eager(s, segs[k + 1..], seg.end, h);
      ghost var before := if modified then sb else s[..at];
      if seg.styled {
        if modified {
          sb := sb + text;
        }
        Assoc(before, text, rest);
      } else {
        var highlighted := h(text);
        Assoc(before, highlighted, rest);
        if highlighted != text {
          if !modified {
            modified := true;
            sb := s[..seg.start];
          }
          sb := sb + highlighted;
        } else {
          if modified {
            sb := sb + text;
          }
        }
      }
      at := seg.end;
      k := k + 1;
    }
    EagerEnd(s, segs[k..], at, h);
    if !modified {
      return s;
    }
    return sb;
  }

  lemma {:induction false} EagerEnd(s: string, segs: seq<Segment>, at: nat, h: string -> string)
    requires segs == [] && at <= |s| && Tiles(segs, at, |s|)
    ensures Eager(s, segs, at, h) == "" && s[..at] + "" == s && at == |s|
  {
  }

  /** The segments of a line: no empty one, none left out, each byte in one of its kind as
      `codes` have it. */
  ghost predicate Cut(s: string, segs: seq<Segment>, codes: seq<Code>) {
    && Tiles(segs, 0, |s|)
    && forall p :: 0 <= p < |s| ==> RightAt(segs, codes, false, p)
  }

  /** Main result: for every line and highlighter, the result is the line with exactly its
      unstyled stretches highlighted: unstyled as the scan finds it, which is as the line has
      it if no sequence is missed. A line without escapes is highlighted whole, the empty line
      too. */
  method ApplyToUnhighlighted(line: string, h: string -> string) returns (r: string)
    ensures ESC !in line ==> r == h(line)
    ensures ESC in line ==>
              Cut(line, Segs(line, 0, 0, false), Codes(line, 0)) && r == Eager(line, Segs(line, 0, 0, false), 0, h)
    ensures ESC in line && NothingMissed(line) ==> Cut(line, Segs(line, 0, 0, false), AllCodes(line, 0))
  {
    if ESC !in line {
      return h(line);
    }
    FindsAllExactly(line);
    hide NothingMissed, AllCodes;
    var segs := Split(line);
    SegsTile(line, 0, 0, false);
    forall p | 0 <= p < |line| ensures RightAt(segs, Codes(line, 0), false, p) {
      SegsRight(line, 0, 0, false, p);
    }
    r := Render(line, segs, h);
  }

  /** A line without escapes is one plain segment. */
  lemma {:induction false} PlainLine(s: string, i: nat, from: nat)
    requires from <= i <= |s| && from < |s| && forall k :: i <= k < |s| ==> s[k] != ESC
    ensures Segs(s, i, from, false) == [Segment(from, |s|, false)]
    decreases |s| - i
  {
    if i < |s| {
      PlainLine(s, i + 1, from);
    }
  }

  /** The fast path is the general one, but for the empty line. */
  lemma {:induction false} FastPath(s: string, h: string -> string)
    requires ESC !in s
    ensures Tiles(Segs(s, 0, 0, false), 0, |s|)
    ensures Eager(s, Segs(s, 0, 0, false), 0, h) == h(s) <==> s != "" || h("") == ""
  {
    SegsTile(s, 0, 0, false);
    if s != "" {
      PlainLine(s, 0, 0);
      var segs := [Segment(0, |s|, false)];
      assert segs[1..] == [] && s[0..|s|] == s;
      assert h(s) + "" == h(s);
    }
  }
}
