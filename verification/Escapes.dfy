/**
  Two scans over text with escape sequences, which run from an ESC to the next letter:
  the offsets of a text in its coloured display (internal/render/offsets.go), and taking the
  colours out of a table row while keeping its reverse video (internal/table/table.go).
  Characters stand for bytes.
 */
module Escapes {

  const ESC: char := '\U{1B}'

  predicate Terminator(c: char) { 'A' <= c <= 'Z' || 'a' <= c <= 'z' }

  /** The end of an escape sequence of which `i` was reached; at most the end of the text. */
  function EscEnd(s: string, i: nat): (r: nat)
    requires i <= |s|
    ensures i <= r <= |s| && (i < |s| ==> i < r)
    decreases |s| - i
  {
    if i >= |s| then i else if Terminator(s[i]) then i + 1 else EscEnd(s, i + 1)
  }

  /** The text from `i` on without its escape sequences. */
  function Strip(s: string, i: nat): string
    requires i <= |s|
    decreases |s| - i
  {
    if i >= |s| then "" else if s[i] == ESC then Strip(s, EscEnd(s, i + 1)) else [s[i]] + Strip(s, i + 1)
  }

  /** Past the escape sequences that begin at `i`. */
  function SkipEscs(s: string, i: nat): (r: nat)
    requires i <= |s|
    ensures i <= r <= |s|
    ensures r < |s| ==> s[r] != ESC
    ensures Strip(s, r) == Strip(s, i)
    decreases |s| - i
  {
    if i < |s| && s[i] == ESC then SkipEscs(s, EscEnd(s, i + 1)) else i
  }

  // ---- offsets ----

  /** Where the display has the next `n` characters, from `di` on; 0 once it has run out. */
  function Places(display: string, di: nat, n: nat): (r: seq<nat>)
    ensures |r| == n
    decreases n
  {
    if n == 0 then []
    else if di >= |display| then [0] + Places(display, di, n - 1)
    else
      var d := SkipEscs(display, di);
      [d] + Places(display, d + 1, n - 1)
  }

  /** The whole mapping: the end of the text is the end of the display. */
  function Mapping(raw: string, display: string): (r: seq<nat>)
    ensures |r| == |raw| + 1
  {
    Places(display, 0, |raw|) + [|display|]
  }

  /** Pairs within the text are mapped, the others dropped. */
  function Mapped(mapping: seq<nat>, pairs: seq<(nat, nat)>): seq<(nat, nat)> {
    if pairs == [] then []
    else
      var rest, p := Mapped(mapping, pairs[..|pairs| - 1]), pairs[|pairs| - 1];
      if p.0 >= |mapping| || p.1 >= |mapping| then rest else rest + [(mapping[p.0], mapping[p.1])]
  }

  predicate Inside(mapping: seq<nat>, p: (nat, nat)) { p.0 < |mapping| && p.1 < |mapping| }

  /** How many of the first `n` pairs are within the text. */
  function InsideUpTo(mapping: seq<nat>, pairs: seq<(nat, nat)>, n: nat): nat
    requires n <= |pairs|
  {
    if n == 0 then 0 else InsideUpTo(mapping, pairs, n - 1) + if Inside(mapping, pairs[n - 1]) then 1 else 0
  }

  /** The pairs within the text, and no others, are mapped, each after those before it. */
  lemma {:induction false} MappedExactly(mapping: seq<nat>, pairs: seq<(nat, nat)>, k: nat)
    requires k < |pairs|
    ensures |Mapped(mapping, pairs)| == InsideUpTo(mapping, pairs, |pairs|)
    ensures Inside(mapping, pairs[k]) ==>
              var at := InsideUpTo(mapping, pairs, k);
              at < |Mapped(mapping, pairs)| &&
              Mapped(mapping, pairs)[at] == (mapping[pairs[k].0], mapping[pairs[k].1])
    decreases |pairs|
  {
    var init, n := pairs[..|pairs| - 1], |pairs| - 1;
    InsideOfPrefix(mapping, pairs, n, n);
    if k < n {
      MappedExactly(mapping, init, k);
      InsideOfPrefix(mapping, pairs, n, k);
    } else if n > 0 {
      MappedExactly(mapping, init, 0);
    }
  }

  lemma {:induction false} InsideOfPrefix(mapping: seq<nat>, pairs: seq<(nat, nat)>, n: nat, k: nat)
    requires k <= n <= |pairs|
    ensures InsideUpTo(mapping, pairs[..n], k) == InsideUpTo(mapping, pairs, k)
  {
    if k > 0 {
      InsideOfPrefix(mapping, pairs, n, k - 1);
    }
  }

  /** Past the escape sequences at `di`, in two nested scans. */
  method Skip(display: string, from: nat) returns (di: nat)
    requires from <= |display|
    ensures di == SkipEscs(display, from)
  {
    di := from;
    while di < |display| && display[di] == ESC
      invariant from <= di <= |display| && SkipEscs(display, di) == SkipEscs(display, from)
    {
      di := SkipOne(display, di);
    }
  }

  method FillMapping(raw: string, display: string) returns (mapping: array<nat>)
    ensures fresh(mapping) && mapping[..] == Mapping(raw, display)
  {
    hide *;
    mapping := new nat[|raw| + 1](_ => 0);
    var ri: nat, di: nat := 0, 0;
    ghost var all := Places(display, 0, |raw|);
    while ri < |raw| && di < |display|
      invariant ri <= |raw| && all[ri..] == Places(display, di, |raw| - ri)
      invariant forall k :: 0 <= k <= |raw| ==> mapping[k] == if k < ri then all[k] else 0
    {
      PlacesStep(all, display, di, ri);
      di := Skip(display, di);
      mapping[ri] := di;
      ri := ri + 1;
      di := di + 1;
    }
    PlacesEnd(all, display, di, ri);
    mapping[|raw|] := |display|;
    MappingIs(raw, display, mapping[..]);
  }

  lemma {:induction false} PlacesStep(all: seq<nat>, display: string, di: nat, ri: nat)
    requires ri < |all| && di < |display| && all[ri..] == Places(display, di, |all| - ri)
    ensures var d := SkipEscs(display, di);
            all[ri] == d && all[ri + 1..] == Places(display, d + 1, |all| - ri - 1)
  {
    hide SkipEscs;
    assert all[ri] == all[ri..][0] && all[ri + 1..] == all[ri..][1..];
  }

  lemma PlacesEnd(all: seq<nat>, display: string, di: nat, ri: nat)
    requires ri <= |all| && (ri == |all| || di >= |display|) && all[ri..] == Places(display, di, |all| - ri)
    ensures forall k :: ri <= k < |all| ==> all[k] == 0
  {
    Zeros(display, di, |all| - ri);
    forall k | ri <= k < |all| ensures all[k] == 0 {
      assert all[k] == all[ri..][k - ri];
    }
  }

  lemma {:induction false} MappingIs(raw: string, display: string, m: seq<nat>)
    requires |m| == |raw| + 1 && m[|raw|] == |display|
    requires forall k :: 0 <= k < |raw| ==> m[k] == Places(display, 0, |raw|)[k]
    ensures m == Mapping(raw, display)
  {
  }

  method MapOffsetsToDisplay(raw: string, display: string, rawOffsets: seq<(nat, nat)>) returns (out: seq<(nat, nat)>)
    ensures out == Mapped(Mapping(raw, display), rawOffsets)
  {
    hide Places, Mapping;
    var mapping := FillMapping(raw, display);
    ghost var m := mapping[..];
    out := [];
    var k := 0;
    while k < |rawOffsets|
      invariant 0 <= k <= |rawOffsets| && mapping[..] == m && out == Mapped(m, rawOffsets[..k])
    {
      var pair := rawOffsets[k];
      assert rawOffsets[..k + 1][..k] == rawOffsets[..k];
      if pair.0 <= |raw| && pair.1 <= |raw| {
        out := out + [(mapping[pair.0], mapping[pair.1])];
      }
      k := k + 1;
    }
    assert rawOffsets[..|rawOffsets|] == rawOffsets;
  }

  lemma {:induction false} Zeros(display: string, di: nat, n: nat)
    requires n == 0 || di >= |display|
    ensures Places(display, di, n) == seq(n, _ => 0)
    decreases n
  {
    if n > 0 {
      Zeros(display, di, n - 1);
    }
  }

  /** A scan that starts at `i` comes by `j`: no escape sequence runs across it. */
  predicate Reaches(s: string, i: nat, j: nat)
    requires i <= |s| && j <= |s|
    decreases |s| - i
  {
    i == j || (i < j && Reaches(s, if s[i] == ESC then EscEnd(s, i + 1) else i + 1, j))
  }

  lemma {:induction false} ReachesTrans(s: string, i: nat, j: nat, k: nat)
    requires i <= |s| && j <= |s| && k <= |s| && Reaches(s, i, j) && Reaches(s, j, k)
    ensures Reaches(s, i, k)
    decreases |s| - i
  {
    ReachesUp(s, j, k);
    if i != j {
      var n := if s[i] == ESC then EscEnd(s, i + 1) else i + 1;
      ReachesUp(s, n, j);
      ReachesTrans(s, n, j, k);
    }
  }

  lemma {:induction false} ReachesUp(s: string, i: nat, j: nat)
    requires i <= |s| && j <= |s| && Reaches(s, i, j)
    ensures i <= j
    decreases |s| - i
  {
  }

  lemma {:induction false} SkipReaches(s: string, i: nat)
    requires i <= |s|
    ensures Reaches(s, i, SkipEscs(s, i))
    decreases |s| - i
  {
    if i < |s| && s[i] == ESC {
      SkipReaches(s, EscEnd(s, i + 1));
    }
  }

  /** Cut at such a place, the text and its escape sequences come apart cleanly. */
  lemma {:induction false} StripCut(s: string, i: nat, j: nat)
    requires i <= j <= |s| && Reaches(s, i, j)
    ensures Strip(s, i) == Strip(s[..j], i) + Strip(s, j)
    decreases |s| - i
  {
    if i < j {
      var n := if s[i] == ESC then EscEnd(s, i + 1) else i + 1;
      ReachesUp(s, n, j);
      StripCut(s, n, j);
      if s[i] == ESC {
        EscEndCut(s, i + 1, j);
      }
      hide Reaches, EscEnd;
      StripStep(s, i);
      StripStep(s[..j], i);
    }
  }

  lemma StripStep(s: string, i: nat)
    requires i < |s|
    ensures Strip(s, i) == if s[i] == ESC then Strip(s, EscEnd(s, i + 1)) else [s[i]] + Strip(s, i + 1)
  {
  }

  lemma {:induction false} EscEndCut(s: string, i: nat, j: nat)
    requires i <= |s| && j <= |s| && EscEnd(s, i) <= j
    ensures EscEnd(s[..j], i) == EscEnd(s, i)
    decreases |s| - i
  {
    if i < |s| && !Terminator(s[i]) {
      EscEndCut(s, i + 1, j);
    }
  }

  lemma {:induction false} StripFrom(s: string, i: nat, k: nat)
    requires i + k <= |s|
    ensures Strip(s[i..], k) == Strip(s, i + k)
    decreases |s| - k
  {
    if i + k < |s| {
      if s[i + k] == ESC {
        EscEndFrom(s, i, k + 1);
        StripFrom(s, i, EscEnd(s[i..], k + 1));
      } else {
        StripFrom(s, i, k + 1);
      }
    }
  }

  lemma {:induction false} EscEndFrom(s: string, i: nat, k: nat)
    requires i + k <= |s|
    ensures EscEnd(s[i..], k) + i == EscEnd(s, i + k)
    decreases |s| - k
  {
    if i + k < |s| && !Terminator(s[i + k]) {
      EscEndFrom(s, i, k + 1);
    }
  }

  /** Each character of the text is found, in order, outside every escape sequence. */
  lemma {:induction false} PlaceOf(display: string, di: nat, raw: string, k: nat)
    requires di <= |display| && Strip(display, di) == raw && k < |raw|
    ensures var d := Places(display, di, |raw|)[k];
            && di <= d < |display| && display[d] == raw[k] && Reaches(display, di, d)
            && Strip(display, d) == raw[k..]
    decreases |raw|
  {
    var d := SkipEscs(display, di);
    SkipReaches(display, di);
    if k > 0 {
      PlaceOf(display, d + 1, raw[1..], k - 1);
      var e := Places(display, d + 1, |raw| - 1)[k - 1];
      assert Reaches(display, d, d + 1);
      ReachesTrans(display, d, d + 1, e);
      ReachesTrans(display, di, d, e);
    }
  }

  lemma {:induction false} PlaceInMapping(raw: string, display: string, k: nat)
    requires Strip(display, 0) == raw && k <= |raw|
    ensures var d := Mapping(raw, display)[k];
            && d <= |display| && Reaches(display, 0, d) && Strip(display, d) == raw[k..]
            && (k < |raw| ==> d < |display| && display[d] == raw[k])
  {
    if k < |raw| {
      PlaceOf(display, 0, raw, k);
    } else {
      EndReached(display, 0);
    }
  }

  lemma {:induction false} EndReached(s: string, i: nat)
    requires i <= |s|
    ensures Reaches(s, i, |s|)
    decreases |s| - i
  {
    if i < |s| {
      EndReached(s, if s[i] == ESC then EscEnd(s, i + 1) else i + 1);
    }
  }

  lemma {:induction false} Between(s: string, i: nat, a: nat, b: nat)
    requires i <= |s| && a <= b <= |s| && Reaches(s, i, a) && Reaches(s, i, b)
    ensures Reaches(s, a, b)
    decreases |s| - i
  {
    ReachesUp(s, i, a);
    if i != a {
      Between(s, if s[i] == ESC then EscEnd(s, i + 1) else i + 1, a, b);
    }
  }

  lemma {:induction false} Later(display: string, a: nat, b: nat)
    requires a <= |display| && b <= |display| && Reaches(display, 0, a) && Reaches(display, 0, b)
    requires |Strip(display, b)| <= |Strip(display, a)|
    ensures a <= b || Strip(display, a) == Strip(display, b)
  {
    if b < a {
      Between(display, 0, b, a);
      StripCut(display, b, a);
      assert |Strip(display[..a], b)| == 0;
    }
  }

  /** Main result: when the display is the text with escape sequences put in, a mapped pair
      cuts from the display what the pair cuts from the text, colours included. */
  lemma {:induction false} MappedSlice(raw: string, display: string, a: nat, b: nat)
    requires Strip(display, 0) == raw && a < b <= |raw|
    ensures var m := Mapping(raw, display);
            m[a] < m[b] <= |display| && display[m[a]] == raw[a] && Strip(display[m[a]..m[b]], 0) == raw[a..b]
  {
    hide Reaches, Strip, EscEnd, Places;
    PlaceInMapping(raw, display, a);
    PlaceInMapping(raw, display, b);
    var x, y := Mapping(raw, display)[a], Mapping(raw, display)[b];
    hide Mapping;
    Later(display, x, y);
    Between(display, 0, x, y);
    StripCut(display, x, y);
    StripFrom(display[..y], x, 0);
    SlicePrefix(raw, a, b, Strip(display[..y], x));
    assert display[..y][x..] == display[x..y];
  }

  lemma SlicePrefix(raw: string, a: nat, b: nat, head: string)
    requires a <= b <= |raw| && raw[a..] == head + raw[b..]
    ensures head == raw[a..b]
  {
    assert |head| == b - a;
    assert head == (head + raw[b..])[..b - a] == raw[a..][..b - a];
  }

  // ---- table rows ----

  const REVERSE: string := [ESC, '[', '7', 'm']
  const NO_REVERSE: string := [ESC, '[', '2', '7', 'm']

  predicate ReverseAt(s: string, i: nat) {
    i + 4 <= |s| && s[i] == ESC && s[i + 1] == '[' && s[i + 2] == '7' && s[i + 3] == 'm'
  }

  predicate NoReverseAt(s: string, i: nat) {
    i + 5 <= |s| && s[i] == ESC && s[i + 1] == '[' && s[i + 2] == '2' && s[i + 3] == '7' && s[i + 4] == 'm'
  }

  /** The reverse-video switch at `i`, if there is one. */
  function Switch(s: string, i: nat): (r: string)
    requires i < |s|
    ensures r == "" || (i + |r| <= |s| && s[i] == ESC && 4 <= |r|)
  {
    if ReverseAt(s, i) then REVERSE else if NoReverseAt(s, i) then NO_REVERSE else ""
  }

  /** The row with no escape sequences but the reverse-video switches. */
  function Kept(s: string, i: nat): string
    requires i <= |s|
    decreases |s| - i
  {
    if i >= |s| then ""
    else if Switch(s, i) != "" then Switch(s, i) + Kept(s, i + |Switch(s, i)|)
    else if s[i] == ESC then Kept(s, EscEnd(s, i + 1))
    else [s[i]] + Kept(s, i + 1)
  }

  datatype Marker = Marker(at: nat, code: string)

  /** The switches from `i` on, each with the number of characters before it. */
  function Markers(s: string, i: nat, vi: nat): seq<Marker>
    requires i <= |s|
    decreases |s| - i
  {
    if i >= |s| then []
    else if Switch(s, i) != "" then [Marker(vi, Switch(s, i))] + Markers(s, i + |Switch(s, i)|, vi)
    else if s[i] == ESC then Markers(s, EscEnd(s, i + 1), vi)
    else Markers(s, i + 1, vi + 1)
  }

  /** The characters from `last` on with the markers put back. */
  function Spliced(text: string, marks: seq<Marker>, last: nat): string
    requires last <= |text|
    decreases |marks|
  {
    if marks == [] then text[last..]
    else
      var at := if marks[0].at > |text| then |text| else marks[0].at;
      if at < last then "" else text[last..at] + marks[0].code + Spliced(text, marks[1..], at)
  }

  lemma {:induction false} SwitchEnd(s: string, i: nat)
    requires i < |s| && Switch(s, i) != ""
    ensures EscEnd(s, i + 1) == i + |Switch(s, i)|
  {
    if ReverseAt(s, i) {
      assert EscEnd(s, i + 3) == i + 4;
    } else {
      assert EscEnd(s, i + 4) == i + 5;
      assert EscEnd(s, i + 3) == i + 5;
    }
    assert EscEnd(s, i + 2) == EscEnd(s, i + 3);
  }

  lemma {:induction false} MarkersUp(s: string, i: nat, vi: nat)
    requires i <= |s|
    ensures forall k :: 0 <= k < |Markers(s, i, vi)| ==> vi <= Markers(s, i, vi)[k].at
    decreases |s| - i
  {
    hide *;
    if i >= |s| {
      MarkersEnd(s, vi);
    } else {
      MarkersStep(s, i, vi);
      var code := Switch(s, i);
      if code != "" {
        MarkersUp(s, i + |code|, vi);
      } else if s[i] == ESC {
        MarkersUp(s, EscEnd(s, i + 1), vi);
      } else {
        MarkersUp(s, i + 1, vi + 1);
      }
    }
  }

  /** Markers further on let the next character through. */
  lemma SplicedNext(text: string, marks: seq<Marker>, last: nat)
    requires last < |text| && forall k :: 0 <= k < |marks| ==> last + 1 <= marks[k].at
    ensures Spliced(text, marks, last) == [text[last]] + Spliced(text, marks, last + 1)
  {
    if marks != [] {
      var at := if marks[0].at > |text| then |text| else marks[0].at;
      SliceHead(text, last, at);
      assert ([text[last]] + text[last + 1..at]) + marks[0].code == [text[last]] + (text[last + 1..at] + marks[0].code);
    } else {
      SliceHead(text, last, |text|);
    }
  }

  lemma SliceHead(text: string, last: nat, at: nat)
    requires last < at <= |text|
    ensures text[last..at] == [text[last]] + text[last + 1..at]
  {
  }

  lemma {:induction false} SplicedMarker(text: string, vi: nat, code: string, rest: seq<Marker>)
    requires vi <= |text|
    ensures Spliced(text, [Marker(vi, code)] + rest, vi) == code + Spliced(text, rest, vi)
  {
    assert ([Marker(vi, code)] + rest)[1..] == rest && text[vi..vi] == "";
    assert "" + code == code;
  }

  lemma NextCharacter(s: string, text: string, i: nat, vi: nat)
    requires i < |s| && s[i] != ESC && vi <= |text| && text[vi..] == Strip(s, i)
    ensures vi < |text| && text[vi] == s[i] && text[vi + 1..] == Strip(s, i + 1)
  {
    assert Strip(s, i) == [s[i]] + Strip(s, i + 1);
    assert text[vi] == text[vi..][0] && text[vi + 1..] == text[vi..][1..];
  }

  lemma {:induction false} SplicedIsKept(s: string, text: string, i: nat, vi: nat)
    requires i <= |s| && vi <= |text| && text[vi..] == Strip(s, i)
    ensures Spliced(text, Markers(s, i, vi), vi) == Kept(s, i)
    decreases |s| - i
  {
    hide *;
    if i == |s| {
      SplicedLast(s, text, vi);
    } else {
      KeptStep(s, i);
      MarkersStep(s, i, vi);
      var code := Switch(s, i);
      if code != "" {
        SplicedIsKept(s, text, i + |code|, vi);
        SplicedMarker(text, vi, code, Markers(s, i + |code|, vi));
      } else if s[i] == ESC {
        SplicedIsKept(s, text, EscEnd(s, i + 1), vi);
      } else {
        NextCharacter(s, text, i, vi);
        SplicedIsKept(s, text, i + 1, vi + 1);
        MarkersUp(s, i + 1, vi + 1);
        SplicedNext(text, Markers(s, i + 1, vi + 1), vi);
      }
    }
  }

  lemma {:induction false} SplicedLast(s: string, text: string, vi: nat)
    requires vi <= |text| && text[vi..] == Strip(s, |s|)
    ensures Spliced(text, Markers(s, |s|, vi), vi) == Kept(s, |s|)
  {
  }

  lemma {:induction false} NoEscape(s: string, i: nat)
    requires i <= |s| && forall k :: i <= k < |s| ==> s[k] != ESC
    ensures Kept(s, i) == s[i..]
    decreases |s| - i
  {
    if i < |s| {
      NoEscape(s, i + 1);
    }
  }

  /** The markers come in order, and after `last`. */
  predicate Rising(marks: seq<Marker>, last: nat) {
    marks == [] || (last <= marks[0].at && Rising(marks[1..], marks[0].at))
  }

  lemma {:induction false} MarkersRise(s: string, i: nat, vi: nat, last: nat)
    requires i <= |s| && last <= vi
    ensures Rising(Markers(s, i, vi), last)
    decreases |s| - i
  {
    if i < |s| {
      MarkersStep(s, i, vi);
      hide Switch, EscEnd;
      var code := Switch(s, i);
      if code != "" {
        var rest := Markers(s, i + |code|, vi);
        MarkersRise(s, i + |code|, vi, vi);
        assert ([Marker(vi, code)] + rest)[1..] == rest;
      } else if s[i] == ESC {
        MarkersRise(s, EscEnd(s, i + 1), vi, last);
      } else {
        MarkersRise(s, i + 1, vi + 1, last);
      }
    }
  }

  lemma MarkersStep(s: string, i: nat, vi: nat)
    requires i < |s|
    ensures var code := Switch(s, i);
            && (code != "" ==> Markers(s, i, vi) == [Marker(vi, code)] + Markers(s, i + |code|, vi))
            && (code == "" && s[i] == ESC ==> Markers(s, i, vi) == Markers(s, EscEnd(s, i + 1), vi))
            && (s[i] != ESC ==> code == "" && Markers(s, i, vi) == Markers(s, i + 1, vi + 1))
  {
  }

  /** Past the escape sequence at `i`. */
  method SkipOne(s: string, i: nat) returns (r: nat)
    requires i < |s|
    ensures r == EscEnd(s, i + 1)
  {
    r := i + 1;
    while r < |s| && !Terminator(s[r])
      invariant r <= |s| && EscEnd(s, r) == EscEnd(s, i + 1)
    {
      r := r + 1;
    }
    if r < |s| {
      r := r + 1;
    }
  }

  method CollectMarkers(s: string) returns (markers: seq<Marker>)
    ensures markers == Markers(s, 0, 0)
  {
    hide Markers, EscEnd, Strip, SkipEscs;
    markers := [];
    var oi: nat, vi: nat := 0, 0;
    while oi < |s|
      invariant oi <= |s| && markers + Markers(s, oi, vi) == Markers(s, 0, 0)
    {
      MarkersStep(s, oi, vi);
      if s[oi] == ESC && ReverseAt(s, oi) {
        markers := markers + [Marker(vi, REVERSE)];
        oi := oi + |REVERSE|;
        continue;
      }
      if s[oi] == ESC && NoReverseAt(s, oi) {
        markers := markers + [Marker(vi, NO_REVERSE)];
        oi := oi + |NO_REVERSE|;
        continue;
      }
      if s[oi] == ESC {
        oi := SkipOne(s, oi);
        continue;
      }
      oi := oi + 1;
      vi := vi + 1;
    }
    assert Markers(s, |s|, vi) == [] by {
      MarkersEnd(s, vi);
    }
  }

  lemma {:induction false} MarkersEnd(s: string, vi: nat)
    ensures Markers(s, |s|, vi) == []
  {
  }

  lemma {:induction false} SplicedStep(text: string, marks: seq<Marker>, k: nat, last: nat)
    requires k < |marks| && last <= |text| && Rising(marks[k..], last)
    ensures var at := if marks[k].at > |text| then |text| else marks[k].at;
            && last <= at && Rising(marks[k + 1..], at)
            && Spliced(text, marks[k..], last) == text[last..at] + marks[k].code + Spliced(text, marks[k + 1..], at)
  {
    assert marks[k..][1..] == marks[k + 1..];
  }

  /** Puts the markers back into the text. */
  method Splice(text: string, markers: seq<Marker>) returns (r: string)
    requires Rising(markers, 0)
    ensures r == Spliced(text, markers, 0)
  {
    hide Spliced, Rising;
    r := "";
    var last: nat, k := 0, 0;
    assert markers[0..] == markers;
    while k < |markers|
      invariant 0 <= k <= |markers| && last <= |text| && Rising(markers[k..], last)
      invariant r + Spliced(text, markers[k..], last) == Spliced(text, markers, 0)
    {
      SplicedStep(text, markers, k, last);
      var at := if markers[k].at > |text| then |text| else markers[k].at;
      ghost var rest := Spliced(text, markers[k + 1..], at);
      assert r + (text[last..at] + markers[k].code + rest) == (r + text[last..at] + markers[k].code) + rest;
      r := r + text[last..at];
      r := r + markers[k].code;
      last := at;
      k := k + 1;
    }
    SplicedEnd(text, markers[k..], last);
    r := r + text[last..];
  }

  lemma {:induction false} SplicedEnd(text: string, marks: seq<Marker>, last: nat)
    requires marks == [] && last <= |text|
    ensures Spliced(text, marks, last) == text[last..]
  {
  }

  /** Strips the row, then puts the switches back where they were; which is to drop every
      other escape sequence. */
  method StripStyleKeepReverse(s: string) returns (r: string)
    ensures r == Kept(s, 0)
  {
    if ESC !in s {
      NoEscape(s, 0);
      return s;
    }
    var stripped := Strip(s, 0);
    var markers := CollectMarkers(s);
    SplicedIsKept(s, stripped, 0, 0);
    if markers == [] {
      return stripped;
    }
    MarkersRise(s, 0, 0, 0);
    r := Splice(stripped, markers);
  }

  lemma {:induction false} KeptCode(s: string, i: nat, code: string, rest: string)
    requires i < |s| && code == Switch(s, i) && code != ""
    ensures Switch(code + rest, 0) == code && Strip(code + rest, 0) == Strip(rest, 0)
  {
    var t := code + rest;
    SwitchEnd(t, 0);
    StripFrom(t, |code|, 0);
    assert t[|code|..] == rest;
  }

  /** Every ESC of the text begins a reverse-video switch. */
  ghost predicate OnlySwitches(s: string) { forall i :: EscAt(s, i) ==> Switch(s, i) != "" }

  predicate EscAt(s: string, i: int) { 0 <= i < |s| && s[i] == ESC }

  lemma OnlySwitchesJoin(s: string, head: string, rest: string)
    requires s == head + rest && OnlySwitches(rest)
    requires |head| > 0 && (EscAt(head, 0) ==> Switch(s, 0) != "") && forall i :: i > 0 ==> !EscAt(head, i)
    ensures OnlySwitches(s)
  {
    hide Switch;
    forall i | EscAt(s, i) ensures Switch(s, i) != "" {
      if i >= |head| {
        assert EscAt(rest, i - |head|);
        SwitchShift(head, rest, i - |head|);
      } else {
        assert EscAt(head, i);
      }
    }
  }

  lemma SwitchShift(head: string, rest: string, j: nat)
    requires j < |rest|
    ensures Switch(head + rest, |head| + j) == Switch(rest, j)
  {
    var s, i := head + rest, |head| + j;
    assert s[i] == rest[j];
    assert j + 1 < |rest| ==> s[i + 1] == rest[j + 1];
    assert j + 2 < |rest| ==> s[i + 2] == rest[j + 2];
    assert j + 3 < |rest| ==> s[i + 3] == rest[j + 3];
    assert j + 4 < |rest| ==> s[i + 4] == rest[j + 4];
  }

  lemma KeptStep(s: string, i: nat)
    requires i < |s|
    ensures var code := Switch(s, i);
            && (code != "" ==> Kept(s, i) == code + Kept(s, i + |code|) && Strip(s, i) == Strip(s, i + |code|))
            && (code == "" && s[i] == ESC ==>
                 Kept(s, i) == Kept(s, EscEnd(s, i + 1)) && Strip(s, i) == Strip(s, EscEnd(s, i + 1)))
            && (s[i] != ESC ==> Kept(s, i) == [s[i]] + Kept(s, i + 1) && Strip(s, i) == [s[i]] + Strip(s, i + 1))
  {
    if Switch(s, i) != "" {
      SwitchEnd(s, i);
    }
  }

  lemma {:induction false} StripHead(c: char, rest: string)
    requires c != ESC
    ensures Strip([c] + rest, 0) == [c] + Strip(rest, 0)
  {
    StripFrom([c] + rest, 1, 0);
    assert ([c] + rest)[1..] == rest;
  }

  lemma SwitchShape(s: string, i: nat)
    requires i < |s| && Switch(s, i) != ""
    ensures var code := Switch(s, i); |code| > 0 && EscAt(code, 0) && forall k :: k > 0 ==> !EscAt(code, k)
  {
  }

  lemma {:induction false} KeptCodeRight(s: string, i: nat, code: string, rest: string)
    requires i < |s| && code == Switch(s, i) && code != "" && OnlySwitches(rest)
    ensures OnlySwitches(code + rest) && Strip(code + rest, 0) == Strip(rest, 0)
  {
    KeptCode(s, i, code, rest);
    SwitchShape(s, i);
    hide *;
    OnlySwitchesJoin(code + rest, code, rest);
  }

  lemma {:induction false} KeptCharRight(c: char, rest: string)
    requires c != ESC && OnlySwitches(rest)
    ensures OnlySwitches([c] + rest) && Strip([c] + rest, 0) == [c] + Strip(rest, 0)
  {
    StripHead(c, rest);
    assert forall k :: k >= 0 ==> !EscAt([c], k);
    hide *;
    OnlySwitchesJoin([c] + rest, [c], rest);
  }

  /** Main result on table rows: the characters are all there, in order, and of the escape
      sequences only the reverse-video switches. */
  lemma {:induction false} KeptRight(s: string, i: nat)
    requires i <= |s|
    ensures Strip(Kept(s, i), 0) == Strip(s, i) && OnlySwitches(Kept(s, i))
    decreases |s| - i
  {
    hide *;
    if i == |s| {
      KeptEnd(s);
    } else {
      KeptStep(s, i);
      var code := Switch(s, i);
      if code != "" {
        KeptRight(s, i + |code|);
        KeptCodeRight(s, i, code, Kept(s, i + |code|));
      } else if s[i] == ESC {
        KeptRight(s, EscEnd(s, i + 1));
      } else {
        KeptRight(s, i + 1);
        KeptCharRight(s[i], Kept(s, i + 1));
      }
    }
  }

  lemma {:induction false} KeptEnd(s: string)
    ensures Kept(s, |s|) == "" && Strip(s, |s|) == "" && Strip("", 0) == "" && OnlySwitches("")
  {
  }

  /** What follows the ESC of a sequence may switch reverse video on or off. */
  function Turned(sequence: string, on: bool): bool {
    if sequence == "[7m" then true else if sequence == "[27m" then false else on
  }

  /** The characters from `i` on, each with whether it is shown in reverse. */
  function InReverse(s: string, i: nat, on: bool): seq<(char, bool)>
    requires i <= |s|
    decreases |s| - i
  {
    if i == |s| then []
    else if s[i] == ESC then
      var end := EscEnd(s, i + 1);
      InReverse(s, end, Turned(s[i + 1..end], on))
    else [(s[i], on)] + InReverse(s, i + 1, on)
  }

  lemma {:induction false} InReverseFrom(s: string, i: nat, k: nat, on: bool)
    requires i + k <= |s|
    ensures InReverse(s[i..], k, on) == InReverse(s, i + k, on)
    decreases |s| - k
  {
    hide *;
    var t := s[i..];
    if i + k == |s| {
      NoneInReverse(t, on);
      NoneInReverse(s, on);
    } else {
      InReverseStep(t, k, on);
      InReverseStep(s, i + k, on);
      if s[i + k] == ESC {
        EscEndFrom(s, i, k + 1);
        var end := EscEnd(t, k + 1);
        assert t[k + 1..end] == s[i + k + 1..i + end];
        InReverseFrom(s, i, end, Turned(t[k + 1..end], on));
      } else {
        InReverseFrom(s, i, k + 1, on);
      }
    }
  }

  lemma {:induction false} NoneInReverse(s: string, on: bool)
    ensures InReverse(s, |s|, on) == []
  {
  }

  lemma {:induction false} InReverseStep(s: string, i: nat, on: bool)
    requires i < |s|
    ensures s[i] != ESC ==> InReverse(s, i, on) == [(s[i], on)] + InReverse(s, i + 1, on)
    ensures s[i] == ESC ==>
              var end := EscEnd(s, i + 1);
              InReverse(s, i, on) == InReverse(s, end, Turned(s[i + 1..end], on))
  {
  }

  /** What one switch, or another escape sequence, does. */
  lemma {:induction false} SwitchTurns(s: string, i: nat, on: bool)
    requires i < |s| && s[i] == ESC
    ensures var code, end := Switch(s, i), EscEnd(s, i + 1);
            && (code != "" ==> end == i + |code|)
            && InReverse(s, i, on) ==
               InReverse(s, end, if code == REVERSE then true else if code == NO_REVERSE then false else on)
  {
    var rest := s[i + 1..EscEnd(s, i + 1)];
    if Switch(s, i) != "" {
      SwitchEnd(s, i);
      var code := Switch(s, i);
      assert code == REVERSE ==> rest == "[7m";
      assert code == NO_REVERSE ==> rest == "[27m";
      assert |REVERSE| == 4 && |NO_REVERSE| == 5;
    } else {
      assert |rest| == 3 ==> i + 4 <= |s| && rest[0] == s[i + 1] && rest[1] == s[i + 2] && rest[2] == s[i + 3];
      assert |rest| == 4 ==> i + 5 <= |s| && rest[0] == s[i + 1] && rest[1] == s[i + 2] && rest[2] == s[i + 3] &&
                             rest[3] == s[i + 4];
    }
  }

  lemma {:induction false} KeptTurns(s: string, i: nat, code: string, rest: string, on: bool)
    requires i < |s| && code == Switch(s, i) && code != ""
    ensures InReverse(code + rest, 0, on) == InReverse(rest, 0, code == REVERSE)
  {
    var t := code + rest;
    KeptCode(s, i, code, rest);
    SwitchTurns(t, 0, on);
    InReverseFrom(t, |code|, 0, code == REVERSE);
    assert t[|code|..] == rest;
  }

  lemma {:induction false} KeptCharShows(c: char, rest: string, on: bool)
    requires c != ESC
    ensures InReverse([c] + rest, 0, on) == [(c, on)] + InReverse(rest, 0, on)
  {
    InReverseFrom([c] + rest, 1, 0, on);
    assert ([c] + rest)[1..] == rest;
  }

  /** Main result on reverse video: every character is shown in reverse, or not, as it was. */
  lemma {:induction false} ReverseKept(s: string, i: nat, on: bool)
    requires i <= |s|
    ensures InReverse(Kept(s, i), 0, on) == InReverse(s, i, on)
    decreases |s| - i
  {
    hide *;
    if i == |s| {
      NothingShown(s, on);
    } else {
      KeptStep(s, i);
      SwitchIs(s, i);
      var code := Switch(s, i);
      if s[i] == ESC {
        SwitchTurns(s, i, on);
      }
      if code != "" {
        ReverseKept(s, i + |code|, code == REVERSE);
        KeptTurns(s, i, code, Kept(s, i + |code|), on);
      } else if s[i] == ESC {
        ReverseKept(s, EscEnd(s, i + 1), on);
      } else {
        ReverseKept(s, i + 1, on);
        KeptCharShows(s[i], Kept(s, i + 1), on);
        CharShown(s, i, on);
      }
    }
  }

  lemma {:induction false} NothingShown(s: string, on: bool)
    ensures Kept(s, |s|) == "" && InReverse(s, |s|, on) == [] && InReverse("", 0, on) == []
  {
  }

  lemma {:induction false} CharShown(s: string, i: nat, on: bool)
    requires i < |s| && s[i] != ESC
    ensures InReverse(s, i, on) == [(s[i], on)] + InReverse(s, i + 1, on)
  {
  }

  lemma {:induction false} SwitchIs(s: string, i: nat)
    requires i < |s|
    ensures Switch(s, i) in {"", REVERSE, NO_REVERSE} && REVERSE != NO_REVERSE && REVERSE != "" && NO_REVERSE != ""
    ensures Switch(s, i) != "" ==> s[i] == ESC
  {
  }
}
