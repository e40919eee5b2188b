/**
  injectHighlights (internal/ui/ansisplit.go): one pass that recolours the columns of
  search matches inside a decorated line and restores the line's own styling after each
  match.

  Inject is the output as a function. InjectPaints gives its meaning on every input:
  the cells of the line, each recoloured by the range that Paint assigns to it. Paint is
  the pass itself seen from outside; Covered is what a reader expects, the range whose
  columns hold the start of the cell. PaintsCovered says exactly when the two agree.
 */
module Highlight {
  import opened Ansi
  import opened Windows

  /** Display columns [start, end) of one match. */
  datatype Range = Range(start: int, end: int)

  /** The colours: `hi` for a match, `sel` for the selected one. */
  datatype Colors = Colors(hi: Style, sel: Style, selected: int) {
    function Of(m: int): Style { if m == selected then sel else hi }
  }

  // ---- the pass as a function ----

  function InjectFrom(
      ts: seq<Token>, rs: seq<Range>, c: Colors, m: nat, inMatch: bool, col: int, sgr: Style): seq<Token>
    requires m <= |rs| && (inMatch ==> m < |rs|)
    decreases |ts|, 3
  {
    if ts == [] then
      if inMatch then [Reset] else []
    else match ts[0]
      case Other(_) => [ts[0]] + InjectFrom(ts[1..], rs, c, m, inMatch, col, sgr)
      case Cell(_, _) =>
        if !inMatch && m < |rs| && col >= rs[m].start then
          ([Reset] + Replay(c.Of(m))) + Written(ts, rs, c, m, true, col, sgr)
        else
          Written(ts, rs, c, m, inMatch, col, sgr)
      case _ =>
        (if inMatch then [] else [ts[0]]) + InjectFrom(ts[1..], rs, c, m, inMatch, col, StyleStep(sgr, ts[0]))
  }

  /** The cell itself, and the end of the match if it is reached. */
  function Written(ts: seq<Token>, rs: seq<Range>, c: Colors, m: nat, inMatch: bool, col: int, sgr: Style): seq<Token>
    requires ts != [] && ts[0].Cell?
    requires m <= |rs| && (inMatch ==> m < |rs|)
    decreases |ts|, 2
  {
    var col' := col + ts[0].w;
    [ts[0]] +
    if inMatch && col' >= rs[m].end then
      ([Reset] + Replay(sgr)) + Reopened(ts[1..], rs, c, m + 1, col', sgr)
    else
      InjectFrom(ts[1..], rs, c, m, inMatch, col', sgr)
  }

  /** An adjacent match opens at once. */
  function Reopened(ts: seq<Token>, rs: seq<Range>, c: Colors, m: nat, col: int, sgr: Style): seq<Token>
    requires m <= |rs|
    decreases |ts|, 4
  {
    if m < |rs| && col >= rs[m].start then
      ([Reset] + Replay(c.Of(m))) + InjectFrom(ts, rs, c, m, true, col, sgr)
    else
      InjectFrom(ts, rs, c, m, false, col, sgr)
  }

  function Inject(line: seq<Token>, rs: seq<Range>, c: Colors): seq<Token> {
    if rs == [] then line else InjectFrom(line, rs, c, 0, false, 0, [])
  }

  method InjectHighlights(line: seq<Token>, rs: seq<Range>, c: Colors) returns (out: seq<Token>)
    ensures out == Inject(line, rs, c)
  {
    if rs == [] {
      return line;
    }
    ghost var all := Inject(line, rs, c);
    assert all == [] + InjectFrom(line, rs, c, 0, false, 0, []);
    hide *;
    out := [];
    var sgrBuf: Style := [];
    var matchIdx, inMatch, col := 0, false, 0;
    var b := line;
    while b != []
      invariant 0 <= matchIdx <= |rs| && (inMatch ==> matchIdx < |rs|)
      invariant all == out + InjectFrom(b, rs, c, matchIdx, inMatch, col, sgrBuf)
    {
      var t, tail := b[0], b[1..];
      var piece: seq<Token> := [];
      ghost var before := InjectFrom(b, rs, c, matchIdx, inMatch, col, sgrBuf);
      if !t.Cell? {
        InjectStep(b, rs, c, matchIdx, inMatch, col, sgrBuf);
        if t.Reset? {
          sgrBuf := [];
        } else if t.Sgr? {
          sgrBuf := sgrBuf + [t.code];
        }
        if t.Other? || !inMatch {
          piece := [t];
        }
      } else {
        piece, matchIdx, inMatch, col := InjectCell(b, rs, c, matchIdx, inMatch, col, sgrBuf);
      }
      Assoc(out, piece, InjectFrom(tail, rs, c, matchIdx, inMatch, col, sgrBuf));
      out := out + piece;
      b := tail;
    }
    InjectEnd(rs, c, matchIdx, inMatch, col, sgrBuf);
    if inMatch {
      out := out + [Reset];
    } else {
      assert out + [] == out;
    }
  }

  /** The output for one cell: a match may open before it, end after it, and the next one
      open at once. */
  method InjectCell(b: seq<Token>, rs: seq<Range>, c: Colors, m: nat, wasIn: bool, col: int, sgr: Style)
    returns (piece: seq<Token>, matchIdx: nat, inMatch: bool, col': int)
    requires b != [] && b[0].Cell? && m <= |rs| && (wasIn ==> m < |rs|)
    ensures matchIdx <= |rs| && (inMatch ==> matchIdx < |rs|)
    ensures InjectFrom(b, rs, c, m, wasIn, col, sgr) == piece + InjectFrom(b[1..], rs, c, matchIdx, inMatch, col', sgr)
  {
    hide *;
    var t, tail := b[0], b[1..];
    InjectStep(b, rs, c, m, wasIn, col, sgr);
    matchIdx, inMatch, piece := m, wasIn, [];
    if !inMatch && matchIdx < |rs| && col >= rs[matchIdx].start {
      piece := [Reset] + Replay(c.Of(matchIdx));
      inMatch := true;
    }
    ghost var intro := piece;
    assert [] + Written(b, rs, c, matchIdx, inMatch, col, sgr) == Written(b, rs, c, matchIdx, inMatch, col, sgr);
    WrittenStep(b, rs, c, matchIdx, inMatch, col, sgr);
    piece := piece + [t];
    col' := col + t.w;
    if inMatch && col' >= rs[matchIdx].end {
      var restored := [Reset] + Replay(sgr);
      inMatch := false;
      matchIdx := matchIdx + 1;
      ReopenedStep(tail, rs, c, matchIdx, col', sgr);
      ghost var next := Reopened(tail, rs, c, matchIdx, col', sgr);
      Pieces(intro, [t], restored, next);
      piece := piece + restored;
      if matchIdx < |rs| && col' >= rs[matchIdx].start {
        Assoc(piece, [Reset] + Replay(c.Of(matchIdx)), InjectFrom(tail, rs, c, matchIdx, true, col', sgr));
        piece := piece + ([Reset] + Replay(c.Of(matchIdx)));
        inMatch := true;
      }
    } else {
      Assoc(intro, [t], InjectFrom(tail, rs, c, matchIdx, inMatch, col', sgr));
    }
  }

  lemma Pieces(a: seq<Token>, b: seq<Token>, c: seq<Token>, d: seq<Token>)
    ensures a + (b + (c + d)) == (a + b + c) + d
  {
  }

  // ---- the loop follows InjectFrom ----

  lemma InjectStep(ts: seq<Token>, rs: seq<Range>, c: Colors, m: nat, inMatch: bool, col: int, sgr: Style)
    requires ts != [] && m <= |rs| && (inMatch ==> m < |rs|)
    ensures !ts[0].Cell? ==>
              var sgr' := if ts[0].Reset? then [] else if ts[0].Sgr? then sgr + [ts[0].code] else sgr;
              InjectFrom(ts, rs, c, m, inMatch, col, sgr) ==
              (if ts[0].Other? || !inMatch then [ts[0]] else []) + InjectFrom(ts[1..], rs, c, m, inMatch, col, sgr')
    ensures ts[0].Cell? ==>
              InjectFrom(ts, rs, c, m, inMatch, col, sgr) ==
              if !inMatch && m < |rs| && col >= rs[m].start then
                ([Reset] + Replay(c.Of(m))) + Written(ts, rs, c, m, true, col, sgr)
              else
                Written(ts, rs, c, m, inMatch, col, sgr)
  {
  }

  lemma {:induction false} WrittenStep(
      ts: seq<Token>, rs: seq<Range>, c: Colors, m: nat, inMatch: bool, col: int, sgr: Style)
    requires ts != [] && ts[0].Cell? && m <= |rs| && (inMatch ==> m < |rs|)
    ensures Written(ts, rs, c, m, inMatch, col, sgr) ==
            [ts[0]] +
            if inMatch && col + ts[0].w >= rs[m].end then
              ([Reset] + Replay(sgr)) + Reopened(ts[1..], rs, c, m + 1, col + ts[0].w, sgr)
            else
              InjectFrom(ts[1..], rs, c, m, inMatch, col + ts[0].w, sgr)
  {
  }

  lemma {:induction false} ReopenedStep(ts: seq<Token>, rs: seq<Range>, c: Colors, m: nat, col: int, sgr: Style)
    requires m <= |rs|
    ensures Reopened(ts, rs, c, m, col, sgr) ==
            if m < |rs| && col >= rs[m].start then
              ([Reset] + Replay(c.Of(m))) + InjectFrom(ts, rs, c, m, true, col, sgr)
            else
              InjectFrom(ts, rs, c, m, false, col, sgr)
  {
  }

  lemma {:induction false} InjectEnd(rs: seq<Range>, c: Colors, m: nat, inMatch: bool, col: int, sgr: Style)
    requires m <= |rs| && (inMatch ==> m < |rs|)
    ensures InjectFrom([], rs, c, m, inMatch, col, sgr) == if inMatch then [Reset] else []
  {
  }

  // ---- what the output shows ----

  /** The range that recolours each cell, -1 for none: the pass over the cells alone. */
  function Paint(gs: seq<Glyph>, rs: seq<Range>, m: nat, inMatch: bool, col: int): (os: seq<int>)
    requires m <= |rs| && (inMatch ==> m < |rs|)
    ensures |os| == |gs|
  {
    if gs == [] then []
    else
      var inside := inMatch || (m < |rs| && col >= rs[m].start);
      var col' := col + gs[0].w;
      if inside && col' >= rs[m].end then
        [m] + Paint(gs[1..], rs, m + 1, m + 1 < |rs| && col' >= rs[m + 1].start, col')
      else
        [if inside then m else -1] + Paint(gs[1..], rs, m, inside, col')
  }

  function Recolored(gs: seq<Glyph>, owners: seq<int>, c: Colors): (r: seq<Glyph>)
    requires |gs| == |owners|
    ensures |r| == |gs|
    ensures forall i :: 0 <= i < |gs| ==> r[i].text == gs[i].text && r[i].w == gs[i].w
    ensures forall i :: 0 <= i < |gs| ==> r[i].style == if owners[i] == -1 then gs[i].style else c.Of(owners[i])
  {
    if gs == [] then []
    else
      [Glyph(gs[0].text, gs[0].w, if owners[0] == -1 then gs[0].style else c.Of(owners[0]))]
      + Recolored(gs[1..], owners[1..], c)
  }

  lemma {:induction false} RecoloredCons(g: Glyph, gs: seq<Glyph>, o: int, owners: seq<int>, c: Colors)
    requires |gs| == |owners|
    ensures Recolored([g] + gs, [o] + owners, c) ==
            [Glyph(g.text, g.w, if o == -1 then g.style else c.Of(o))] + Recolored(gs, owners, c)
  {
    assert ([g] + gs)[1..] == gs && ([o] + owners)[1..] == owners;
  }

  /** Resetting and replaying a style, whatever came before. */
  lemma {:induction false} Restyled(codes: Style, next: seq<Token>, st: Style)
    ensures Shown(([Reset] + Replay(codes)) + next, st) == Shown(next, codes)
    ensures Controls(([Reset] + Replay(codes)) + next) == Controls(next)
  {
    hide *;
    var r := Replay(codes);
    ReplayStyle(codes, []);
    ReplayControls(codes);
    assert [] + codes == codes;
    ShownAppend(r, next, []);
    ControlsAppend(r, next);
    assert ([Reset] + r) + next == [Reset] + (r + next);
    ShownCons(Reset, r + next, st);
    AfterReset(st);
    assert [] + Shown(next, codes) == Shown(next, codes);
    assert [] + Controls(next) == Controls(next);
  }

  lemma AfterReset(st: Style)
    ensures StyleStep(st, Reset) == []
  {
  }

  lemma {:induction false} ShownCons(t: Token, next: seq<Token>, st: Style)
    ensures Shown([t] + next, st) ==
            (if t.Cell? then [Glyph(t.text, t.w, st)] else []) + Shown(next, StyleStep(st, t))
    ensures Controls([t] + next) == (if t.Other? then [t.id] else []) + Controls(next)
    ensures t.Cell? ==> StyleStep(st, t) == st
  {
    assert ([t] + next)[1..] == next;
  }

  /** The glyphs the pass is expected to leave for the rest of the line. */
  function Expected(ts: seq<Token>, rs: seq<Range>, c: Colors, m: nat, inMatch: bool, col: int, sgr: Style): seq<Glyph>
    requires m <= |rs| && (inMatch ==> m < |rs|)
  {
    Recolored(Shown(ts, sgr), Paint(Shown(ts, sgr), rs, m, inMatch, col), c)
  }

  lemma {:induction false} PaintCons(g: Glyph, gs: seq<Glyph>, rs: seq<Range>, m: nat, inMatch: bool, col: int)
    requires m <= |rs| && (inMatch ==> m < |rs|)
    ensures var inside := inMatch || (m < |rs| && col >= rs[m].start);
            var col' := col + g.w;
            Paint([g] + gs, rs, m, inMatch, col) ==
            if inside && col' >= rs[m].end then
              [m] + Paint(gs, rs, m + 1, m + 1 < |rs| && col' >= rs[m + 1].start, col')
            else
              [if inside then m else -1] + Paint(gs, rs, m, inside, col')
  {
    assert ([g] + gs)[1..] == gs;
  }

  lemma ExpectedCell(ts: seq<Token>, rs: seq<Range>, c: Colors, m: nat, inMatch: bool, col: int, sgr: Style)
    requires ts != [] && ts[0].Cell? && m <= |rs| && (inMatch ==> m < |rs|)
    ensures var inside := inMatch || (m < |rs| && col >= rs[m].start);
            var col' := col + ts[0].w;
            Expected(ts, rs, c, m, inMatch, col, sgr) ==
            [Glyph(ts[0].text, ts[0].w, if inside then c.Of(m) else sgr)] +
            if inside && col' >= rs[m].end then
              Expected(ts[1..], rs, c, m + 1, m + 1 < |rs| && col' >= rs[m + 1].start, col', sgr)
            else
              Expected(ts[1..], rs, c, m, inside, col', sgr)
  {
    hide Paint, Recolored, Shown;
    ShownCons(ts[0], ts[1..], sgr);
    assert ts == [ts[0]] + ts[1..];
    RecoloredPaint(Glyph(ts[0].text, ts[0].w, sgr), Shown(ts[1..], sgr), rs, c, m, inMatch, col);
  }

  lemma {:induction false} RecoloredPaint(
      g: Glyph, gs: seq<Glyph>, rs: seq<Range>, c: Colors, m: nat, inMatch: bool, col: int)
    requires m <= |rs| && (inMatch ==> m < |rs|)
    ensures var inside := inMatch || (m < |rs| && col >= rs[m].start);
            var col' := col + g.w;
            Recolored([g] + gs, Paint([g] + gs, rs, m, inMatch, col), c) ==
            [Glyph(g.text, g.w, if inside then c.Of(m) else g.style)] +
            if inside && col' >= rs[m].end then
              Recolored(gs, Paint(gs, rs, m + 1, m + 1 < |rs| && col' >= rs[m + 1].start, col'), c)
            else
              Recolored(gs, Paint(gs, rs, m, inside, col'), c)
  {
    hide Paint, Recolored;
    var inside := inMatch || (m < |rs| && col >= rs[m].start);
    var col' := col + g.w;
    PaintCons(g, gs, rs, m, inMatch, col);
    if inside && col' >= rs[m].end {
      RecoloredCons(g, gs, m, Paint(gs, rs, m + 1, m + 1 < |rs| && col' >= rs[m + 1].start, col'), c);
    } else {
      RecoloredCons(g, gs, if inside then m else -1, Paint(gs, rs, m, inside, col'), c);
    }
  }

  lemma {:induction false} PaintsFrom(
      ts: seq<Token>, rs: seq<Range>, c: Colors, m: nat, inMatch: bool, col: int, sgr: Style)
    requires m <= |rs| && (inMatch ==> m < |rs|)
    ensures Shown(InjectFrom(ts, rs, c, m, inMatch, col, sgr), if inMatch then c.Of(m) else sgr) ==
            Expected(ts, rs, c, m, inMatch, col, sgr)
    decreases |ts|, 3
  {
    if ts != [] {
      var cur := if inMatch then c.Of(m) else sgr;
      InjectStep(ts, rs, c, m, inMatch, col, sgr);
      if ts[0].Cell? {
        if !inMatch && m < |rs| && col >= rs[m].start {
          Restyled(c.Of(m), Written(ts, rs, c, m, true, col, sgr), cur);
          PaintsWritten(ts, rs, c, m, true, col, sgr);
          ExpectedCell(ts, rs, c, m, true, col, sgr);
          ExpectedCell(ts, rs, c, m, false, col, sgr);
        } else {
          PaintsWritten(ts, rs, c, m, inMatch, col, sgr);
        }
      } else {
        PaintsControl(ts, rs, c, m, inMatch, col, sgr);
      }
    }
  }

  lemma {:induction false} PaintsControl(
      ts: seq<Token>, rs: seq<Range>, c: Colors, m: nat, inMatch: bool, col: int, sgr: Style)
    requires ts != [] && !ts[0].Cell? && m <= |rs| && (inMatch ==> m < |rs|)
    ensures Shown(InjectFrom(ts, rs, c, m, inMatch, col, sgr), if inMatch then c.Of(m) else sgr) ==
            Expected(ts, rs, c, m, inMatch, col, sgr)
    decreases |ts|, 2
  {
    var cur := if inMatch then c.Of(m) else sgr;
    var sgr' := StyleStep(sgr, ts[0]);
    var next := InjectFrom(ts[1..], rs, c, m, inMatch, col, sgr');
    InjectStep(ts, rs, c, m, inMatch, col, sgr);
    PaintsFrom(ts[1..], rs, c, m, inMatch, col, sgr');
    ShownCons(ts[0], next, cur);
    assert [] + next == next;
    assert Shown(ts, sgr) == Shown(ts[1..], sgr');
  }

  lemma {:induction false} PaintsWritten(
      ts: seq<Token>, rs: seq<Range>, c: Colors, m: nat, inMatch: bool, col: int, sgr: Style)
    requires ts != [] && ts[0].Cell? && m <= |rs| && (inMatch ==> m < |rs|)
    requires inMatch || m == |rs| || col < rs[m].start
    ensures Shown(Written(ts, rs, c, m, inMatch, col, sgr), if inMatch then c.Of(m) else sgr) ==
            Expected(ts, rs, c, m, inMatch, col, sgr)
    decreases |ts|, 1
  {
    hide *;
    var cur := if inMatch then c.Of(m) else sgr;
    var col' := col + ts[0].w;
    WrittenStep(ts, rs, c, m, inMatch, col, sgr);
    ExpectedCell(ts, rs, c, m, inMatch, col, sgr);
    if inMatch && col' >= rs[m].end {
      var re := Reopened(ts[1..], rs, c, m + 1, col', sgr);
      ShownCons(ts[0], ([Reset] + Replay(sgr)) + re, cur);
      Restyled(sgr, re, cur);
      ReopenedStep(ts[1..], rs, c, m + 1, col', sgr);
      var opens := m + 1 < |rs| && col' >= rs[m + 1].start;
      PaintsFrom(ts[1..], rs, c, m + 1, opens, col', sgr);
      if opens {
        Restyled(c.Of(m + 1), InjectFrom(ts[1..], rs, c, m + 1, true, col', sgr), sgr);
      }
    } else {
      ShownCons(ts[0], InjectFrom(ts[1..], rs, c, m, inMatch, col', sgr), cur);
      PaintsFrom(ts[1..], rs, c, m, inMatch, col', sgr);
    }
  }

  lemma {:induction false} NothingRecolored(col: int, c: Colors)
    ensures Recolored([], Paint([], [], 0, false, col), c) == []
  {
  }

  lemma {:induction false} Unpainted(gs: seq<Glyph>, col: int, c: Colors)
    ensures Recolored(gs, Paint(gs, [], 0, false, col), c) == gs
  {
    hide *;
    if gs == [] {
      NothingRecolored(col, c);
    } else {
      var g, rest := gs[0], gs[1..];
      Unpainted(rest, col + g.w, c);
      assert gs == [g] + rest;
      RecoloredPaint(g, rest, [], c, 0, false, col);
    }
  }

  /** The meaning of the pass, on every line and every list of ranges: each cell stays
      in place with its text and width, in the colour of the range painted over it or
      else in its own style. */
  lemma {:induction false} InjectPaints(line: seq<Token>, rs: seq<Range>, c: Colors)
    ensures Shown(Inject(line, rs, c), []) ==
            Recolored(Shown(line, []), Paint(Shown(line, []), rs, 0, false, 0), c)
  {
    if rs == [] {
      Unpainted(Shown(line, []), 0, c);
    } else {
      PaintsFrom(line, rs, c, 0, false, 0, []);
    }
  }

  lemma {:induction false} SameWidths(a: seq<Glyph>, b: seq<Glyph>)
    requires |a| == |b| && forall i :: 0 <= i < |a| ==> a[i].w == b[i].w
    ensures GlyphWidth(a) == GlyphWidth(b)
  {
    if a != [] {
      SameWidths(a[1..], b[1..]);
    }
  }

  /** Highlighting never changes how wide a line is. */
  lemma {:induction false} InjectKeepsWidth(line: seq<Token>, rs: seq<Range>, c: Colors)
    ensures Width(Inject(line, rs, c)) == Width(line)
  {
    InjectPaints(line, rs, c);
    ShownWidth(line, []);
    ShownWidth(Inject(line, rs, c), []);
    SameWidths(Shown(line, []), Shown(Inject(line, rs, c), []));
  }

  // ---- which cells should be coloured ----

  predicate Within(r: Range, col: int) { r.start <= col < r.end }

  /** The first range at or after `k` that holds column `col`, or -1. */
  function OwnerFrom(rs: seq<Range>, k: nat, col: int): int
    requires k <= |rs|
    decreases |rs| - k
  {
    if k == |rs| then -1 else if Within(rs[k], col) then k else OwnerFrom(rs, k + 1, col)
  }

  /** For each cell, the range its first column lies in. */
  function Covered(gs: seq<Glyph>, rs: seq<Range>, col: int): (os: seq<int>)
    ensures |os| == |gs|
  {
    if gs == [] then [] else [OwnerFrom(rs, 0, col)] + Covered(gs[1..], rs, col + gs[0].w)
  }

  /** What the function asks of its callers: ranges sorted and not overlapping. */
  predicate Sorted(rs: seq<Range>) {
    && (forall i :: 0 <= i < |rs| ==> rs[i].start <= rs[i].end)
    && (forall i, j :: 0 <= i < j < |rs| ==> rs[i].end <= rs[j].start)
  }

  /** Some cell starts inside the range. */
  predicate Starts(gs: seq<Glyph>, col: int, r: Range) {
    gs != [] && (Within(r, col) || Starts(gs[1..], col + gs[0].w, r))
  }

  /** Every cell starts before the range. */
  predicate Before(gs: seq<Glyph>, col: int, r: Range) {
    gs == [] || (col < r.start && Before(gs[1..], col + gs[0].w, r))
  }

  /** A range that holds the start of a cell, or lies past the last one. */
  predicate Anchored(gs: seq<Glyph>, col: int, r: Range) {
    Starts(gs, col, r) || Before(gs, col, r)
  }

  lemma {:induction false} OwnerUnique(rs: seq<Range>, k: nat, col: int, m: nat)
    requires k <= m < |rs| && Within(rs[m], col)
    requires forall i :: k <= i < m ==> !Within(rs[i], col)
    ensures OwnerFrom(rs, k, col) == m
    decreases m - k
  {
    if k < m {
      OwnerUnique(rs, k + 1, col, m);
    }
  }

  lemma {:induction false} OwnerNone(rs: seq<Range>, k: nat, col: int)
    requires k <= |rs| && forall i :: k <= i < |rs| ==> !Within(rs[i], col)
    ensures OwnerFrom(rs, k, col) == -1
    decreases |rs| - k
  {
    if k < |rs| {
      OwnerNone(rs, k + 1, col);
    }
  }

  lemma {:induction false} OwnerSound(rs: seq<Range>, k: nat, col: int)
    requires k <= |rs|
    ensures OwnerFrom(rs, k, col) == -1 || (k <= OwnerFrom(rs, k, col) < |rs| && Within(rs[OwnerFrom(rs, k, col)], col))
    decreases |rs| - k
  {
    if k < |rs| {
      OwnerSound(rs, k + 1, col);
    }
  }

  lemma {:induction false} NoStartPast(gs: seq<Glyph>, col: int, r: Range)
    requires r.end <= col
    ensures !Starts(gs, col, r)
  {
    if gs != [] {
      NoStartPast(gs[1..], col + gs[0].w, r);
    }
  }

  lemma {:induction false} PaintedFrom(gs: seq<Glyph>, rs: seq<Range>, m: nat, inMatch: bool, col: int)
    requires Sorted(rs) && m <= |rs|
    requires inMatch ==> m < |rs| && rs[m].start <= col
    requires forall k :: 0 <= k < m ==> rs[k].end <= col
    ensures Paint(gs, rs, m, inMatch, col) == Covered(gs, rs, col) <==>
            forall k :: m <= k < |rs| ==> Anchored(gs, col, rs[k])
  {
    if gs != [] {
      var tail, col' := gs[1..], col + gs[0].w;
      if m < |rs| && col >= rs[m].start {
        if col < rs[m].end {
          OwnerUnique(rs, 0, col, m);
          var m' := if col' >= rs[m].end then m + 1 else m;
          var in' := if col' >= rs[m].end then m' < |rs| && col' >= rs[m'].start else true;
          PaintedFrom(tail, rs, m', in', col');
          assert Paint(gs, rs, m, inMatch, col) == [m] + Paint(tail, rs, m', in', col');
          HeadsAgree(m, Paint(tail, rs, m', in', col'), Covered(tail, rs, col'));
          assert forall k :: m < k < |rs| ==> col < rs[k].start;
          assert Anchored(gs, col, rs[m]);
          assert m' == m ==> Anchored(tail, col', rs[m]);
        } else {
          OwnerSound(rs, 0, col);
          NoStartPast(gs, col, rs[m]);
          assert Paint(gs, rs, m, inMatch, col)[0] == m != Covered(gs, rs, col)[0];
          assert !Anchored(gs, col, rs[m]);
        }
      } else {
        OwnerNone(rs, 0, col);
        PaintedFrom(tail, rs, m, false, col');
        HeadsAgree(-1, Paint(tail, rs, m, false, col'), Covered(tail, rs, col'));
        assert forall k :: m <= k < |rs| ==> col < rs[k].start;
      }
    }
  }

  lemma HeadsAgree(o: int, a: seq<int>, b: seq<int>)
    ensures [o] + a == [o] + b <==> a == b
  {
    if [o] + a == [o] + b {
      assert a == ([o] + a)[1..] == ([o] + b)[1..] == b;
    }
  }

  /** Main result: for sorted, disjoint ranges the pass colours each cell by the range
      its first column lies in if and only if every range holds the start of some cell
      or lies past the last cell. A range that holds none is a match inside the second
      column of a wide cell, or an empty match. */
  lemma {:induction false} PaintsCovered(line: seq<Token>, rs: seq<Range>)
    requires Sorted(rs)
    ensures Paint(Shown(line, []), rs, 0, false, 0) == Covered(Shown(line, []), rs, 0) <==>
            forall k :: 0 <= k < |rs| ==> Anchored(Shown(line, []), 0, rs[k])
  {
    PaintedFrom(Shown(line, []), rs, 0, false, 0);
  }

  /** `x` is where a cell of the line starts, or where the line ends. */
  predicate Boundary(gs: seq<Glyph>, col: int, x: int) {
    x == col || (gs != [] && Boundary(gs[1..], col + gs[0].w, x))
  }

  lemma {:induction false} BoundaryAnchors(gs: seq<Glyph>, col: int, r: Range)
    requires Boundary(gs, col, r.start) && r.start < r.end
    ensures Anchored(gs, col, r)
  {
    if gs != [] && r.start != col {
      BoundaryAnchors(gs[1..], col + gs[0].w, r);
      BoundaryAhead(gs[1..], col + gs[0].w, r.start);
    }
  }

  lemma {:induction false} BoundaryAhead(gs: seq<Glyph>, col: int, x: int)
    requires Boundary(gs, col, x)
    ensures col <= x
  {
    if x != col {
      BoundaryAhead(gs[1..], col + gs[0].w, x);
    }
  }

  /** Main result on highlighting: for sorted, disjoint, non-empty ranges that begin on cell
      boundaries, the line keeps its cells; those inside a range have its colour, the
      selected one its own; and all the others keep the style they had. */
  lemma {:induction false} InjectColorsMatches(line: seq<Token>, rs: seq<Range>, c: Colors)
    requires Sorted(rs)
    requires forall k :: 0 <= k < |rs| ==> rs[k].start < rs[k].end && Boundary(Shown(line, []), 0, rs[k].start)
    ensures Shown(Inject(line, rs, c), []) == Recolored(Shown(line, []), Covered(Shown(line, []), rs, 0), c)
  {
    InjectPaints(line, rs, c);
    forall k | 0 <= k < |rs| ensures Anchored(Shown(line, []), 0, rs[k]) {
      BoundaryAnchors(Shown(line, []), 0, rs[k]);
    }
    PaintsCovered(line, rs);
  }

  /** An empty match, which a pattern such as `x*` yields, colours the cell after it. */
  lemma EmptyMatchColorsACell(c: Colors)
    ensures var line := [Cell("a", 1), Cell("b", 1)];
            && Covered(Shown(line, []), [Range(0, 0)], 0) == [-1, -1]
            && Shown(Inject(line, [Range(0, 0)], c), []) == [Glyph("a", 1, c.Of(0)), Glyph("b", 1, [])]
  {
    var line := [Cell("a", 1), Cell("b", 1)];
    var rs := [Range(0, 0)];
    var gs := [Glyph("a", 1, []), Glyph("b", 1, [])];
    assert line[1..] == [Cell("b", 1)] && gs[1..] == [gs[1]];
    assert Shown(line[1..], []) == [gs[1]];
    assert Shown(line, []) == gs;
    assert Paint([gs[1]], rs, 1, false, 1) == [-1];
    assert Paint(gs, rs, 0, false, 0) == [0, -1];
    InjectPaints(line, rs, c);
    assert Covered([gs[1]], rs, 1) == [-1];
  }
}
