/**
  splitWrappedVisible (internal/ui/ansisplit.go): one pass over a decorated line that
  returns only the wrapped rows in a window.

  Rows is the whole split. The method is proved to return exactly a window of Rows, and
  Rows is proved to keep every cell with its style, to make every row self-contained,
  and to break lines greedily. GreedyUnique shows that the break points are thereby
  fixed.
 */
module Split {
  import opened Ansi
  import opened Windows

  /** One wrapped row and its display width. */
  datatype Row = Row(text: seq<Token>, width: nat)

  function Close(seg: seq<Token>, sgr: Style, col: nat): Row {
    Row(if sgr == [] then seg else seg + [Reset], col)
  }

  /** The rows still to come when `seg`, holding `col` columns, is being filled. */
  function Greedy(ts: seq<Token>, limit: Pos, cont: Pos, col: nat, sgr: Style, seg: seq<Token>): seq<Row>
    decreases |ts|, col
  {
    if ts == [] then
      if col > 0 then [Close(seg, sgr, col)] else []
    else if !ts[0].Cell? then
      Greedy(ts[1..], limit, cont, col, StyleStep(sgr, ts[0]), seg + [ts[0]])
    else
      var w := ts[0].w;
      if col > 0 && col + w > limit then
        [Close(seg, sgr, col)] + Greedy(ts, cont, cont, 0, sgr, Replay(sgr))
      else if col + w >= limit then
        [Close(seg + [ts[0]], sgr, col + w)] + Greedy(ts[1..], cont, cont, 0, sgr, Replay(sgr))
      else
        Greedy(ts[1..], limit, cont, col + w, sgr, seg + [ts[0]])
  }

  /** The complete split of a line. */
  function Rows(line: seq<Token>, vpWidth: int, contWidth: int): seq<Row> {
    if vpWidth <= 0 then []
    else Greedy(line, vpWidth, Max(1, contWidth), 0, [], [])
  }

  method SplitWrappedVisible(line: seq<Token>, vpWidth: int, contWidth: int, startRow: int, numRows: int)
    returns (rows: seq<Row>)
    ensures rows == Window(Rows(line, vpWidth, contWidth), startRow, numRows)
  {
    hide *;
    TrackStart(line, vpWidth, contWidth, startRow, numRows);
    rows := [];
    if line == [] || numRows <= 0 || vpWidth <= 0 {
      return;
    }
    var cont := if contWidth <= 0 then 1 else contWidth;
    var endRow := startRow + numRows;
    var row, col, rowWidth := 0, 0, vpWidth;
    var sgr: Style := [];
    var seg: seq<Token> := [];
    var capturing := row >= startRow && row < endRow;
    var segStart := capturing;
    ghost var all := Rows(line, vpWidth, contWidth);
    ghost var closed: seq<Row> := [];        // every row finished so far, captured or not
    ghost var whole: seq<Token> := [];       // the row in progress, captured or not
    var b := line;
    while b != []
      invariant 1 <= rowWidth && 0 <= col && 0 <= row == |closed|
      invariant row >= 1 ==> rowWidth == cont
      invariant rows == Window(closed, startRow, numRows)
      invariant capturing == (startRow <= row < endRow) && segStart == capturing
      invariant capturing ==> seg == whole
      invariant Tracks(all, closed, b, rowWidth, cont, col, sgr, whole)
      decreases |b|, col
    {
      var t, tail := b[0], b[1..];
      if !t.Cell? {
        TrackControl(all, closed, b, rowWidth, cont, col, sgr, whole);
        if t.Reset? {
          sgr := [];
        } else if t.Sgr? {
          sgr := sgr + [t.code];
        }
        if capturing && segStart {
          seg := seg + [t];
        }
        whole := whole + [t];
        b := tail;
        continue;
      }
      if col + t.w > rowWidth && col > 0 {
        TrackWrap(all, closed, b, rowWidth, cont, col, sgr, whole, startRow, numRows);
        if capturing {
          rows := rows + [Close(seg, sgr, col)];
          segStart := false;
        }
        closed, whole := closed + [Close(whole, sgr, col)], Replay(sgr);
        row := row + 1;
        if row == 1 {
          rowWidth := cont;
        }
        col := 0;
        if row >= endRow {
          return;  // past the window, and nothing in this row to flush
        }
        capturing := row >= startRow && row < endRow;
        if capturing {
          seg := Replay(sgr);
          segStart := true;
        }
        continue;  // the same cell, now at column 0 of the next row
      }
      TrackCell(all, closed, b, rowWidth, cont, col, sgr, whole, startRow, numRows);
      if capturing && segStart {
        seg := seg + [t];
      }
      whole := whole + [t];
      col := col + t.w;
      if col >= rowWidth {
        if capturing {
          rows := rows + [Close(seg, sgr, col)];
          segStart := false;
        }
        closed, whole := closed + [Close(whole, sgr, col)], Replay(sgr);
        row := row + 1;
        if row == 1 {
          rowWidth := cont;
        }
        col := 0;
        if row >= endRow {
          return;
        }
        capturing := row >= startRow && row < endRow;
        if capturing {
          seg := Replay(sgr);
          segStart := true;
        }
      }
      b := tail;
    }
    TrackEnd(all, closed, rowWidth, cont, col, sgr, whole, startRow, numRows);
    if capturing && segStart && col > 0 {
      rows := rows + [Close(seg, sgr, col)];
    }
  }

  // ---- the loop follows Greedy ----

  /** What remains to be read, after the rows already closed, makes up the whole split. */
  ghost predicate Tracks(
      all: seq<Row>, closed: seq<Row>, b: seq<Token>, limit: int, cont: Pos, col: nat, sgr: Style, whole: seq<Token>)
  {
    1 <= limit && all == closed + Greedy(b, limit, cont, col, sgr, whole)
  }

  lemma TrackStart(line: seq<Token>, vpWidth: int, contWidth: int, a: int, n: int)
    ensures Window<Row>([], a, n) == []
    ensures line == [] || n <= 0 || vpWidth <= 0 ==> Window(Rows(line, vpWidth, contWidth), a, n) == []
    ensures vpWidth > 0 ==>
            var cont := if contWidth <= 0 then 1 else contWidth;
            Tracks(Rows(line, vpWidth, contWidth), [], line, vpWidth, cont, 0, [], [])
  {
  }

  lemma TrackControl(
      all: seq<Row>, closed: seq<Row>, b: seq<Token>, limit: int, cont: Pos, col: nat, sgr: Style, whole: seq<Token>)
    requires Tracks(all, closed, b, limit, cont, col, sgr, whole)
    requires b != [] && !b[0].Cell?
    ensures var sgr' := if b[0].Reset? then [] else if b[0].Sgr? then sgr + [b[0].code] else sgr;
            Tracks(all, closed, b[1..], limit, cont, col, sgr', whole + [b[0]])
  {
  }

  lemma CloseOne(closed: seq<Row>, finished: Row, next: seq<Row>, all: seq<Row>, a: int, n: int)
    requires all == closed + ([finished] + next)
    ensures all == (closed + [finished]) + next
    ensures Window(closed + [finished], a, n) ==
            Window(closed, a, n) + if a <= |closed| < a + n then [finished] else []
    ensures a + n <= |closed| + 1 ==> Window(all, a, n) == Window(closed + [finished], a, n)
  {
    assert closed + ([finished] + next) == (closed + [finished]) + next;
    WindowSnoc(closed, finished, a, n);
    if a + n <= |closed| + 1 {
      WindowOfPrefix(closed + [finished], next, a, n);
    }
  }

  lemma {:induction false} TrackWrap(
      all: seq<Row>, closed: seq<Row>, b: seq<Token>, limit: int, cont: Pos, col: nat, sgr: Style, whole: seq<Token>,
      a: int, n: int)
    requires Tracks(all, closed, b, limit, cont, col, sgr, whole)
    requires b != [] && b[0].Cell? && col > 0 && col + b[0].w > limit
    ensures var closed' := closed + [Close(whole, sgr, col)];
            && Tracks(all, closed', b, cont, cont, 0, sgr, Replay(sgr))
            && Window(closed', a, n) ==
               Window(closed, a, n) + (if a <= |closed| < a + n then [Close(whole, sgr, col)] else [])
            && (a + n <= |closed| + 1 ==> Window(all, a, n) == Window(closed', a, n))
  {
    CloseOne(closed, Close(whole, sgr, col), Greedy(b, cont, cont, 0, sgr, Replay(sgr)), all, a, n);
  }

  lemma {:induction false} TrackCell(
      all: seq<Row>, closed: seq<Row>, b: seq<Token>, limit: int, cont: Pos, col: nat, sgr: Style, whole: seq<Token>,
      a: int, n: int)
    requires Tracks(all, closed, b, limit, cont, col, sgr, whole)
    requires b != [] && b[0].Cell? && !(col > 0 && col + b[0].w > limit)
    ensures col + b[0].w < limit ==> Tracks(all, closed, b[1..], limit, cont, col + b[0].w, sgr, whole + [b[0]])
    ensures col + b[0].w >= limit ==>
            var finished := Close(whole + [b[0]], sgr, col + b[0].w);
            && Tracks(all, closed + [finished], b[1..], cont, cont, 0, sgr, Replay(sgr))
            && Window(closed + [finished], a, n) ==
               Window(closed, a, n) + (if a <= |closed| < a + n then [finished] else [])
            && (a + n <= |closed| + 1 ==> Window(all, a, n) == Window(closed + [finished], a, n))
  {
    if col + b[0].w >= limit {
      CloseOne(closed, Close(whole + [b[0]], sgr, col + b[0].w), Greedy(b[1..], cont, cont, 0, sgr, Replay(sgr)), all,
               a, n);
    }
  }

  lemma TrackEnd(
      all: seq<Row>, closed: seq<Row>, limit: int, cont: Pos, col: nat, sgr: Style, whole: seq<Token>, a: int, n: int)
    requires Tracks(all, closed, [], limit, cont, col, sgr, whole)
    ensures Window(all, a, n) ==
            Window(closed, a, n) + if col > 0 && a <= |closed| < a + n then [Close(whole, sgr, col)] else []
  {
    if col > 0 {
      WindowSnoc(closed, Close(whole, sgr, col), a, n);
    } else {
      assert closed + [] == closed;
    }
  }

  // ---- what the split keeps ----

  /** The glyphs of each row, read from the default style. */
  function Parts(rows: seq<Row>): (ps: seq<seq<Glyph>>)
    ensures |ps| == |rows|
    ensures forall i :: 0 <= i < |rows| ==> ps[i] == Shown(rows[i].text, [])
  {
    if rows == [] then [] else [Shown(rows[0].text, [])] + Parts(rows[1..])
  }

  function Flatten<T>(ps: seq<seq<T>>): seq<T> {
    if ps == [] then [] else ps[0] + Flatten(ps[1..])
  }

  /** A row that shows the same wherever it is printed, and leaves no style behind. */
  predicate SelfContained(r: Row) {
    StyleAfter(r.text, []) == [] && Width(r.text) == r.width && r.width > 0
  }

  lemma {:induction false} CloseRow(seg: seq<Token>, sgr: Style, col: nat)
    requires StyleAfter(seg, []) == sgr && Width(seg) == col
    ensures StyleAfter(Close(seg, sgr, col).text, []) == []
    ensures Width(Close(seg, sgr, col).text) == col
    ensures Shown(Close(seg, sgr, col).text, []) == Shown(seg, [])
  {
    StyleAppend(seg, [Reset], []);
    ShownAppend(seg, [Reset], []);
    WidthAppend(seg, [Reset]);
  }

  lemma {:induction false} Restart(sgr: Style)
    ensures StyleAfter(Replay(sgr), []) == sgr && Width(Replay(sgr)) == 0 && Shown(Replay(sgr), []) == []
  {
    ReplayStyle(sgr, []);
    assert [] + sgr == sgr;
  }

  lemma {:induction false} Extend(seg: seq<Token>, t: Token, sgr: Style, col: nat)
    requires StyleAfter(seg, []) == sgr && Width(seg) == col
    ensures StyleAfter(seg + [t], []) == StyleStep(sgr, t)
    ensures Width(seg + [t]) == col + if t.Cell? then t.w else 0
    ensures Shown(seg + [t], []) == Shown(seg, []) + if t.Cell? then [Glyph(t.text, t.w, sgr)] else []
  {
    StyleAppend(seg, [t], []);
    ShownAppend(seg, [t], []);
    WidthAppend(seg, [t]);
    assert [t][1..] == [];
  }

  lemma {:induction false} PartsCons(r: Row, rest: seq<Row>)
    ensures Parts([r] + rest) == [Shown(r.text, [])] + Parts(rest)
    ensures Flatten(Parts([r] + rest)) == Shown(r.text, []) + Flatten(Parts(rest))
  {
    assert ([r] + rest)[1..] == rest;
    assert ([Shown(r.text, [])] + Parts(rest))[1..] == Parts(rest);
  }

  lemma {:induction false} KeepsAfterClose(seg: seq<Token>, sgr: Style, col: nat, rows: seq<Row>, tail: seq<Glyph>)
    requires StyleAfter(seg, []) == sgr && Width(seg) == col
    requires Flatten(Parts(rows)) == [] + tail
    ensures Flatten(Parts([Close(seg, sgr, col)] + rows)) == Shown(seg, []) + tail
  {
    CloseRow(seg, sgr, col);
    PartsCons(Close(seg, sgr, col), rows);
    assert [] + tail == tail;
  }

  lemma {:induction false} GreedySelfContained(
      ts: seq<Token>, limit: Pos, cont: Pos, col: nat, sgr: Style, seg: seq<Token>)
    requires StyleAfter(seg, []) == sgr && Width(seg) == col
    ensures forall r :: r in Greedy(ts, limit, cont, col, sgr, seg) ==> SelfContained(r)
    decreases |ts|, col
  {
    if ts == [] {
      CloseRow(seg, sgr, col);
    } else {
      var t := ts[0];
      Extend(seg, t, sgr, col);
      Restart(sgr);
      if !t.Cell? {
        GreedySelfContained(ts[1..], limit, cont, col, StyleStep(sgr, t), seg + [t]);
      } else if col > 0 && col + t.w > limit {
        CloseRow(seg, sgr, col);
        GreedySelfContained(ts, cont, cont, 0, sgr, Replay(sgr));
      } else if col + t.w >= limit {
        CloseRow(seg + [t], sgr, col + t.w);
        GreedySelfContained(ts[1..], cont, cont, 0, sgr, Replay(sgr));
      } else {
        GreedySelfContained(ts[1..], limit, cont, col + t.w, sgr, seg + [t]);
      }
    }
  }

  lemma {:induction false} LastClose(seg: seq<Token>, sgr: Style, col: nat)
    requires StyleAfter(seg, []) == sgr && Width(seg) == col
    ensures Flatten(Parts(if col > 0 then [Close(seg, sgr, col)] else [])) == Shown(seg, [])
  {
    ShownWidth(seg, []);
    if col > 0 {
      CloseRow(seg, sgr, col);
      PartsCons(Close(seg, sgr, col), []);
      assert [Close(seg, sgr, col)] + [] == [Close(seg, sgr, col)];
    }
  }

  lemma {:induction false} GreedyKeeps(ts: seq<Token>, limit: Pos, cont: Pos, col: nat, sgr: Style, seg: seq<Token>)
    requires StyleAfter(seg, []) == sgr && Width(seg) == col
    ensures Flatten(Parts(Greedy(ts, limit, cont, col, sgr, seg))) == Shown(seg, []) + Shown(ts, sgr)
    decreases |ts|, col
  {
    var sh := Shown(seg, []);
    hide Flatten, Parts, StyleAfter, Replay, Width, Close;
    if ts == [] {
      LastClose(seg, sgr, col);
    } else {
      var t, rest := ts[0], ts[1..];
      var seg', start := seg + [t], Replay(sgr);
      Extend(seg, t, sgr, col);
      Restart(sgr);
      if !t.Cell? {
        GreedyKeeps(rest, limit, cont, col, StyleStep(sgr, t), seg');
      } else {
        var g, tail := Glyph(t.text, t.w, sgr), Shown(rest, sgr);
        assert Shown(ts, sgr) == [g] + tail;
        if col > 0 && col + t.w > limit {
          GreedyKeeps(ts, cont, cont, 0, sgr, start);
          KeepsAfterClose(seg, sgr, col, Greedy(ts, cont, cont, 0, sgr, start), [g] + tail);
        } else {
          Assoc(sh, [g], tail);
          if col + t.w >= limit {
            GreedyKeeps(rest, cont, cont, 0, sgr, start);
            KeepsAfterClose(seg', sgr, col + t.w, Greedy(rest, cont, cont, 0, sgr, start), tail);
          } else {
            GreedyKeeps(rest, limit, cont, col + t.w, sgr, seg');
          }
        }
      }
    }
  }

  /** Main result on content: the rows, printed one after the other and each from a
      clean terminal, show every cell of the line in order and in its own style; each
      row ends with the style reset and reports the sum of its cell widths. */
  lemma {:induction false} RowsKeepCells(line: seq<Token>, vpWidth: Pos, contWidth: int)
    ensures Flatten(Parts(Rows(line, vpWidth, contWidth))) == Shown(line, [])
    ensures forall r :: r in Rows(line, vpWidth, contWidth) ==> SelfContained(r)
  {
    GreedyKeeps(line, vpWidth, Max(1, contWidth), 0, [], []);
    GreedySelfContained(line, vpWidth, Max(1, contWidth), 0, [], []);
    assert [] + Shown(line, []) == Shown(line, []);
  }

  // ---- where the split breaks ----

  /** Every part is as full as it can be: it fits its limit unless it is one wide cell,
      and the first cell of the next part would not have fitted. */
  predicate IsGreedy(ps: seq<seq<Glyph>>, limit: Pos, cont: Pos) {
    ps == [] ||
    (&& ps[0] != []
     && (GlyphWidth(ps[0]) <= limit || |ps[0]| == 1)
     && (|ps| > 1 && ps[1] != [] ==> GlyphWidth(ps[0]) + ps[1][0].w > limit)
     && IsGreedy(ps[1..], cont, cont))
  }

  lemma {:induction false} FlattenEmpty(p: seq<seq<Glyph>>, limit: Pos, cont: Pos)
    requires IsGreedy(p, limit, cont)
    ensures Flatten(p) == [] <==> p == []
  {
  }

  /** A line can be broken greedily in only one way. */
  lemma {:induction false} GreedyUnique(p: seq<seq<Glyph>>, q: seq<seq<Glyph>>, limit: Pos, cont: Pos)
    requires IsGreedy(p, limit, cont) && IsGreedy(q, limit, cont)
    requires Flatten(p) == Flatten(q)
    ensures p == q
  {
    FlattenEmpty(p, limit, cont);
    FlattenEmpty(q, limit, cont);
    if p != [] {
      FirstPartNoShorter(p, q, limit, cont);
      FirstPartNoShorter(q, p, limit, cont);
      assert p[0] == Flatten(p)[..|p[0]|] == q[0];
      assert Flatten(p[1..]) == Flatten(p)[|p[0]|..];
      assert Flatten(q[1..]) == Flatten(q)[|q[0]|..];
      GreedyUnique(p[1..], q[1..], cont, cont);
    }
  }

  lemma {:induction false} FirstPartNoShorter(p: seq<seq<Glyph>>, q: seq<seq<Glyph>>, limit: Pos, cont: Pos)
    requires p != [] && q != []
    requires IsGreedy(p, limit, cont) && IsGreedy(q, limit, cont)
    requires Flatten(p) == Flatten(q)
    ensures |p[0]| >= |q[0]|
  {
    var k := |p[0]|;
    if k < |q[0]| {
      var all := Flatten(p);
      assert all == p[0] + Flatten(p[1..]) && all == q[0] + Flatten(q[1..]);
      var x := all[k];
      assert x == q[0][k];
      assert Flatten(p[1..]) == all[k..];
      assert |p| > 1 && p[1] != [] && p[1][0] == x by { assert p[1..][0] == p[1]; }
      assert all[..k] == p[0];
      assert q[0] == p[0] + [x] + q[0][k + 1..];
      OverfullWidth(p[0], x, q[0][k + 1..]);
    }
  }

  lemma {:induction false} OverfullWidth(a: seq<Glyph>, x: Glyph, b: seq<Glyph>)
    ensures GlyphWidth(a + [x] + b) >= GlyphWidth(a) + x.w
  {
    GlyphWidthAppend(a + [x], b);
    GlyphWidthAppend(a, [x]);
    assert GlyphWidth([x]) == x.w;
  }

  lemma {:induction false} GreedyBreaks(ts: seq<Token>, limit: Pos, cont: Pos, col: nat, sgr: Style, seg: seq<Token>)
    requires StyleAfter(seg, []) == sgr && Width(seg) == col
    requires col < limit
    ensures IsGreedy(Parts(Greedy(ts, limit, cont, col, sgr, seg)), limit, cont)
    decreases |ts|, col
  {
    ShownWidth(seg, []);
    if ts == [] {
      CloseRow(seg, sgr, col);
    } else {
      var t, rest := ts[0], ts[1..];
      var seg', start := seg + [t], Replay(sgr);
      Extend(seg, t, sgr, col);
      Restart(sgr);
      if !t.Cell? {
        GreedyBreaks(rest, limit, cont, col, StyleStep(sgr, t), seg');
      } else if col > 0 && col + t.w > limit {
        var rows := Greedy(ts, cont, cont, 0, sgr, start);
        CloseRow(seg, sgr, col);
        GreedyBreaks(ts, cont, cont, 0, sgr, start);
        GreedyKeeps(ts, cont, cont, 0, sgr, start);
        PartsCons(Close(seg, sgr, col), rows);
        FirstGlyph(Parts(rows), t, sgr, Shown(rest, sgr), cont);
      } else if col + t.w >= limit {
        var rows := Greedy(rest, cont, cont, 0, sgr, start);
        CloseRow(seg', sgr, col + t.w);
        ShownWidth(seg', []);
        GreedyBreaks(rest, cont, cont, 0, sgr, start);
        PartsCons(Close(seg', sgr, col + t.w), rows);
      } else {
        GreedyBreaks(rest, limit, cont, col + t.w, sgr, seg');
      }
    }
  }

  lemma {:induction false} FirstGlyph(ps: seq<seq<Glyph>>, t: Token, sgr: Style, tail: seq<Glyph>, cont: Pos)
    requires t.Cell? && IsGreedy(ps, cont, cont)
    requires Flatten(ps) == [] + ([Glyph(t.text, t.w, sgr)] + tail)
    ensures ps != [] && ps[0] != [] && ps[0][0].w == t.w
  {
    assert Flatten(ps)[0] == Glyph(t.text, t.w, sgr);
  }

  /** Main result on break points: the split is the greedy one. */
  lemma {:induction false} RowsBreakGreedily(line: seq<Token>, vpWidth: Pos, contWidth: int)
    ensures IsGreedy(Parts(Rows(line, vpWidth, contWidth)), vpWidth, Max(1, contWidth))
  {
    GreedyBreaks(line, vpWidth, Max(1, contWidth), 0, [], []);
  }
}
