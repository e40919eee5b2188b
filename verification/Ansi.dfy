/**
  The cell-and-escape model behind internal/ui/ansisplit.go.

  A terminal line is a sequence of tokens: printable cells, SGR sequences (section
  8.3.117 of ECMA-48), the SGR reset, and any other escape or control sequence.
  A style is the list of SGR codes received since the last reset. That list is the
  most a terminal can depend on: StylesDetermineDrawing shows that every way of
  interpreting SGR codes sees the same picture when the lists agree.
 */
module Ansi {

  type Pos = x: int | 1 <= x witness 1

  type Style = seq<int>

  datatype Token =
    | Cell(text: string, w: Pos)
    | Sgr(code: int)
    | Reset
    | Other(id: int)

  /** What the user sees: a cell together with its effective style. */
  datatype Glyph = Glyph(text: string, w: Pos, style: Style)

  function StyleStep(st: Style, t: Token): Style {
    match t
    case Sgr(c) => st + [c]
    case Reset => []
    case _ => st
  }

  function StyleAfter(ts: seq<Token>, st: Style): Style {
    if ts == [] then st else StyleAfter(ts[1..], StyleStep(st, ts[0]))
  }

  /** The glyphs a terminal in style `st` shows for `ts`. */
  function Shown(ts: seq<Token>, st: Style): seq<Glyph> {
    if ts == [] then []
    else
      var rest := Shown(ts[1..], StyleStep(st, ts[0]));
      if ts[0].Cell? then [Glyph(ts[0].text, ts[0].w, st)] + rest else rest
  }

  function Width(ts: seq<Token>): nat {
    if ts == [] then 0 else (if ts[0].Cell? then ts[0].w else 0) + Width(ts[1..])
  }

  function GlyphWidth(gs: seq<Glyph>): nat {
    if gs == [] then 0 else gs[0].w + GlyphWidth(gs[1..])
  }

  /** The escape sequences that were neither cells nor SGR, in order. */
  function Controls(ts: seq<Token>): seq<int> {
    if ts == [] then []
    else (if ts[0].Other? then [ts[0].id] else []) + Controls(ts[1..])
  }

  function Text(ts: seq<Token>): string {
    if ts == [] then "" else (if ts[0].Cell? then ts[0].text else "") + Text(ts[1..])
  }

  /** An accumulated SGR buffer written back to the output. */
  function Replay(codes: Style): seq<Token> {
    if codes == [] then [] else [Sgr(codes[0])] + Replay(codes[1..])
  }

  // ---- reading tokens left to right ----

  lemma {:induction false} StyleAppend(a: seq<Token>, b: seq<Token>, st: Style)
    ensures StyleAfter(a + b, st) == StyleAfter(b, StyleAfter(a, st))
  {
    if a == [] {
      assert a + b == b;
    } else {
      assert (a + b)[1..] == a[1..] + b;
      StyleAppend(a[1..], b, StyleStep(st, a[0]));
    }
  }

  lemma {:induction false} ShownAppend(a: seq<Token>, b: seq<Token>, st: Style)
    ensures Shown(a + b, st) == Shown(a, st) + Shown(b, StyleAfter(a, st))
  {
    if a == [] {
      assert a + b == b;
    } else {
      assert (a + b)[1..] == a[1..] + b && (a + b)[0] == a[0];
      var next := StyleStep(st, a[0]);
      ShownAppend(a[1..], b, next);
      var tail := Shown(b, StyleAfter(a, st));
      if a[0].Cell? {
        var g := Glyph(a[0].text, a[0].w, st);
        assert Shown(a + b, st) == [g] + (Shown(a[1..], next) + tail);
        assert [g] + (Shown(a[1..], next) + tail) == ([g] + Shown(a[1..], next)) + tail;
      }
    }
  }

  lemma {:induction false} WidthAppend(a: seq<Token>, b: seq<Token>)
    ensures Width(a + b) == Width(a) + Width(b)
  {
    if a == [] {
      assert a + b == b;
    } else {
      assert (a + b)[1..] == a[1..] + b;
      WidthAppend(a[1..], b);
    }
  }

  lemma {:induction false} TextAppend(a: seq<Token>, b: seq<Token>)
    ensures Text(a + b) == Text(a) + Text(b)
  {
    if a == [] {
      assert a + b == b;
    } else {
      assert (a + b)[1..] == a[1..] + b && (a + b)[0] == a[0];
      TextAppend(a[1..], b);
    }
  }

  lemma {:induction false} ControlsAppend(a: seq<Token>, b: seq<Token>)
    ensures Controls(a + b) == Controls(a) + Controls(b)
  {
    if a == [] {
      assert a + b == b;
    } else {
      assert (a + b)[1..] == a[1..] + b && (a + b)[0] == a[0];
      ControlsAppend(a[1..], b);
      var c := if a[0].Other? then [a[0].id] else [];
      assert c + (Controls(a[1..]) + Controls(b)) == (c + Controls(a[1..])) + Controls(b);
    }
  }

  /** Writing back an SGR buffer adds its codes to the style and shows nothing. */
  lemma {:induction false} ReplayStyle(codes: Style, st: Style)
    ensures StyleAfter(Replay(codes), st) == st + codes
    ensures Shown(Replay(codes), st) == []
    ensures Width(Replay(codes)) == 0
    decreases |codes|
  {
    if codes == [] {
      assert st + codes == st;
    } else {
      var first, rest, next := Sgr(codes[0]), codes[1..], st + [codes[0]];
      var r := Replay(rest);
      ReplayStyle(rest, next);
      assert Replay(codes) == [first] + r && ([first] + r)[1..] == r;
      assert next + rest == st + codes;
    }
  }

  lemma {:induction false} ReplayControls(codes: Style)
    ensures Controls(Replay(codes)) == [] && Text(Replay(codes)) == ""
  {
    if codes != [] {
      assert Replay(codes)[1..] == Replay(codes[1..]);
      ReplayControls(codes[1..]);
    }
  }

  lemma {:induction false} ShownWidth(ts: seq<Token>, st: Style)
    ensures GlyphWidth(Shown(ts, st)) == Width(ts)
    ensures Width(ts) == 0 <==> Shown(ts, st) == []
  {
    if ts != [] {
      ShownWidth(ts[1..], StyleStep(st, ts[0]));
      if ts[0].Cell? {
        assert Shown(ts, st)[1..] == Shown(ts[1..], StyleStep(st, ts[0]));
      }
    }
  }

  lemma {:induction false} GlyphWidthAppend(a: seq<Glyph>, b: seq<Glyph>)
    ensures GlyphWidth(a + b) == GlyphWidth(a) + GlyphWidth(b)
  {
    if a == [] {
      assert a + b == b;
    } else {
      assert (a + b)[1..] == a[1..] + b;
      GlyphWidthAppend(a[1..], b);
    }
  }

  // ---- any terminal ----

  /** A terminal with its own notion of attributes, drawing a line cell by cell. */
  function Draw<S>(ts: seq<Token>, cur: S, dflt: S, apply: (S, int) -> S): seq<(string, S)> {
    if ts == [] then []
    else match ts[0]
      case Cell(g, _) => [(g, cur)] + Draw(ts[1..], cur, dflt, apply)
      case Sgr(c) => Draw(ts[1..], apply(cur, c), dflt, apply)
      case Reset => Draw(ts[1..], dflt, dflt, apply)
      case Other(_) => Draw(ts[1..], cur, dflt, apply)
  }

  function Interpret<S>(codes: Style, dflt: S, apply: (S, int) -> S): S {
    if codes == [] then dflt
    else apply(Interpret(codes[..|codes| - 1], dflt, apply), codes[|codes| - 1])
  }

  function Interpreted<S>(gs: seq<Glyph>, dflt: S, apply: (S, int) -> S): seq<(string, S)> {
    if gs == [] then []
    else [(gs[0].text, Interpret(gs[0].style, dflt, apply))] + Interpreted(gs[1..], dflt, apply)
  }

  /** Two lines with the same glyphs look the same on every terminal, whatever its
      attributes are and however it applies SGR codes to them. */
  lemma {:induction false} StylesDetermineDrawing<S>(ts: seq<Token>, st: Style, dflt: S, apply: (S, int) -> S)
    ensures Draw(ts, Interpret(st, dflt, apply), dflt, apply) == Interpreted(Shown(ts, st), dflt, apply)
  {
    if ts != [] {
      var next := StyleStep(st, ts[0]);
      StylesDetermineDrawing(ts[1..], next, dflt, apply);
      match ts[0] {
        case Cell(g, w) =>
          assert Shown(ts, st)[1..] == Shown(ts[1..], next);
        case Sgr(c) =>
          assert next[..|next| - 1] == st;
        case Reset =>
        case Other(_) =>
      }
    }
  }
}
