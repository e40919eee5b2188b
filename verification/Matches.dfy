/**
  Where the detail view's search matches are (internal/ui/detailview.go): byte offsets in the
  whole text become columns of its lines, and a match that runs over several lines becomes
  one position on each of them. Characters stand for bytes.
 */
module Matches {

  import opened Windows

  /** Columns [colStart, colEnd) of a line. */
  datatype Position = Position(line: nat, colStart: nat, colEnd: nat)

  /** Bytes [start, end) of a line. */
  datatype Span = Span(line: nat, start: nat, end: nat)

  datatype Match = Match(start: nat, end: nat)

  // ---- lines ----

  function SplitLines(s: string): (r: seq<string>)
    ensures |r| > 0
  {
    if s == "" then [""]
    else
      var rest := SplitLines(s[1..]);
      if s[0] == '\n' then [""] + rest else [[s[0]] + rest[0]] + rest[1..]
  }

  function Join(lines: seq<string>): string {
    if lines == [] then "" else if |lines| == 1 then lines[0] else lines[0] + "\n" + Join(lines[1..])
  }

  lemma {:induction false} JoinSplit(s: string)
    ensures Join(SplitLines(s)) == s
  {
    if s != "" {
      var rest := SplitLines(s[1..]);
      JoinSplit(s[1..]);
      if s[0] == '\n' {
        assert ([""] + rest)[1..] == rest;
        assert "" + "\n" == "\n" && "\n" + s[1..] == s;
      } else {
        var first := [s[0]] + rest[0];
        assert ([first] + rest[1..])[1..] == rest[1..];
        if |rest| > 1 {
          assert [s[0]] + (rest[0] + "\n" + Join(rest[1..])) == first + "\n" + Join(rest[1..]);
        }
        assert [s[0]] + s[1..] == s;
      }
    }
  }

  /** The offset at which line `i` begins; past the last one, one beyond the text. */
  function Offset(lines: seq<string>, i: nat): nat
    requires i <= |lines|
  {
    if i == 0 then 0 else Offset(lines, i - 1) + |lines[i - 1]| + 1
  }

  lemma {:induction false} TailOf(lines: seq<string>, i: nat)
    requires i < |lines|
    ensures Offset(lines, i) <= |Join(lines)|
    ensures Join(lines)[Offset(lines, i)..] == Join(lines[i..])
    decreases i
  {
    if i == 0 {
      assert lines[0..] == lines;
    } else {
      TailOf(lines, i - 1);
      var tail := lines[i - 1..];
      assert tail[1..] == lines[i..] && |tail| > 1;
      assert Join(tail) == tail[0] + "\n" + Join(tail[1..]);
      var o := Offset(lines, i - 1);
      assert Join(lines)[Offset(lines, i)..] == Join(lines)[o..][|tail[0]| + 1..];
    }
  }

  // ---- the lines of one match ----

  /** The last line that begins at or before offset `b`, looking from line `i` on. */
  function LineAt(lines: seq<string>, i: nat, b: nat): (r: nat)
    requires i < |lines|
    ensures i <= r < |lines|
    decreases |lines| - i
  {
    if i < |lines| - 1 && Offset(lines, i + 1) <= b then LineAt(lines, i + 1, b) else i
  }

  /** The part of each line that the match covers, from line `i` to its last. */
  function Spans(lines: seq<string>, i: nat, m: Match): seq<Span>
    requires i <= |lines|
    decreases |lines| - i
  {
    if i == |lines| then []
    else
      var o, n := Offset(lines, i), |lines[i]|;
      [Span(i, Max(m.start - o, 0), if m.end <= o + n then Max(m.end - o, 0) else n)] +
      if m.end <= o + n then [] else Spans(lines, i + 1, m)
  }

  function Pieces(lines: seq<string>, spans: seq<Span>): (r: seq<string>)
    requires forall k :: 0 <= k < |spans| ==>
               spans[k].line < |lines| && spans[k].start <= spans[k].end <= |lines[spans[k].line]|
    ensures |r| == |spans|
  {
    seq(|spans|, k requires 0 <= k < |spans| => lines[spans[k].line][spans[k].start..spans[k].end])
  }

  ghost predicate InLines(lines: seq<string>, spans: seq<Span>) {
    forall k :: 0 <= k < |spans| ==> spans[k].line < |lines| && spans[k].start <= spans[k].end <= |lines[spans[k].line]|
  }

  lemma {:induction false} JoinHead(lines: seq<string>)
    requires lines != []
    ensures |lines| == 1 ==> Join(lines) == lines[0]
    ensures |lines| > 1 ==> Join(lines) == lines[0] + "\n" + Join(lines[1..])
  {
  }

  lemma {:induction false} LineIn(lines: seq<string>, i: nat)
    requires i < |lines|
    ensures var raw, o := Join(lines), Offset(lines, i);
            && o + |lines[i]| <= |raw| && lines[i] <= raw[o..]
            && (i + 1 == |lines| ==> o + |lines[i]| == |raw|)
            && (i + 1 < |lines| ==> o + |lines[i]| + 1 <= |raw| && raw[o + |lines[i]|..o + |lines[i]| + 1] == "\n")
  {
    hide *;
    var raw, o, tail := Join(lines), Offset(lines, i), lines[i..];
    TailOf(lines, i);
    assert tail[0] == lines[i];
    JoinHead(tail);
    if |tail| > 1 {
      NewlineAt(raw, o, lines[i], Join(tail[1..]));
    }
  }

  lemma PieceAlone(lines: seq<string>, x: Span)
    requires x.line < |lines| && x.start <= x.end <= |lines[x.line]|
    ensures InLines(lines, [x]) && Join(Pieces(lines, [x])) == lines[x.line][x.start..x.end]
  {
    hide Join;
    assert Pieces(lines, [x]) == [lines[x.line][x.start..x.end]];
    JoinHead(Pieces(lines, [x]));
  }

  lemma {:induction false} OnePiece(lines: seq<string>, i: nat, s: nat, e: nat)
    requires i < |lines| && s <= e <= |lines[i]|
    ensures var spans := [Span(i, s, e)];
            InLines(lines, spans) && Offset(lines, i) + e <= |Join(lines)| &&
            Join(Pieces(lines, spans)) == Join(lines)[Offset(lines, i) + s..Offset(lines, i) + e]
  {
    hide Join, Pieces, Offset;
    LineIn(lines, i);
    LineSlice(Join(lines), Offset(lines, i), lines[i], s, e);
    PieceAlone(lines, Span(i, s, e));
  }

  /** A piece up to the end of its line, and the rest of the match from the next line on. */
  lemma MorePieces(lines: seq<string>, i: nat, s: nat, rest: seq<Span>, end: nat)
    requires i + 1 < |lines| && s <= |lines[i]| && InLines(lines, rest) && rest != []
    requires Offset(lines, i + 1) <= end <= |Join(lines)|
    requires Join(Pieces(lines, rest)) == Join(lines)[Offset(lines, i + 1)..end]
    ensures var spans := [Span(i, s, |lines[i]|)] + rest;
            InLines(lines, spans) && Join(Pieces(lines, spans)) == Join(lines)[Offset(lines, i) + s..end]
  {
    hide *;
    var raw, o, n := Join(lines), Offset(lines, i), |lines[i]|;
    LineIn(lines, i);
    LineSlice(raw, o, lines[i], s, n);
    OffsetNext(lines, i);
    FirstPiece(lines, Span(i, s, n), rest);
    ThreeSlices(raw, o + s, o + n, end);
  }

  lemma ThreeSlices(raw: string, a: nat, b: nat, end: nat)
    requires a <= b < end <= |raw|
    ensures raw[a..end] == raw[a..b] + raw[b..b + 1] + raw[b + 1..end]
  {
  }

  lemma FirstPiece(lines: seq<string>, x: Span, rest: seq<Span>)
    requires x.line < |lines| && x.start <= x.end <= |lines[x.line]| && InLines(lines, rest) && rest != []
    ensures InLines(lines, [x] + rest)
    ensures Join(Pieces(lines, [x] + rest)) == lines[x.line][x.start..x.end] + "\n" + Join(Pieces(lines, rest))
  {
    hide Join;
    var piece, others := lines[x.line][x.start..x.end], Pieces(lines, rest);
    assert Pieces(lines, [x] + rest) == [piece] + others;
    assert ([piece] + others)[1..] == others;
    JoinHead([piece] + others);
  }

  /** From a line that begins inside the match, the pieces are the rest of the match. */
  lemma {:induction false} RestOfMatch(lines: seq<string>, i: nat, m: Match)
    requires i < |lines| && m.start <= m.end <= |Join(lines)|
    requires Offset(lines, i) <= m.end && m.start <= Offset(lines, i) + |lines[i]|
    ensures InLines(lines, Spans(lines, i, m)) && Spans(lines, i, m) != []
    ensures Join(Pieces(lines, Spans(lines, i, m))) == Join(lines)[Max(m.start, Offset(lines, i))..m.end]
    ensures forall k :: 0 <= k < |Spans(lines, i, m)| ==> Spans(lines, i, m)[k].line == i + k
    decreases |lines| - i
  {
    var o, n := Offset(lines, i), |lines[i]|;
    var s := Max(m.start - o, 0);
    LineIn(lines, i);
    if m.end <= o + n {
      OnePiece(lines, i, s, m.end - o);
      assert Spans(lines, i, m) == [Span(i, s, m.end - o)] + [] == [Span(i, s, m.end - o)];
    } else {
      RestOfMatch(lines, i + 1, m);
      var rest := Spans(lines, i + 1, m);
      MorePieces(lines, i, s, rest, m.end);
      assert Spans(lines, i, m) == [Span(i, s, n)] + rest;
      hide Join, Pieces, Spans, InLines;
    }
  }

  lemma LineSlice(raw: string, o: nat, line: string, s: nat, e: nat)
    requires o <= |raw| && line <= raw[o..] && s <= e <= |line|
    ensures o + e <= |raw| && line[s..e] == raw[o + s..o + e]
  {
    assert line == raw[o..][..|line|];
  }

  lemma NewlineAt(raw: string, o: nat, line: string, rest: string)
    requires o <= |raw| && raw[o..] == line + "\n" + rest
    ensures o + |line| + 1 <= |raw| && raw[o + |line|..o + |line| + 1] == "\n"
  {
    assert raw[o..][|line|] == '\n';
  }

  lemma {:induction false} LineAtHolds(lines: seq<string>, i: nat, b: nat)
    requires i < |lines| && Offset(lines, i) <= b <= |Join(lines)|
    ensures var r := LineAt(lines, i, b);
            Offset(lines, r) <= b <= Offset(lines, r) + |lines[r]| && (r + 1 < |lines| ==> b < Offset(lines, r + 1))
    decreases |lines| - i
  {
    if i < |lines| - 1 && Offset(lines, i + 1) <= b {
      LineAtHolds(lines, i + 1, b);
    } else if i == |lines| - 1 {
      TailOf(lines, i);
      assert lines[i..] == [lines[i]];
    }
  }

  /** Main result: the pieces that a match is cut into, one on each line it touches, joined
      with newlines are the matched text. */
  lemma {:induction false} PiecesAreTheMatch(raw: string, m: Match)
    requires m.start <= m.end <= |raw|
    ensures var lines := SplitLines(raw);
            var spans := Spans(lines, LineAt(lines, 0, m.start), m);
            && InLines(lines, spans) && Join(Pieces(lines, spans)) == raw[m.start..m.end]
            && forall k :: 0 <= k < |spans| ==> spans[k].line == LineAt(lines, 0, m.start) + k
  {
    var lines := SplitLines(raw);
    JoinSplit(raw);
    LineAtHolds(lines, 0, m.start);
    RestOfMatch(lines, LineAt(lines, 0, m.start), m);
  }

  // ---- all matches ----

  /** Byte spans as display columns; `width` measures a prefix of a line. */
  function Columns(lines: seq<string>, spans: seq<Span>, width: string -> nat): (r: seq<Position>)
    requires InLines(lines, spans)
    ensures |r| == |spans|
    ensures forall k :: 0 <= k < |spans| ==>
              r[k] == Position(spans[k].line,
                               width(lines[spans[k].line][..spans[k].start]),
                               width(lines[spans[k].line][..spans[k].end]))
  {
    seq(|spans|, k requires 0 <= k < |spans| =>
      Position(spans[k].line, width(lines[spans[k].line][..spans[k].start]),
               width(lines[spans[k].line][..spans[k].end])))
  }

  /** As a regular expression yields them: in order, within the text. */
  predicate Ordered(ms: seq<Match>, size: nat) {
    && (forall k :: 0 <= k < |ms| ==> ms[k].start <= ms[k].end <= size)
    && (forall j, k :: 0 <= j < k < |ms| ==> ms[j].end <= ms[k].start)
  }

  ghost function Located(raw: string, ms: seq<Match>, width: string -> nat): seq<Position>
    requires forall k :: 0 <= k < |ms| ==> ms[k].start <= ms[k].end <= |raw|
  {
    if ms == [] then []
    else
      var m, lines := ms[|ms| - 1], SplitLines(raw);
      PiecesAreTheMatch(raw, m);
      Located(raw, ms[..|ms| - 1], width) + Columns(lines, Spans(lines, LineAt(lines, 0, m.start), m), width)
  }

  lemma {:induction false} LocatedNext(raw: string, ms: seq<Match>, k: nat, width: string -> nat)
    requires k < |ms| && Ordered(ms, |raw|)
    ensures var lines, m := SplitLines(raw), ms[k];
            var spans := Spans(lines, LineAt(lines, 0, m.start), m);
            && InLines(lines, spans)
            && Located(raw, ms[..k + 1], width) == Located(raw, ms[..k], width) + Columns(lines, spans, width)
  {
    PiecesAreTheMatch(raw, ms[k]);
    assert ms[..k + 1][..k] == ms[..k];
  }

  lemma {:induction false} OffsetsRise(lines: seq<string>, i: nat, j: nat)
    requires i <= j <= |lines|
    ensures Offset(lines, i) <= Offset(lines, j)
    decreases j - i
  {
    if i < j {
      OffsetsRise(lines, i, j - 1);
    }
  }

  /** Starting the search for a line further down finds the same line. */
  lemma {:induction false} LineAtFrom(lines: seq<string>, i: nat, j: nat, b: nat)
    requires i <= j < |lines| && Offset(lines, j) <= b
    ensures LineAt(lines, i, b) == LineAt(lines, j, b)
    decreases j - i
  {
    if i < j {
      OffsetsRise(lines, i + 1, j);
      LineAtFrom(lines, i + 1, j, b);
    }
  }

  method ComputeMatchPositions(raw: string, rawMatches: seq<Match>, width: string -> nat)
    returns (positions: seq<Position>)
    requires Ordered(rawMatches, |raw|)
    ensures positions == Located(raw, rawMatches, width)
  {
    hide Spans, Columns, Located, InLines;
    var rawLines := SplitLines(raw);
    positions := [];
    var lineStart: nat, lineIdx: nat := 0, 0;
    var k := 0;
    assert rawMatches[..0] == [];
    hide SplitLines;
    LocatedNone(raw, width);
    while k < |rawMatches|
      invariant 0 <= k <= |rawMatches| && lineIdx < |rawLines| && lineStart == Offset(rawLines, lineIdx)
      invariant k > 0 ==> lineStart <= rawMatches[k - 1].start
      invariant k == 0 ==> lineIdx == 0
      invariant positions == Located(raw, rawMatches[..k], width)
    {
      var m := rawMatches[k];
      while lineIdx < |rawLines| - 1 && lineStart + |rawLines[lineIdx]| + 1 <= m.start
        invariant lineIdx < |rawLines| && lineStart == Offset(rawLines, lineIdx) <= m.start
      {
        lineStart := lineStart + |rawLines[lineIdx]| + 1;
        lineIdx := lineIdx + 1;
      }
      LineAtFrom(rawLines, 0, lineIdx, m.start);
      LocatedNext(raw, rawMatches, k, width);
      var more := MatchOnLines(raw, rawLines, lineIdx, lineStart, m, width);
      positions := positions + more;
      k := k + 1;
    }
    assert rawMatches[..|rawMatches|] == rawMatches;
  }

  lemma {:induction false} LocatedNone(raw: string, width: string -> nat)
    ensures Located(raw, [], width) == []
  {
  }

  /** One match: a position on its first line and on every line it runs into. */
  method MatchOnLines(
      ghost raw: string, rawLines: seq<string>, lineIdx: nat, lineStart: nat, m: Match, width: string -> nat)
    returns (positions: seq<Position>)
    requires rawLines == SplitLines(raw) && m.start <= m.end <= |raw|
    requires lineIdx == LineAt(rawLines, 0, m.start) && lineStart == Offset(rawLines, lineIdx) <= m.start
    ensures InLines(rawLines, Spans(rawLines, lineIdx, m)) &&
            positions == Columns(rawLines, Spans(rawLines, lineIdx, m), width)
  {
    hide *;
    PiecesAreTheMatch(raw, m);
    ghost var all := Spans(rawLines, lineIdx, m);
    ghost var done: seq<Span> := [];
    positions := [];
    NoColumns(rawLines, width);
    var curIdx, curLineStart, first := lineIdx, lineStart, true;
    while curIdx < |rawLines|
      invariant curIdx <= |rawLines| && curLineStart == Offset(rawLines, curIdx) <= m.end
      invariant InLines(rawLines, all) && all == done + Spans(rawLines, curIdx, m)
      invariant InLines(rawLines, done) && positions == Columns(rawLines, done, width)
      invariant if first then curLineStart <= m.start else m.start <= curLineStart
      decreases |rawLines| - curIdx
    {
      var line := rawLines[curIdx];
      var lineEnd := curLineStart + |line|;
      var segStart := if first then m.start - curLineStart else 0;
      var segEnd := if m.end <= lineEnd then m.end - curLineStart else |line|;
      ghost var span := Span(curIdx, segStart, segEnd);
      SpansStep(rawLines, curIdx, m, all, done, span);
      ColumnsSnoc(rawLines, done, span, width);
      done := done + [span];
      positions := positions + [Position(curIdx, width(line[..segStart]), width(line[..segEnd]))];
      assert positions == Columns(rawLines, done, width);
      if m.end <= lineEnd {
        return;
      }
      OffsetNext(rawLines, curIdx);
      curLineStart := lineEnd + 1;
      curIdx := curIdx + 1;
      first := false;
    }
    NoSpans(rawLines, m);
  }

  lemma {:induction false} NoSpans(lines: seq<string>, m: Match)
    ensures Spans(lines, |lines|, m) == []
  {
  }

  lemma NoColumns(lines: seq<string>, width: string -> nat)
    ensures InLines(lines, []) && Columns(lines, [], width) == []
  {
  }

  lemma OffsetNext(lines: seq<string>, i: nat)
    requires i < |lines|
    ensures Offset(lines, i + 1) == Offset(lines, i) + |lines[i]| + 1
  {
  }

  lemma SpansStep(lines: seq<string>, i: nat, m: Match, all: seq<Span>, done: seq<Span>, span: Span)
    requires i < |lines| && InLines(lines, all) && all == done + Spans(lines, i, m) && Offset(lines, i) <= m.end
    requires span.line == i && span.start == (if Offset(lines, i) <= m.start then m.start - Offset(lines, i) else 0)
    requires span.end == if m.end <= Offset(lines, i) + |lines[i]| then m.end - Offset(lines, i) else |lines[i]|
    ensures span.start <= span.end <= |lines[i]|
    ensures all == done + [span] + if m.end <= Offset(lines, i) + |lines[i]| then [] else Spans(lines, i + 1, m)
  {
    hide Offset;
    assert Spans(lines, i, m)[0] == span;
    assert all[|done|] == span;
  }

  lemma ColumnsSnoc(lines: seq<string>, spans: seq<Span>, s: Span, width: string -> nat)
    requires InLines(lines, spans) && s.line < |lines| && s.start <= s.end <= |lines[s.line]|
    ensures InLines(lines, spans + [s])
    ensures Columns(lines, spans + [s], width) ==
            Columns(lines, spans, width)
            + [Position(s.line, width(lines[s.line][..s.start]), width(lines[s.line][..s.end]))]
  {
  }
}
