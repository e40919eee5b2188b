/**
  Table scrolling (internal/table/table.go). Only the rows around the cursor are rendered,
  [start, end) of them, and the viewport scrolls inside what was rendered; so the first row
  on screen is start plus the viewport's offset. Rows are one line each, and the viewport
  clamps its offset to what it holds.
 */
module Tables {

  import opened Windows

  const HEADER_HEIGHT := 1

  datatype Table<Row> = Table(rows: seq<Row>, cursor: int, start: int, end: int, height: int, y: int, content: seq<Row>)

  function GoClamp(v: int, lo: int, hi: int): int { Min(Max(v, lo), hi) }

  /** The first row on screen. */
  function Top<Row>(t: Table<Row>): int { t.start + t.y }

  predicate CursorVisible<Row>(t: Table<Row>) { Top(t) <= t.cursor < Top(t) + t.height }

  // ---- what the methods do ----

  function StartFor(cursor: int, height: int): int {
    if cursor >= 0 then GoClamp(cursor - height, 0, cursor) else 0
  }

  function EndFor(cursor: int, height: int, rows: nat): int { GoClamp(cursor + height, cursor, rows) }

  function Offset<Row>(t: Table<Row>, y: int): int { GoClamp(y, 0, Max(0, |t.content| - t.height)) }

  function Refreshed<Row>(t: Table<Row>): Table<Row> {
    var start, end := StartFor(t.cursor, t.height), EndFor(t.cursor, t.height, |t.rows|);
    var t' := t.(start := start, end := end, content := Window(t.rows, start, end - start));
    t'.(y := Offset(t', t'.y))
  }

  /** The first row to show so that the cursor is on screen, moving as little as possible. */
  function NearestTop(top: int, cursor: int, height: int): int {
    if cursor < top then cursor else if cursor > top + height - 1 then cursor - height + 1 else top
  }

  function ScrolledToCursor<Row>(t: Table<Row>): Table<Row> {
    var t' := Refreshed(t);
    if t.height <= 0 then t' else t'.(y := Offset(t', Max(0, NearestTop(Top(t), t.cursor, t.height) - t'.start)))
  }

  function MovedTo<Row>(t: Table<Row>, cursor: int): Table<Row> {
    ScrolledToCursor(t.(cursor := GoClamp(cursor, 0, Max(0, |t.rows| - 1))))
  }

  /** Go's division truncates. */
  function Half(h: int): int { if h >= 0 then h / 2 else -(-h / 2) }

  function EnsuredVisible<Row>(t: Table<Row>): Table<Row> {
    var t' := Refreshed(t);
    if CursorVisible(t') then t' else t'.(y := Offset(t', Max(t'.cursor - t'.start - Half(t'.height), 0)))
  }

  function CursorSet<Row>(t: Table<Row>, cursor: int): Table<Row> {
    Refreshed(t.(cursor := GoClamp(cursor, 0, Max(0, |t.rows| - 1))))
  }

  function RowsSet<Row>(t: Table<Row>, rows: seq<Row>): Table<Row> {
    Refreshed(t.(rows := rows, cursor := if t.cursor > |rows| - 1 then Max(0, |rows| - 1) else t.cursor))
  }

  /** `height` is the table's, header included. */
  function HeightSet<Row>(t: Table<Row>, height: int): Table<Row> { Refreshed(t.(height := height - HEADER_HEIGHT)) }

  /** Row `row` is drawn on line `localY` of the table, the header being line 0. */
  predicate DrawnAt<Row>(t: Table<Row>, row: int, localY: int) {
    0 <= row < |t.rows| && Top(t) <= row < Top(t) + t.height && localY == HEADER_HEIGHT + row - Top(t)
  }

  lemma WindowEmpty<Row>(rows: seq<Row>, start: int, end: int)
    ensures Window(rows, start, 0) == [] && (end <= start ==> Window(rows, start, end - start) == [])
  {
  }

  lemma WindowStep<Row>(rows: seq<Row>, start: int, n: nat)
    requires 0 <= start && start + n < |rows|
    ensures Window(rows, start, n + 1) == Window(rows, start, n) + [rows[start + n]]
  {
    assert rows[start..start + n + 1] == rows[start..start + n] + [rows[start + n]];
  }

  class Model<Row> {
    var rows: seq<Row>
    var cursor: int
    var start: int
    var end: int
    var height: int
    var yOffset: int
    var content: seq<Row>

    ghost function State(): Table<Row>
      reads this
    {
      Table(rows, cursor, start, end, height, yOffset, content)
    }

    constructor (rows: seq<Row>, height: int)
      ensures State() == Refreshed(Table(rows, 0, 0, 0, height, 0, [])) && Right(State())
    {
      this.rows, cursor, start, end, this.height, yOffset, content := rows, 0, 0, 0, height, 0, [];
      new;
      RefreshedRight(State());
      UpdateViewport();
    }

    /** The viewport's own clamp. */
    method SetYOffset(y: int)
      modifies `yOffset
      ensures State() == old(State()).(y := Offset(old(State()), y))
    {
      yOffset := Min(Max(y, 0), Max(0, |content| - height));
    }

    method UpdateViewport()
      modifies `start, `end, `content, `yOffset
      ensures State() == Refreshed(old(State()))
    {
      if cursor >= 0 {
        start := GoClamp(cursor - height, 0, cursor);
      } else {
        start := 0;
      }
      end := GoClamp(cursor + height, cursor, |rows|);
      content := Render(rows, start, end);
      SetYOffset(yOffset);
    }

    static method Render(rows: seq<Row>, start: int, end: int) returns (rendered: seq<Row>)
      requires 0 <= start && end <= |rows|
      ensures rendered == Window(rows, start, end - start)
    {
      hide Window;
      rendered := [];
      WindowEmpty(rows, start, end);
      var i := start;
      while i < end
        invariant start <= i && (i <= end || i == start) && rendered == Window(rows, start, i - start)
      {
        WindowStep(rows, start, i - start);
        rendered := rendered + [rows[i]];
        i := i + 1;
      }
    }

    method ScrollToCursor()
      modifies `start, `end, `content, `yOffset
      ensures State() == ScrolledToCursor(old(State()))
    {
      if height <= 0 {
        UpdateViewport();
        return;
      }
      var top := start + yOffset;
      if cursor < top {
        top := cursor;
      } else if cursor > top + height - 1 {
        top := cursor - height + 1;
      }
      UpdateViewport();
      SetYOffset(Max(0, top - start));
    }

    method MoveUp(n: int)
      modifies `cursor, `start, `end, `content, `yOffset
      ensures State() == MovedTo(old(State()), old(cursor) - n)
    {
      cursor := GoClamp(cursor - n, 0, Max(0, |rows| - 1));
      ScrollToCursor();
    }

    method MoveDown(n: int)
      modifies `cursor, `start, `end, `content, `yOffset
      ensures State() == MovedTo(old(State()), old(cursor) + n)
    {
      cursor := GoClamp(cursor + n, 0, Max(0, |rows| - 1));
      ScrollToCursor();
    }

    method EnsureCursorVisible()
      modifies `start, `end, `content, `yOffset
      ensures State() == EnsuredVisible(old(State()))
    {
      UpdateViewport();
      var cursorLine := cursor - start;
      if cursorLine >= yOffset && cursorLine < yOffset + height {
        return;
      }
      SetYOffset(Max(cursorLine - Half(height), 0));
    }

    method SetCursor(n: int)
      modifies `cursor, `start, `end, `content, `yOffset
      ensures State() == CursorSet(old(State()), n)
    {
      cursor := GoClamp(n, 0, Max(0, |rows| - 1));
      UpdateViewport();
    }

    method SetRows(r: seq<Row>)
      modifies `rows, `cursor, `start, `end, `content, `yOffset
      ensures State() == RowsSet(old(State()), r)
    {
      rows := r;
      if cursor > |rows| - 1 {
        cursor := Max(0, |rows| - 1);
      }
      UpdateViewport();
    }

    method SetHeight(h: int)
      modifies `height, `start, `end, `content, `yOffset
      ensures State() == HeightSet(old(State()), h)
    {
      height := h - HEADER_HEIGHT;
      UpdateViewport();
    }

    /** The row under a line of the screen: the inverse of drawing. What it finds is what the
        viewport shows there, and it finds nothing exactly where the viewport shows nothing. */
    method RowAtY(localY: int) returns (index: int)
      ensures forall row :: 0 <= row < |rows| ==> (index == row <==> DrawnAt(State(), row, localY))
      ensures index == -1 || 0 <= index < |rows|
      ensures Right(State()) && height >= 1 ==>
                var shown, line := Window(content, yOffset, height), localY - HEADER_HEIGHT;
                && (index == -1 <==> !(0 <= line < |shown|))
                && (index != -1 ==> shown[line] == rows[index])
    {
      if Right(State()) && height >= 1 {
        ShowsTheRows(State());
        TopBounded(State());
      }
      hide Right;
      var offset := localY - HEADER_HEIGHT;
      if offset < 0 {
        return -1;
      }
      if offset >= height {
        return -1;
      }
      index := start + yOffset + offset;
      if index < 0 || index >= |rows| {
        return -1;
      }
    }
  }

  // ---- every operation keeps the window right ----

  datatype Op<Row> = Move(delta: int) | Ensure | SetCursor(n: int) | SetRows(rows: seq<Row>) | SetHeight(height: int)

  function Apply<Row>(t: Table<Row>, op: Op<Row>): Table<Row> {
    match op
    case Move(delta) => MovedTo(t, t.cursor + delta)
    case Ensure => EnsuredVisible(t)
    case SetCursor(n) => CursorSet(t, n)
    case SetRows(rows) => RowsSet(t, rows)
    case SetHeight(height) => HeightSet(t, height)
  }

  /** The rendered rows are those of the cursor, and the offset stays within them. */
  ghost predicate Right<Row>(t: Table<Row>) {
    && 0 <= t.cursor <= Max(0, |t.rows| - 1)
    && t.start == StartFor(t.cursor, t.height) && t.end == EndFor(t.cursor, t.height, |t.rows|)
    && t.content == Window(t.rows, t.start, t.end - t.start)
    && 0 <= t.y <= Max(0, |t.content| - t.height)
  }

  function Run<Row>(t: Table<Row>, ops: seq<Op<Row>>): Table<Row>
    decreases |ops|
  {
    if ops == [] then t else Run(Apply(t, ops[0]), ops[1..])
  }

  lemma RefreshedRight<Row>(t: Table<Row>)
    requires 0 <= t.cursor <= Max(0, |t.rows| - 1)
    ensures Right(Refreshed(t))
    ensures var t' := Refreshed(t);
            t' == t.(start := t'.start, end := t'.end, content := t'.content, y := t'.y)
  {
    hide Window;
  }

  lemma OffsetRight<Row>(t: Table<Row>, y: int)
    requires Right(t)
    ensures Right(t.(y := Offset(t, y)))
  {
    hide Window;
  }

  lemma EnsureRight<Row>(t: Table<Row>)
    requires Right(t)
    ensures Right(EnsuredVisible(t))
  {
    RefreshedRight(t);
    var t' := Refreshed(t);
    hide Right, Refreshed, Offset, Half, CursorVisible;
    OffsetRight(t', Max(t'.cursor - t'.start - Half(t'.height), 0));
  }

  lemma MoveRight<Row>(s: Table<Row>)
    requires 0 <= s.cursor <= Max(0, |s.rows| - 1)
    ensures Right(ScrolledToCursor(s))
  {
    RefreshedRight(s);
    hide Right, Refreshed, Offset;
    OffsetRight(Refreshed(s), Max(0, NearestTop(Top(s), s.cursor, s.height) - Refreshed(s).start));
  }

  lemma {:induction false} ApplyRight<Row>(t: Table<Row>, op: Op<Row>)
    requires Right(t)
    ensures Right(Apply(t, op))
  {
    assert 0 <= t.cursor <= Max(0, |t.rows| - 1);
    hide Right, Refreshed, ScrolledToCursor, EnsuredVisible;
    match op
    case Move(delta) => MoveRight(t.(cursor := GoClamp(t.cursor + delta, 0, Max(0, |t.rows| - 1))));
    case Ensure => EnsureRight(t);
    case SetCursor(n) => RefreshedRight(t.(cursor := GoClamp(n, 0, Max(0, |t.rows| - 1))));
    case SetRows(rows) =>
      RefreshedRight(t.(rows := rows, cursor := if t.cursor > |rows| - 1 then Max(0, |rows| - 1) else t.cursor));
    case SetHeight(height) => RefreshedRight(t.(height := height - HEADER_HEIGHT));
  }

  lemma {:induction false} RunRight<Row>(t: Table<Row>, ops: seq<Op<Row>>)
    requires Right(t)
    ensures Right(Run(t, ops))
    decreases |ops|
  {
    if ops != [] {
      ApplyRight(t, ops[0]);
      RunRight(Apply(t, ops[0]), ops[1..]);
    }
  }

  lemma ContentLength<Row>(t: Table<Row>)
    requires Right(t) && t.height >= 1
    ensures |t.content| == t.end - t.start
    ensures t.end == Min(t.cursor + t.height, |t.rows|)
    ensures |t.rows| > 0 ==> t.end > t.cursor
  {
  }

  /** Never more rows are rendered than two screens hold. */
  lemma RendersFew<Row>(t: Table<Row>)
    requires Right(t) && t.height >= 1
    ensures |t.content| <= 2 * t.height
  {
    ContentLength(t);
    hide Window;
  }

  /** The screen never scrolls past the last row. */
  lemma TopBounded<Row>(t: Table<Row>)
    requires Right(t) && t.height >= 1
    ensures 0 <= Top(t) <= Max(0, |t.rows| - t.height)
  {
    ContentLength(t);
    hide Window;
  }

  /** Main result on rendering a part: what the viewport shows is what it would show of all
      the rows, scrolled to Top. */
  lemma ShowsTheRows<Row>(t: Table<Row>)
    requires Right(t) && t.height >= 1
    ensures Window(t.content, t.y, t.height) == Window(t.rows, Top(t), t.height)
  {
    ContentLength(t);
    TopBounded(t);
    var lo, hi := t.y, Min(t.y + t.height, |t.content|);
    assert t.content == t.rows[t.start..t.end];
    assert Window(t.content, t.y, t.height) == t.content[lo..hi];
    assert t.rows[t.start..t.end][lo..hi] == t.rows[t.start + lo..t.start + hi];
    assert Window(t.rows, Top(t), t.height) == t.rows[t.start + lo..t.start + hi];
  }

  /** Main result on moving: the cursor goes where it was sent, within the rows, and is on
      screen; the screen moves only if it has to, and by as little as any screen that shows
      the cursor. */
  lemma MoveLeast<Row>(t: Table<Row>, delta: int, other: int)
    requires Right(t) && t.height >= 1 && |t.rows| >= 1
    ensures var t' := Apply(t, Move(delta));
            && t'.cursor == Clamp(t.cursor + delta, 0, |t.rows| - 1)
            && Top(t') <= t'.cursor < Top(t') + t'.height
            && (Top(t) <= t'.cursor < Top(t) + t.height ==> Top(t') == Top(t))
            && (other <= t'.cursor < other + t.height ==> Abs(Top(t') - Top(t)) <= Abs(other - Top(t)))
  {
    TopBounded(t);
    var cursor := GoClamp(t.cursor + delta, 0, Max(0, |t.rows| - 1));
    var s := t.(cursor := cursor);
    var top := NearestTop(Top(t), cursor, t.height);
    NearestIsNearest(Top(t), cursor, t.height, other);
    NearestBounded(Top(t), cursor, t.height, |t.rows|);
    ScrollReaches(s, top);
    hide Window, Refreshed, ScrolledToCursor, NearestTop, Abs, Right;
  }

  lemma ScrollReaches<Row>(s: Table<Row>, top: int)
    requires 0 <= s.cursor <= Max(0, |s.rows| - 1) && s.height >= 1 && |s.rows| >= 1
    requires top == NearestTop(Top(s), s.cursor, s.height)
    requires 0 <= top <= Max(0, |s.rows| - s.height) && top <= s.cursor < top + s.height
    ensures var t' := ScrolledToCursor(s); t'.cursor == s.cursor && t'.height == s.height && Top(t') == top
  {
    RefreshedRight(s);
    NoClamp(Refreshed(s), top);
    hide Window, Refreshed, Right, NearestTop, Offset;
  }

  lemma NearestIsNearest(top: int, cursor: int, height: int, other: int)
    requires height >= 1
    ensures var best := NearestTop(top, cursor, height);
            && best <= cursor < best + height
            && (top <= cursor < top + height ==> best == top)
            && (other <= cursor < other + height ==> Abs(best - top) <= Abs(other - top))
  {
  }

  lemma NearestBounded(top: int, cursor: int, height: int, rows: nat)
    requires height >= 1 && 0 <= cursor < rows && 0 <= top <= Max(0, rows - height)
    ensures 0 <= NearestTop(top, cursor, height) <= Max(0, rows - height)
  {
  }

  /** Once refreshed, the nearest top is within reach of the viewport. */
  lemma NoClamp<Row>(t: Table<Row>, top: int)
    requires Right(t) && t.height >= 1 && |t.rows| >= 1
    requires 0 <= top <= Max(0, |t.rows| - t.height) && top <= t.cursor < top + t.height
    ensures t.start + Offset(t, Max(0, top - t.start)) == top
  {
    ContentLength(t);
    hide Window;
  }

  function Abs(x: int): int { if x < 0 then -x else x }

  /** Main result on snapping: afterwards the cursor is on screen, and nothing happens if it
      was. */
  lemma EnsureShows<Row>(t: Table<Row>)
    requires Right(t) && t.height >= 1 && |t.rows| >= 1
    ensures var t' := EnsuredVisible(t);
            t'.cursor == t.cursor && t'.height == t.height && Top(t') <= t.cursor < Top(t') + t.height
    ensures Top(t) <= t.cursor < Top(t) + t.height ==> EnsuredVisible(t) == t
    ensures !(Top(t) <= t.cursor < Top(t) + t.height) ==>
              Top(EnsuredVisible(t)) == Clamp(t.cursor - t.height / 2, 0, Max(0, |t.rows| - t.height))
  {
    ContentLength(t);
    hide Window;
  }

  /** The cursor stays on the row it is on, as far as there is such a row, unless it is sent
      elsewhere: then it goes to the row nearest to the one asked for. Rows and height are
      those last given. */
  lemma {:induction false} CursorKept<Row>(t: Table<Row>, op: Op<Row>, other: int)
    requires Right(t)
    ensures var t' := Apply(t, op);
            && t'.rows == (if op.SetRows? then op.rows else t.rows)
            && t'.height == (if op.SetHeight? then op.height - HEADER_HEIGHT else t.height)
            && (!op.Move? && !op.SetCursor? ==>
                 t'.cursor == if t.cursor < |t'.rows| then t.cursor else Max(0, |t'.rows| - 1))
            && (op.Move? || op.SetCursor? ==>
                 var asked := if op.Move? then t.cursor + op.delta else op.n;
                 && (|t.rows| > 0 ==> 0 <= t'.cursor < |t.rows|)
                 && (0 <= other < |t.rows| ==> Abs(t'.cursor - asked) <= Abs(other - asked)))
  {
    ApplyIs(t, op);
    hide Apply, Window;
  }

  /** What an operation does besides rendering and scrolling. */
  lemma {:induction false} ApplyIs<Row>(t: Table<Row>, op: Op<Row>)
    ensures var t' := Apply(t, op);
            match op
            case Move(delta) =>
              t'.rows == t.rows && t'.height == t.height &&
              t'.cursor == GoClamp(t.cursor + delta, 0, Max(0, |t.rows| - 1))
            case Ensure => t'.rows == t.rows && t'.height == t.height && t'.cursor == t.cursor
            case SetCursor(n) =>
              t'.rows == t.rows && t'.height == t.height && t'.cursor == GoClamp(n, 0, Max(0, |t.rows| - 1))
            case SetRows(rows) =>
              t'.rows == rows && t'.height == t.height &&
              t'.cursor == if t.cursor > |rows| - 1 then Max(0, |rows| - 1) else t.cursor
            case SetHeight(height) =>
              t'.rows == t.rows && t'.height == height - HEADER_HEIGHT && t'.cursor == t.cursor
  {
    match op
    case Move(delta) => RefreshedKeeps(t.(cursor := GoClamp(t.cursor + delta, 0, Max(0, |t.rows| - 1))));
    case Ensure => RefreshedKeeps(t);
    case SetCursor(n) => RefreshedKeeps(t.(cursor := GoClamp(n, 0, Max(0, |t.rows| - 1))));
    case SetRows(rows) =>
      RefreshedKeeps(t.(rows := rows, cursor := if t.cursor > |rows| - 1 then Max(0, |rows| - 1) else t.cursor));
    case SetHeight(height) => RefreshedKeeps(t.(height := height - HEADER_HEIGHT));
    hide Window, Refreshed, Offset;
  }

  lemma {:induction false} RefreshedKeeps<Row>(t: Table<Row>)
    ensures var t' := Refreshed(t);
            t' == t.(start := t'.start, end := t'.end, content := t'.content, y := t'.y)
  {
  }
}
