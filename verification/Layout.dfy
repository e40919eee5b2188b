/**
  The pane layout (internal/layout/layout.go).

  Every pane carries flags (focused, selected, borderless) and a size, and the layout
  caches the screen rectangle of every pane. All of these are updated in place by many
  small methods. Core is what the user decided: which panes exist in which order, where
  the focus is, what is zoomed or visible, and the screen size. Canonical says that all
  flags, sizes and rectangles are what Core alone determines. Every method keeps
  Canonical and changes Core as its specification function says.
 */
module Layouts {
  import opened Options
  import opened Windows

  const STATUS_BAR_HEIGHT := 1

  datatype Kind = Resource | Terminal

  datatype Pane = Pane(id: int, kind: Kind, focused: bool, selected: bool, borderless: bool, w: int, h: int)

  datatype Orientation = Vertical | Horizontal

  datatype Target = Resources | Details

  datatype Zoom = ZoomNone | ZoomSplit | ZoomDetail

  datatype RectKind = SplitRect(idx: int) | DetailRect | LogRect

  datatype Rect = Rect(x: int, y: int, w: int, h: int, kind: RectKind)

  /** Which pane it is, without its flags. */
  datatype Tag = Tag(id: int, kind: Kind)

  datatype Core = Core(
    tags: seq<Tag>, focus: int, target: Target, rightVisible: bool,
    splitZoomed: bool, detailZoomed: bool, orientation: Orientation,
    width: int, height: int, logMode: bool)

  // ---- what Core determines ----

  /** The source language's division, which truncates toward zero. */
  function TruncDiv(a: int, b: int): int
    requires b > 0
  {
    if a >= 0 then a / b else -((-a) / b)
  }

  function EffectiveZoom(c: Core): Zoom {
    if c.detailZoomed && c.rightVisible then ZoomDetail else if c.splitZoomed then ZoomSplit else ZoomNone
  }

  /** Primary and secondary extent: widths when vertical, heights when horizontal. */
  function PanelSizes(c: Core): (int, int) {
    var whole := if c.orientation.Horizontal? then c.height else c.width;
    if !c.rightVisible then (whole, 0) else (TruncDiv(whole, 2), whole - TruncDiv(whole, 2))
  }

  function Share(total: int, n: int, i: int): int
    requires n > 0
  {
    if i == n - 1 then total - TruncDiv(total, n) * (n - 1) else TruncDiv(total, n)
  }

  function SplitSize(c: Core, i: int): (int, int)
    requires 0 <= i < |c.tags|
  {
    match EffectiveZoom(c)
    case ZoomDetail => (0, 0)
    case ZoomSplit => if i == c.focus then (c.width, c.height + STATUS_BAR_HEIGHT) else (0, 0)
    case ZoomNone =>
      if c.orientation.Horizontal? then (Share(c.width, |c.tags|, i), PanelSizes(c).0)
      else (PanelSizes(c).0, Share(c.height, |c.tags|, i))
  }

  predicate DetailOwnsInput(c: Core) { c.target.Details? && c.rightVisible }

  function PaneOf(c: Core, i: int): Pane
    requires 0 <= i < |c.tags|
  {
    Pane(c.tags[i].id, c.tags[i].kind,
         i == c.focus && !DetailOwnsInput(c),
         i == c.focus && c.tags[i].kind.Resource?,
         i == c.focus && c.splitZoomed,
         SplitSize(c, i).0, SplitSize(c, i).1)
  }

  function Panes(c: Core): (ps: seq<Pane>)
    ensures |ps| == |c.tags|
    ensures forall i :: 0 <= i < |ps| ==> ps[i] == PaneOf(c, i)
  {
    seq(|c.tags|, i requires 0 <= i < |c.tags| => PaneOf(c, i))
  }

  function DetailKind(c: Core): RectKind { if c.logMode then LogRect else DetailRect }

  function SplitRectAt(c: Core, i: int): Rect
    requires 0 <= i < |c.tags|
  {
    var n := |c.tags|;
    if c.orientation.Horizontal? then
      Rect(TruncDiv(c.width, n) * i, 0, Share(c.width, n, i), PanelSizes(c).0, SplitRect(i))
    else
      Rect(0, TruncDiv(c.height, n) * i, PanelSizes(c).0, Share(c.height, n, i), SplitRect(i))
  }

  function PanelRect(c: Core): Rect {
    var (first, second) := PanelSizes(c);
    if c.orientation.Horizontal? then Rect(0, first, c.width, second, DetailKind(c))
    else Rect(first, 0, second, c.height, DetailKind(c))
  }

  function SplitRects(c: Core): (rs: seq<Rect>)
    ensures |rs| == |c.tags|
  {
    seq(|c.tags|, i requires 0 <= i < |c.tags| => SplitRectAt(c, i))
  }

  function Rects(c: Core): seq<Rect> {
    if |c.tags| == 0 || c.width <= 0 || c.height <= 0 then []
    else match EffectiveZoom(c)
      case ZoomDetail => [Rect(0, 0, c.width, c.height, DetailKind(c))]
      case ZoomSplit => [Rect(0, 0, c.width, c.height, SplitRect(c.focus))]
      case ZoomNone => SplitRects(c) + if c.rightVisible then [PanelRect(c)] else []
  }

  /** What every run of operations keeps: the focus is a pane, and detail focus and the
      zooms are only set where they mean something. */
  predicate CoreOk(c: Core) {
    && (if |c.tags| == 0 then c.focus == 0 else 0 <= c.focus < |c.tags|)
    && (c.target.Details? ==> c.rightVisible && |c.tags| > 0)
    && (c.detailZoomed ==> c.rightVisible)
    && (c.splitZoomed ==> |c.tags| > 0)
  }

  // ---- operations ----

  datatype Op =
    | Add(tag: Tag)
    | Close
    | FocusNext
    | FocusPrev
    | FocusAt(idx: int)
    | Move(delta: int)
    | ShowRight
    | HideRight
    | SetLogMode(on: bool)
    | FocusDetails
    | FocusResources
    | ToggleZoomSplit
    | ToggleZoomDetail
    | ToggleOrientation
    | UnzoomAll
    | Resize(width: int, height: int)

  function InsertAt(c: Core): nat
    requires CoreOk(c)
  {
    if |c.tags| == 0 then 0 else c.focus + 1
  }

  function Apply(c: Core, op: Op): Core
    requires CoreOk(c)
  {
    var n := |c.tags|;
    match op
    case Add(tag) =>
      c.(tags := c.tags[..InsertAt(c)] + [tag] + c.tags[InsertAt(c)..], focus := InsertAt(c), target := Resources)
    case Close =>
      if n <= 1 then c
      else c.(tags := c.tags[..c.focus] + c.tags[c.focus + 1..],
              focus := if c.focus == n - 1 then n - 2 else c.focus, target := Resources)
    case FocusNext => if n == 0 then c else c.(focus := (c.focus + 1) % n, target := Resources)
    case FocusPrev => if n == 0 then c else c.(focus := (c.focus - 1 + n) % n, target := Resources)
    case FocusAt(idx) => if 0 <= idx < n then c.(focus := idx, target := Resources) else c
    case Move(delta) =>
      var to := c.focus + delta;
      if 0 <= to < n then
        c.(tags := c.tags[c.focus := c.tags[to]][to := c.tags[c.focus]], focus := to, target := Resources)
      else c
    case ShowRight => c.(rightVisible := true)
    case HideRight => c.(rightVisible := false, detailZoomed := false, target := Resources)
    case SetLogMode(on) => c.(logMode := on)
    case FocusDetails => if c.rightVisible && n > 0 then c.(target := Details) else c
    case FocusResources => c.(target := Resources)
    case ToggleZoomSplit => c.(splitZoomed := !c.splitZoomed && n > 0)
    case ToggleZoomDetail => c.(detailZoomed := !c.detailZoomed && c.rightVisible)
    case ToggleOrientation => c.(orientation := if c.orientation.Vertical? then Horizontal else Vertical)
    case UnzoomAll => c.(splitZoomed := false, detailZoomed := false)
    case Resize(w, h) => c.(width := w, height := h - STATUS_BAR_HEIGHT)
  }

  lemma ApplyOk(c: Core, op: Op)
    requires CoreOk(c)
    ensures CoreOk(Apply(c, op))
  {
    if op.FocusNext? && |c.tags| > 0 {
      assert 0 <= (c.focus + 1) % |c.tags| < |c.tags|;
    } else if op.FocusPrev? && |c.tags| > 0 {
      assert 0 <= (c.focus - 1 + |c.tags|) % |c.tags| < |c.tags|;
    }
  }

  function Start(width: int, height: int): Core {
    Core([], 0, Resources, false, false, false, Vertical, width, height - STATUS_BAR_HEIGHT, false)
  }

  ghost function Run(c: Core, ops: seq<Op>): Core
    requires CoreOk(c)
    decreases |ops|
  {
    if ops == [] then c
    else
      ApplyOk(c, ops[0]);
      Run(Apply(c, ops[0]), ops[1..])
  }

  lemma {:induction false} RunStep(c: Core, ops: seq<Op>, i: nat)
    requires CoreOk(c) && i < |ops|
    ensures CoreOk(Apply(c, ops[i])) && Run(c, ops[i..]) == Run(Apply(c, ops[i]), ops[i + 1..])
  {
    ApplyOk(c, ops[i]);
    assert ops[i..][1..] == ops[i + 1..];
  }

  lemma {:induction false} RunStop(c: Core, ops: seq<Op>)
    requires CoreOk(c) && ops == []
    ensures Run(c, ops) == c
  {
  }

  /** What every run of operations keeps. Layout.Perform says of the panes of an object what
      this means for their flags and sizes. */
  lemma {:induction false} RunKeepsOk(c: Core, ops: seq<Op>)
    requires CoreOk(c)
    ensures CoreOk(Run(c, ops))
    decreases |ops|
  {
    if ops != [] {
      ApplyOk(c, ops[0]);
      RunKeepsOk(Apply(c, ops[0]), ops[1..]);
    }
  }

  /** Moving the focus forward and back restores the focus; the panel loses the input. */
  lemma NextThenPrev(c: Core)
    requires CoreOk(c)
    ensures CoreOk(Apply(c, FocusNext))
    ensures Apply(Apply(c, FocusNext), FocusPrev) == if |c.tags| == 0 then c else c.(target := Resources)
  {
    ApplyOk(c, FocusNext);
    var n := |c.tags|;
    if n > 0 {
      ModOnce(c.focus + 1, n);
      var f := (c.focus + 1) % n;
      ModOnce(f - 1 + n, n);
    }
  }

  // ---- what an operation does, pane by pane ----

  /** Everything but the panes, the focus and the input is as it was. */
  predicate OnlyFocus(c: Core, c': Core) { c' == c.(tags := c'.tags, focus := c'.focus, target := c'.target) }

  /** The focus is on pane `to`, with the input on the panes, and the panes are the same. */
  predicate Focuses(c: Core, c': Core, to: int) { c' == c.(focus := to, target := Resources) }

  ghost predicate Did(c: Core, op: Op, c': Core)
    requires CoreOk(c)
  {
    var n, f, f' := |c.tags|, c.focus, c'.focus;
    match op
    case Add(tag) =>
      && OnlyFocus(c, c') && c'.target.Resources? && |c'.tags| == n + 1
      && f' == (if n == 0 then 0 else f + 1) && c'.tags[f'] == tag
      && forall k :: 0 <= k < n ==> c.tags[k] == c'.tags[if k < f' then k else k + 1]
    case Close =>
      if n <= 1 then c' == c
      else
        && OnlyFocus(c, c') && c'.target.Resources? && |c'.tags| == n - 1
        && f' == (if f < n - 1 then f else f - 1)
        && forall k :: 0 <= k < n - 1 ==> c'.tags[k] == c.tags[if k < f then k else k + 1]
    case FocusNext => if n == 0 then c' == c else Focuses(c, c', if f == n - 1 then 0 else f + 1)
    case FocusPrev => if n == 0 then c' == c else Focuses(c, c', if f == 0 then n - 1 else f - 1)
    case FocusAt(idx) => if 0 <= idx < n then Focuses(c, c', idx) else c' == c
    case Move(delta) =>
      if 0 <= f + delta < n then
        && OnlyFocus(c, c') && c'.target.Resources? && |c'.tags| == n
        && f' == f + delta && c'.tags[f'] == c.tags[f] && c'.tags[f] == c.tags[f']
        && forall k :: 0 <= k < n && k != f && k != f' ==> c'.tags[k] == c.tags[k]
      else c' == c
    case ShowRight => c' == c.(rightVisible := true)
    case HideRight => c' == c.(rightVisible := false, detailZoomed := false, target := Resources)
    case SetLogMode(on) => c' == c.(logMode := on)
    case FocusDetails => c' == if c.rightVisible && n > 0 then c.(target := Details) else c
    case FocusResources => c' == c.(target := Resources)
    case ToggleZoomSplit => c' == c.(splitZoomed := n > 0 && !c.splitZoomed)
    case ToggleZoomDetail => c' == c.(detailZoomed := c.rightVisible && !c.detailZoomed)
    case ToggleOrientation => c' == c.(orientation := c'.orientation) && c'.orientation != c.orientation
    case UnzoomAll => c' == c.(splitZoomed := false, detailZoomed := false)
    case Resize(width, height) => c' == c.(width := width, height := height - STATUS_BAR_HEIGHT)
  }

  lemma {:induction false} PanesChange(c: Core, op: Op)
    requires CoreOk(c) && (op.Add? || op.Close? || op.Move?)
    ensures Did(c, op, Apply(c, op))
  {
  }

  lemma {:induction false} FocusSteps(c: Core, op: Op)
    requires CoreOk(c) && (op.FocusNext? || op.FocusPrev?)
    ensures Did(c, op, Apply(c, op))
  {
    if |c.tags| > 0 {
      ModOnce(if op.FocusNext? then c.focus + 1 else c.focus - 1 + |c.tags|, |c.tags|);
    }
  }

  /** Main result on operations: each does to the panes, one by one, what Did says. */
  lemma {:induction false} OpDoes(c: Core, op: Op)
    requires CoreOk(c)
    ensures Did(c, op, Apply(c, op))
  {
    match op
    case Add(_) => hide *; PanesChange(c, op);
    case Close => hide *; PanesChange(c, op);
    case Move(_) => hide *; PanesChange(c, op);
    case FocusNext => hide *; FocusSteps(c, op);
    case FocusPrev => hide *; FocusSteps(c, op);
    case _ =>
  }

  /** The operation that takes `op` back, where there is one. */
  function Undo(c: Core, op: Op): Option<Op> {
    match op
    case Add(_) => if |c.tags| > 0 then Some(Close) else None
    case FocusNext => Some(FocusPrev)
    case FocusPrev => Some(FocusNext)
    case Move(delta) => if 0 <= c.focus + delta < |c.tags| then Some(Move(-delta)) else None
    case ToggleZoomSplit => Some(ToggleZoomSplit)
    case ToggleZoomDetail => Some(ToggleZoomDetail)
    case ToggleOrientation => Some(ToggleOrientation)
    case _ => None
  }

  /** It restores the layout, but for the input, which the panes get, and for the focus after
      a pane has come and gone, which is then on the pane that took its place. */
  lemma {:induction false} UndoRestores(c: Core, op: Op)
    requires CoreOk(c) && Undo(c, op).Some?
    ensures CoreOk(Apply(c, op))
    ensures var c' := Apply(Apply(c, op), Undo(c, op).value);
            && c' == c.(target := c'.target, focus := c'.focus)
            && (!op.Add? ==> c'.focus == c.focus)
            && (op.Add? ==> c'.focus == if c.focus + 1 < |c.tags| then c.focus + 1 else c.focus)
  {
    ApplyOk(c, op);
    var c1 := Apply(c, op);
    OpDoes(c, op);
    OpDoes(c1, Undo(c, op).value);
    hide Apply;
    if op.Add? {
      AddClosed(c, op.tag, c1, Apply(c1, Close));
    } else if op.Move? {
      MovedBack(c, op.delta, c1, Apply(c1, Move(-op.delta)));
    }
  }

  lemma {:induction false} AddClosed(c: Core, tag: Tag, c1: Core, c2: Core)
    requires CoreOk(c) && CoreOk(c1) && |c.tags| > 0 && Did(c, Add(tag), c1) && Did(c1, Close, c2)
    ensures c2 == c.(target := Resources, focus := if c.focus + 1 < |c.tags| then c.focus + 1 else c.focus)
  {
    assert c2.tags == c.tags;
  }

  lemma {:induction false} MovedBack(c: Core, delta: int, c1: Core, c2: Core)
    requires CoreOk(c) && CoreOk(c1) && 0 <= c.focus + delta < |c.tags|
    requires Did(c, Move(delta), c1) && Did(c1, Move(-delta), c2)
    ensures c2 == c.(target := Resources)
  {
    assert c2.tags == c.tags;
  }

  // ---- where things are ----

  /** Panes in order from the near edge, next to one another and as wide across as the area
      has left beside the panel; the panel, if there is one, beyond them. */
  ghost predicate InOrder(c: Core, rs: seq<Rect>) {
    var n, across := |c.tags|, c.orientation.Horizontal?;
    && |rs| == n + (if c.rightVisible then 1 else 0)
    && (forall i :: 0 <= i < n ==> rs[i].kind == SplitRect(i))
    && (forall i :: 0 <= i < n - 1 ==>
          if across then rs[i].x + rs[i].w == rs[i + 1].x && rs[i].w == rs[0].w
          else rs[i].y + rs[i].h == rs[i + 1].y && rs[i].h == rs[0].h)
    && (forall i :: 0 <= i < n ==>
          if across then rs[i].y == 0 && rs[i].h == rs[0].h else rs[i].x == 0 && rs[i].w == rs[0].w)
    && (c.rightVisible ==>
          && rs[n].kind == (if c.logMode then LogRect else DetailRect)
          && if across then rs[n].x == 0 && rs[n].y == rs[0].h == c.height / 2
             else rs[n].y == 0 && rs[n].x == rs[0].w == c.width / 2)
  }

  /** Main result on the orientation: without a zoom the panes stand side by side when it is
      horizontal, with the panel below, and one above the other when it is vertical, with the
      panel on the right; a zoom leaves one rectangle, that of what is zoomed. */
  lemma {:induction false} RectsInOrder(c: Core)
    requires CoreOk(c) && |c.tags| > 0 && c.width > 0 && c.height > 0
    ensures if c.detailZoomed then
              |Rects(c)| == 1 && Rects(c)[0].kind == (if c.logMode then LogRect else DetailRect)
            else if c.splitZoomed then |Rects(c)| == 1 && Rects(c)[0].kind == SplitRect(c.focus)
            else InOrder(c, Rects(c))
  {
    if !c.detailZoomed && !c.splitZoomed {
      var n := |c.tags|;
      var s := TruncDiv(if c.orientation.Horizontal? then c.width else c.height, n);
      forall i | 0 <= i < n - 1 ensures s * i + s == s * (i + 1) {
      }
      hide TruncDiv;
      HalfIs(c);
    }
  }

  lemma {:induction false} HalfIs(c: Core)
    requires c.width > 0 && c.height > 0
    ensures TruncDiv(c.width, 2) == c.width / 2 && TruncDiv(c.height, 2) == c.height / 2
  {
  }

  // ---- the rectangles tile the pane area ----

  predicate In(r: Rect, x: int, y: int) { r.x <= x < r.x + r.w && r.y <= y < r.y + r.h }

  lemma Steps(s: int, i: int, j: int)
    requires s >= 0 && i < j
    ensures s * i + s <= s * j
  {
    assert s * j == s * (i + 1) + s * (j - i - 1);
  }

  /** The segments [s*i, s*i + share) cut [0, total) into n pieces. */
  lemma SegmentsDisjoint(total: int, n: int, i: int, j: int, x: int)
    requires n > 0 && total > 0 && 0 <= i < n && 0 <= j < n
    requires TruncDiv(total, n) * i <= x < TruncDiv(total, n) * i + Share(total, n, i)
    requires TruncDiv(total, n) * j <= x < TruncDiv(total, n) * j + Share(total, n, j)
    ensures i == j
  {
    var s := TruncDiv(total, n);
    if i < j {
      Steps(s, i, j);
    } else if j < i {
      Steps(s, j, i);
    }
  }

  lemma ShareFits(total: int, n: int)
    requires n > 0 && total > 0
    ensures 0 <= TruncDiv(total, n) && TruncDiv(total, n) * (n - 1) + TruncDiv(total, n) <= total
  {
    DivBounds(total, n);
    OneLess(total / n, n);
  }

  lemma OneLess(s: int, n: int)
    ensures s * (n - 1) + s == n * s
  {
  }

  lemma DivBounds(x: int, s: int)
    requires s > 0 && x >= 0
    ensures 0 <= x / s && s * (x / s) <= x < s * (x / s) + s
  {
    assert x == s * (x / s) + x % s;
  }

  lemma SegmentInside(total: int, n: int, i: int)
    requires n > 0 && total > 0 && 0 <= i < n
    ensures 0 <= TruncDiv(total, n) * i
    ensures TruncDiv(total, n) * i + Share(total, n, i) <= total
    ensures Share(total, n, i) >= 0
  {
    ShareFits(total, n);
    hide TruncDiv;
    var s := TruncDiv(total, n);
    if i > 0 {
      Steps(s, 0, i);
    }
    if i < n - 1 {
      Steps(s, i, n - 1);
    }
  }

  function Segment(total: int, n: int, x: int): int
    requires n > 0 && total > 0 && 0 <= x < total
  {
    var s := TruncDiv(total, n);
    if s == 0 || x / s >= n - 1 then n - 1 else x / s
  }

  lemma SegmentFound(total: int, n: int, x: int)
    requires n > 0 && total > 0 && 0 <= x < total
    ensures var i := Segment(total, n, x);
            && 0 <= i < n
            && TruncDiv(total, n) * i <= x < TruncDiv(total, n) * i + Share(total, n, i)
  {
    ShareFits(total, n);
    hide TruncDiv;
    var s := TruncDiv(total, n);
    if s > 0 {
      DivBounds(x, s);
      var q := x / s;
      if q > n - 1 {
        Steps(s, n - 1, q);
      }
    }
  }

  predicate Drawable(c: Core) { CoreOk(c) && |c.tags| > 0 && c.width > 0 && c.height > 0 }

  lemma RectAt(c: Core, k: int)
    requires Drawable(c) && EffectiveZoom(c).ZoomNone? && 0 <= k < |Rects(c)|
    ensures Rects(c)[k] == if k < |c.tags| then SplitRectAt(c, k) else PanelRect(c)
  {
  }

  lemma OnlyOneRect(c: Core, x: int, y: int, j: int, k: int)
    requires Drawable(c) && 0 <= j < |Rects(c)| && 0 <= k < |Rects(c)|
    requires In(Rects(c)[j], x, y) && In(Rects(c)[k], x, y)
    ensures j == k
  {
    if EffectiveZoom(c).ZoomNone? {
      RectAt(c, j);
      RectAt(c, k);
      var n := |c.tags|;
      if j < n && k < n {
        if c.orientation.Horizontal? {
          SegmentsDisjoint(c.width, n, j, k, x);
        } else {
          SegmentsDisjoint(c.height, n, j, k, y);
        }
      }
    }
  }

  lemma RectInArea(c: Core, x: int, y: int, k: int)
    requires Drawable(c) && 0 <= k < |Rects(c)| && In(Rects(c)[k], x, y)
    ensures 0 <= x < c.width && 0 <= y < c.height
  {
    if EffectiveZoom(c).ZoomNone? {
      RectAt(c, k);
      if k < |c.tags| {
        SegmentInside(c.width, |c.tags|, k);
        SegmentInside(c.height, |c.tags|, k);
      }
    }
  }

  /** The rectangle over a cell of the pane area. */
  function Locate(c: Core, x: int, y: int): int
    requires Drawable(c) && 0 <= x < c.width && 0 <= y < c.height
  {
    if !EffectiveZoom(c).ZoomNone? then 0
    else if c.orientation.Horizontal? then
      if y < PanelSizes(c).0 then Segment(c.width, |c.tags|, x) else |c.tags|
    else
      if x < PanelSizes(c).0 then Segment(c.height, |c.tags|, y) else |c.tags|
  }

  /** Main result on geometry: in every zoom and orientation the rectangles tile the pane
      area. Every cell of the area is in exactly one, and no other cell is in any. */
  lemma RectsTile(c: Core, x: int, y: int)
    requires Drawable(c)
    ensures 0 <= x < c.width && 0 <= y < c.height <==>
            exists k :: 0 <= k < |Rects(c)| && In(Rects(c)[k], x, y)
    ensures forall j, k :: 0 <= j < |Rects(c)| && 0 <= k < |Rects(c)| ==>
              In(Rects(c)[j], x, y) && In(Rects(c)[k], x, y) ==> j == k
  {
    if 0 <= x < c.width && 0 <= y < c.height {
      var k := Locate(c, x, y);
      if EffectiveZoom(c).ZoomNone? {
        SegmentFound(c.width, |c.tags|, x);
        SegmentFound(c.height, |c.tags|, y);
        assert 0 <= k < |Rects(c)|;
        RectAt(c, k);
      }
      assert In(Rects(c)[k], x, y);
    } else {
      forall k | 0 <= k < |Rects(c)| ensures !In(Rects(c)[k], x, y) {
        if In(Rects(c)[k], x, y) {
          RectInArea(c, x, y, k);
        }
      }
    }
    forall j, k | 0 <= j < |Rects(c)| && 0 <= k < |Rects(c)| && In(Rects(c)[j], x, y) && In(Rects(c)[k], x, y)
      ensures j == k
    {
      OnlyOneRect(c, x, y, j, k);
    }
  }

  /** `r` is the only rectangle over a cell, and every cell of the pane area has one. */
  ghost predicate PaneOver(c: Core, x: int, y: int, r: Rect, ok: bool) {
    && (ok <==> 0 <= x < c.width && 0 <= y < c.height)
    && (ok ==> forall k :: 0 <= k < |Rects(c)| && In(Rects(c)[k], x, y) ==> Rects(c)[k] == r)
  }

  /** Outside the zooms a pane is given exactly the size of its rectangle. */
  lemma SizesMatchRects(c: Core, i: int)
    requires Drawable(c) && EffectiveZoom(c).ZoomNone? && 0 <= i < |c.tags|
    ensures i < |Rects(c)| && Rects(c)[i].kind == SplitRect(i)
    ensures Panes(c)[i].w == Rects(c)[i].w && Panes(c)[i].h == Rects(c)[i].h
  {
    RectAt(c, i);
  }

  // ---- the layout object ----

  class Layout {
    var splits: seq<Pane>
    var focusIdx: int
    var rightVisible: bool
    var focusTarget: Target
    var splitZoomed: bool
    var detailZoomed: bool
    var orientation: Orientation
    var width: int
    var height: int
    var logMode: bool
    var paneRects: seq<Rect>

    function State(): (c: Core)
      reads this
      ensures c.focus == focusIdx && c.target == focusTarget && c.rightVisible == rightVisible
      ensures c.splitZoomed == splitZoomed && c.detailZoomed == detailZoomed && c.orientation == orientation
      ensures c.width == width && c.height == height && c.logMode == logMode && c.tags == Tags(splits)
    {
      Core(Tags(splits), focusIdx, focusTarget, rightVisible, splitZoomed, detailZoomed, orientation, width, height,
           logMode)
    }

    ghost predicate Canonical()
      reads this
    {
      CoreOk(State()) && splits == Panes(State()) && paneRects == Rects(State())
    }

    constructor (width: int, height: int)
      ensures Canonical() && State() == Start(width, height)
    {
      splits, focusIdx, rightVisible, focusTarget := [], 0, false, Resources;
      splitZoomed, detailZoomed, orientation := false, false, Vertical;
      this.width, this.height, logMode := width, height - STATUS_BAR_HEIGHT, false;
      paneRects := [];
    }

    // ---- shared steps ----

    /** Blurs every pane but the focused one, and gives that one the input, or only the
        cursor while the detail panel has the input. */
    method ReconcileFocus()
      requires CoreOk(State())
      modifies `splits
      ensures splits == Reconciled(old(splits), State())
    {
      ghost var c, before := State(), splits;
      var i := 0;
      while i < |splits|
        invariant 0 <= i <= |splits| == |before|
        invariant forall k :: 0 <= k < i && k != focusIdx ==>
                  splits[k] == before[k].(focused := false, selected := false)
        invariant forall k :: (i <= k < |splits| || k == focusIdx) && 0 <= k < |splits| ==> splits[k] == before[k]
      {
        if i != focusIdx {
          splits := splits[i := splits[i].(focused := false, selected := false)];
        }
        i := i + 1;
      }
      if |splits| > 0 {
        var p := splits[focusIdx];
        var input := !(focusTarget.Details? && rightVisible);
        splits := splits[focusIdx := p.(focused := input, selected := p.kind.Resource?)];
      }
    }

    method SetBorderless(i: int, b: bool)
      requires 0 <= i < |splits|
      modifies `splits
      ensures splits == old(splits)[i := old(splits)[i].(borderless := b)]
    {
      splits := splits[i := splits[i].(borderless := b)];
    }

    /** The sizes by the source's own arithmetic, a loop for every zoom and orientation. */
    method RecalcSizes()
      requires CoreOk(State())
      modifies `splits, `paneRects
      ensures State() == old(State())
      ensures splits == Resized(old(splits), State())
      ensures paneRects == Rects(State())
    {
      ghost var c, before := State(), splits;
      var n := |splits|;
      if n == 0 {
        RebuildPaneRects();
        return;
      }
      match EffectiveZoom(State()) {
        case ZoomDetail => SizeZoomed(-1);
        case ZoomSplit => SizeZoomed(focusIdx);
        case ZoomNone =>
          var (first, _) := PanelSizes(State());
          if orientation.Horizontal? {
            SizeColumns(first);
          } else {
            SizeRows(first);
          }
      }
      assert splits == Resized(before, c);
      RebuildPaneRects();
    }

    method SetSize(i: int, w: int, h: int)
      requires 0 <= i < |splits|
      modifies `splits
      ensures splits == old(splits)[i := old(splits)[i].(w := w, h := h)] && Tags(splits) == old(Tags(splits))
    {
      TagsKept(splits, i, splits[i].(w := w, h := h));
      splits := splits[i := splits[i].(w := w, h := h)];
    }

    /** One split, if any, covers the screen and its status-bar row; the others get nothing. */
    method SizeZoomed(full: int)
      modifies `splits
      ensures |splits| == |old(splits)| && State() == old(State())
      ensures forall k :: 0 <= k < |splits| ==>
                splits[k] == if k == full then old(splits)[k].(w := width, h := height + STATUS_BAR_HEIGHT)
                  else old(splits)[k].(w := 0, h := 0)
    {
      ghost var c, before := State(), splits;
      var i := 0;
      while i < |splits|
        invariant 0 <= i <= |splits| == |before| && State() == c
        invariant forall k :: 0 <= k < i ==>
                    splits[k] == if k == full then before[k].(w := width, h := height + STATUS_BAR_HEIGHT)
                      else before[k].(w := 0, h := 0)
        invariant forall k :: i <= k < |splits| ==> splits[k] == before[k]
      {
        if i == full {
          SetSize(i, width, height + STATUS_BAR_HEIGHT);
        } else {
          SetSize(i, 0, 0);
        }
        i := i + 1;
      }
    }

    /** Splits side by side, `topHeight` high; the last one takes what is left over. */
    method SizeColumns(topHeight: int)
      requires |splits| > 0
      modifies `splits
      ensures |splits| == |old(splits)| && State() == old(State())
      ensures forall k :: 0 <= k < |splits| ==>
              splits[k] == old(splits)[k].(w := Share(width, |splits|, k), h := topHeight)
    {
      ghost var c, before := State(), splits;
      var n := |splits|;
      var splitWidth := TruncDiv(width, n);
      var i := 0;
      while i < n
        invariant 0 <= i <= n == |splits| == |before| && State() == c
        invariant forall k :: 0 <= k < i ==> splits[k] == before[k].(w := Share(width, n, k), h := topHeight)
        invariant forall k :: i <= k < n ==> splits[k] == before[k]
      {
        var w := splitWidth;
        if i == n - 1 {
          w := width - splitWidth * (n - 1);
        }
        SetSize(i, w, topHeight);
        i := i + 1;
      }
    }

    /** Splits on top of each other, `leftWidth` wide. */
    method SizeRows(leftWidth: int)
      requires |splits| > 0
      modifies `splits
      ensures |splits| == |old(splits)| && State() == old(State())
      ensures forall k :: 0 <= k < |splits| ==>
              splits[k] == old(splits)[k].(w := leftWidth, h := Share(height, |splits|, k))
    {
      ghost var c, before := State(), splits;
      var n := |splits|;
      var splitHeight := TruncDiv(height, n);
      var i := 0;
      while i < n
        invariant 0 <= i <= n == |splits| == |before| && State() == c
        invariant forall k :: 0 <= k < i ==> splits[k] == before[k].(w := leftWidth, h := Share(height, n, k))
        invariant forall k :: i <= k < n ==> splits[k] == before[k]
      {
        var h := splitHeight;
        if i == n - 1 {
          h := height - splitHeight * (n - 1);
        }
        SetSize(i, leftWidth, h);
        i := i + 1;
      }
    }

    method RebuildPaneRects()
      requires CoreOk(State())
      modifies `paneRects
      ensures paneRects == Rects(State())
    {
      paneRects := [];
      var n := |splits|;
      if n == 0 || width <= 0 || height <= 0 {
        return;
      }
      var kind := if logMode then LogRect else DetailRect;
      match EffectiveZoom(State()) {
        case ZoomDetail => paneRects := [Rect(0, 0, width, height, kind)];
        case ZoomSplit => paneRects := [Rect(0, 0, width, height, SplitRect(focusIdx))];
        case ZoomNone =>
          var (first, second) := PanelSizes(State());
          var share := TruncDiv(if orientation.Horizontal? then width else height, n);
          var i := 0;
          while i < n
            invariant 0 <= i <= n == |splits| == |State().tags| && |paneRects| == i
            invariant forall k :: 0 <= k < i ==> paneRects[k] == SplitRectAt(State(), k)
          {
            var r;
            if orientation.Horizontal? {
              r := Rect(share * i, 0, if i == n - 1 then width - share * (n - 1) else share, first, SplitRect(i));
            } else {
              r := Rect(0, share * i, first, if i == n - 1 then height - share * (n - 1) else share, SplitRect(i));
            }
            paneRects := paneRects + [r];
            i := i + 1;
          }
          assert paneRects == SplitRects(State());
          if rightVisible {
            var r := if orientation.Horizontal? then Rect(0, first, width, second, kind)
              else Rect(first, 0, second, height, kind);
            paneRects := paneRects + [r];
          }
      }
    }

    /** The borderless flag follows the focus while a split is zoomed. */
    method MoveBorderlessFlag(from: int, to: int)
      requires CoreOk(State()) && 0 <= from < |splits| && 0 <= to < |splits|
      modifies `splits, `paneRects
      ensures State() == old(State())
      ensures if !splitZoomed then splits == old(splits) && paneRects == old(paneRects)
              else && splits == Resized(old(Flagged(splits, from, to)), State())
                   && paneRects == Rects(State())
    {
      if !splitZoomed {
        return;
      }
      TagsKept(splits, from, splits[from].(borderless := false));
      SetBorderless(from, false);
      TagsKept(splits, to, splits[to].(borderless := true));
      SetBorderless(to, true);
      RecalcSizes();
    }

    // ---- operations ----

    /** AddSplit and AddTerminalSplit: `p` is a new pane. */
    method AddSplit(p: Pane)
      requires Canonical() && !p.borderless
      modifies `splits, `focusIdx, `focusTarget, `paneRects
      ensures Canonical() && State() == Apply(old(State()), Add(Tag(p.id, p.kind)))
    {
      ghost var c := State();
      hide SplitSize, Rects, PanelSizes, EffectiveZoom, PaneOf;
      ClearFlag();
      var insertIdx := 0;
      if |splits| > 0 {
        insertIdx := focusIdx + 1;
      }
      InsertPane(insertIdx, p);
      ApplyOk(c, Add(Tag(p.id, p.kind)));
      Settle(Apply(c, Add(Tag(p.id, p.kind))));
    }

    /** The new pane takes the focus, and the resources get the input. */
    method InsertPane(i: nat, p: Pane)
      requires i <= |splits| && !p.borderless && forall k :: 0 <= k < |splits| ==> !splits[k].borderless
      modifies `splits, `focusIdx, `focusTarget
      ensures var c := old(State());
              State() == c.(tags := c.tags[..i] + [Tag(p.id, p.kind)] + c.tags[i..], focus := i, target := Resources)
      ensures forall k :: 0 <= k < |splits| ==> !splits[k].borderless
    {
      TagsInserted(splits, i, p);
      PlainInserted(splits, i, p);
      hide Tags;
      splits := splits[..i] + [p] + splits[i..];
      focusIdx := i;
      focusTarget := Resources;
    }

    /** The pane that had the focus stops being borderless before another takes over. */
    method ClearFlag()
      requires Canonical()
      modifies `splits
      ensures State() == old(State())
      ensures forall i :: 0 <= i < |splits| ==> !splits[i].borderless
    {
      if splitZoomed && |splits| > 0 {
        TagsKept(splits, focusIdx, splits[focusIdx].(borderless := false));
        SetBorderless(focusIdx, false);
      }
    }

    /** The common end of the operations that change the set of panes: no pane is
        borderless on entry. */
    method Settle(ghost c: Core)
      requires State() == c && CoreOk(c) && |splits| > 0 && c.target.Resources?
      requires forall i :: 0 <= i < |splits| ==> !splits[i].borderless
      modifies `splits, `paneRects
      ensures Canonical() && State() == c
    {
      hide SplitSize, Rects;
      ReconcileFocus();
      if splitZoomed {
        SetBorderless(focusIdx, true);
      }
      assert Tags(splits) == c.tags;
      RecalcSizes();
      assert splits == Panes(c);
    }

    /** Returns true when the focused pane is the last one: it is kept, and the program quits. */
    method CloseCurrentSplit() returns (last: bool)
      requires Canonical()
      modifies `splits, `focusIdx, `focusTarget, `paneRects
      ensures Canonical() && State() == Apply(old(State()), Close)
      ensures last <==> |old(splits)| <= 1
    {
      if |splits| <= 1 {
        return true;
      }
      ghost var c, before := State(), splits;
      splits := splits[..focusIdx] + splits[focusIdx + 1..];
      if focusIdx >= |splits| {
        focusIdx := |splits| - 1;
      }
      focusTarget := Resources;
      assert State() == Apply(c, Close);
      assert forall i :: 0 <= i < |splits| ==> splits[i] == before[if i < c.focus then i else i + 1];
      Settle(Apply(c, Close));
      last := false;
    }

    /** The common end of FocusNext, FocusPrev and FocusSplitAt. */
    method Refocus(idx: int)
      requires Canonical() && 0 <= idx < |splits|
      modifies `splits, `focusIdx, `focusTarget, `paneRects
      ensures Canonical() && State() == old(State()).(focus := idx, target := Resources)
    {
      ghost var c, before := State(), splits;
      focusTarget := Resources;
      var oldIdx := focusIdx;
      focusIdx := idx;
      ghost var c' := c.(focus := idx, target := Resources);
      hide SplitSize, Rects;
      SameGeometry(c, c');
      ReconcileFocus();
      assert Tags(splits) == c.tags;
      ghost var reconciled := splits;
      MoveBorderlessFlag(oldIdx, focusIdx);
      assert State() == c';
      RefocusedPanes(before, reconciled, splits, c, c');
    }

    method FocusNext()
      requires Canonical()
      modifies `splits, `focusIdx, `focusTarget, `paneRects
      ensures Canonical() && State() == Apply(old(State()), Op.FocusNext)
    {
      if |splits| == 0 {
        return;
      }
      Refocus((focusIdx + 1) % |splits|);
    }

    method FocusPrev()
      requires Canonical()
      modifies `splits, `focusIdx, `focusTarget, `paneRects
      ensures Canonical() && State() == Apply(old(State()), Op.FocusPrev)
    {
      if |splits| == 0 {
        return;
      }
      Refocus((focusIdx - 1 + |splits|) % |splits|);
    }

    method FocusSplitAt(idx: int)
      requires Canonical()
      modifies `splits, `focusIdx, `focusTarget, `paneRects
      ensures Canonical() && State() == Apply(old(State()), FocusAt(idx))
    {
      if idx < 0 || idx >= |splits| {
        return;
      }
      Refocus(idx);
    }

    method MoveFocusedSplit(delta: int)
      requires Canonical()
      modifies `splits, `focusIdx, `focusTarget, `paneRects
      ensures Canonical() && State() == Apply(old(State()), Move(delta))
    {
      var target := focusIdx + delta;
      if target < 0 || target >= |splits| {
        return;
      }
      ghost var c, before := State(), splits;
      ghost var c' := Apply(c, Move(delta));
      focusTarget := Resources;
      splits := splits[focusIdx := splits[target]][target := splits[focusIdx]];
      focusIdx := target;
      assert Tags(splits) == c'.tags;
      assert forall i :: 0 <= i < |splits| ==> (splits[i].borderless <==> c.splitZoomed && i == target);
      hide SplitSize, Rects;
      ReconcileAndResize();
    }

    method ShowRightPanel()
      requires Canonical()
      modifies `rightVisible, `splits, `paneRects
      ensures Canonical() && State() == Apply(old(State()), ShowRight)
    {
      ghost var c := State();
      rightVisible := true;
      hide SplitSize, Rects;
      RecalcSizes();
      assert splits == Panes(c.(rightVisible := true));
    }

    method HideRightPanel()
      requires Canonical()
      modifies `rightVisible, `detailZoomed, `focusTarget, `splits, `paneRects
      ensures Canonical() && State() == Apply(old(State()), HideRight)
    {
      detailZoomed := false;
      rightVisible := false;
      focusTarget := Resources;
      hide SplitSize, Rects, EffectiveZoom, PanelSizes;
      ReconcileAndResize();
    }

    method ReconcileAndResize()
      requires CoreOk(State())
      requires forall i :: 0 <= i < |splits| ==> (splits[i].borderless <==> splitZoomed && i == focusIdx)
      modifies `splits, `paneRects
      ensures Canonical() && State() == old(State())
    {
      ghost var c := State();
      hide SplitSize, Rects;
      ReconcileFocus();
      assert Tags(splits) == c.tags;
      RecalcSizes();
      assert splits == Panes(c);
    }

    method SetLogModeTo(on: bool)
      requires Canonical()
      modifies `logMode, `paneRects
      ensures Canonical() && State() == Apply(old(State()), SetLogMode(on))
    {
      ghost var c := State();
      hide Rects;
      logMode := on;
      RebuildPaneRects();
      assert splits == Panes(c.(logMode := on));
    }

    method FocusDetails()
      requires Canonical()
      modifies `focusTarget, `splits
      ensures Canonical() && State() == Apply(old(State()), Op.FocusDetails)
    {
      if !rightVisible || |splits| == 0 {
        return;
      }
      Retarget(Details);
    }

    method FocusResources()
      requires Canonical()
      modifies `focusTarget, `splits
      ensures Canonical() && State() == Apply(old(State()), Op.FocusResources)
    {
      Retarget(Resources);
    }

    method Retarget(t: Target)
      requires Canonical() && (t.Details? ==> rightVisible && |splits| > 0)
      modifies `focusTarget, `splits
      ensures Canonical() && State() == old(State()).(target := t)
    {
      ghost var c := State();
      ghost var c' := c.(target := t);
      focusTarget := t;
      TargetGeometry(c, t);
      hide SplitSize, Rects;
      ReconcileFocus();
      assert Tags(splits) == c.tags;
      assert splits == Panes(c');
    }

    method ToggleZoomSplit()
      requires Canonical()
      modifies `splitZoomed, `splits, `paneRects
      ensures Canonical() && State() == Apply(old(State()), Op.ToggleZoomSplit)
    {
      ghost var c := State();
      hide SplitSize, Rects;
      if splitZoomed {
        splitZoomed := false;
        SetBorderless(focusIdx, false);
      } else if |splits| >= 1 {
        splitZoomed := true;
        SetBorderless(focusIdx, true);
      } else {
        return;
      }
      assert Tags(splits) == c.tags;
      RecalcSizes();
      assert splits == Panes(Apply(c, Op.ToggleZoomSplit));
    }

    method ToggleZoomDetail()
      requires Canonical()
      modifies `detailZoomed, `splits, `paneRects
      ensures Canonical() && State() == Apply(old(State()), Op.ToggleZoomDetail)
    {
      ghost var c := State();
      hide SplitSize, Rects;
      if detailZoomed {
        detailZoomed := false;
      } else if rightVisible {
        detailZoomed := true;
      } else {
        return;
      }
      RecalcSizes();
      assert splits == Panes(Apply(c, Op.ToggleZoomDetail));
    }

    method ToggleOrientation()
      requires Canonical()
      modifies `orientation, `splits, `paneRects
      ensures Canonical() && State() == Apply(old(State()), Op.ToggleOrientation)
    {
      ghost var c := State();
      hide SplitSize, Rects;
      orientation := if orientation.Vertical? then Horizontal else Vertical;
      RecalcSizes();
      assert splits == Panes(Apply(c, Op.ToggleOrientation));
    }

    method UnzoomAll()
      requires Canonical()
      modifies `splitZoomed, `detailZoomed, `splits, `paneRects
      ensures Canonical() && State() == Apply(old(State()), Op.UnzoomAll)
    {
      ghost var c := State();
      hide SplitSize, Rects;
      if splitZoomed {
        SetBorderless(focusIdx, false);
      }
      splitZoomed, detailZoomed := false, false;
      assert Tags(splits) == c.tags;
      RecalcSizes();
      assert splits == Panes(Apply(c, Op.UnzoomAll));
    }

    method ResizeTo(w: int, h: int)
      requires Canonical()
      modifies `width, `height, `splits, `paneRects
      ensures Canonical() && State() == Apply(old(State()), Resize(w, h))
    {
      ghost var c := State();
      hide SplitSize, Rects;
      width, height := w, h - STATUS_BAR_HEIGHT;
      RecalcSizes();
      assert splits == Panes(Apply(c, Resize(w, h)));
    }

    /** Any operations, one after the other. */
    method Perform(ops: seq<Op>)
      requires Canonical()
      modifies this
      ensures Canonical() && State() == Run(old(State()), ops)
      ensures FlagsRight()
      ensures EffectiveZoom(State()).ZoomNone? && Drawable(State()) ==> SizesAreRects()
    {
      ghost var c := State();
      hide *;
      CanonicalOk();
      assert ops[0..] == ops;
      var i := 0;
      while i < |ops|
        invariant 0 <= i <= |ops| && Canonical() && CoreOk(c) && CoreOk(State())
        invariant Run(c, ops) == Run(State(), ops[i..])
      {
        RunStep(State(), ops, i);
        PerformOne(ops[i]);
        CanonicalOk();
        i := i + 1;
      }
      RunStop(State(), ops[i..]);
      CanonicalFlags();
    }

    method PerformOne(op: Op)
      requires Canonical()
      modifies this
      ensures Canonical() && CoreOk(old(State())) && State() == Apply(old(State()), op)
    {
      hide *;
      CanonicalOk();
      match op {
        case Add(tag) => AddSplit(Pane(tag.id, tag.kind, false, false, false, 0, 0));
        case Close => var _ := CloseCurrentSplit();
        case FocusNext => FocusNext();
        case FocusPrev => FocusPrev();
        case FocusAt(idx) => FocusSplitAt(idx);
        case Move(delta) => MoveFocusedSplit(delta);
        case ShowRight => ShowRightPanel();
        case HideRight => HideRightPanel();
        case SetLogMode(on) => SetLogModeTo(on);
        case FocusDetails => FocusDetails();
        case FocusResources => FocusResources();
        case ToggleZoomSplit => ToggleZoomSplit();
        case ToggleZoomDetail => ToggleZoomDetail();
        case ToggleOrientation => ToggleOrientation();
        case UnzoomAll => UnzoomAll();
        case Resize(w, h) => ResizeTo(w, h);
      }
    }

    lemma CanonicalOk()
      requires Canonical()
      ensures CoreOk(State())
    {
    }

    /** What the flags of the panes are to each other and to the state. */
    ghost predicate FlagsRight()
      reads this
    {
      && (if |splits| == 0 then focusIdx == 0 && !splitZoomed else 0 <= focusIdx < |splits|)
      && (focusTarget.Details? ==> rightVisible && |splits| > 0) && (detailZoomed ==> rightVisible)
      && (splitZoomed <==> |splits| > 0 && splits[focusIdx].borderless)
      && (forall i :: 0 <= i < |splits| && i != focusIdx ==>
          !splits[i].borderless && !splits[i].focused && !splits[i].selected)
      && (|splits| > 0 ==>
            && (splits[focusIdx].focused <==> focusTarget.Resources?)
            && (splits[focusIdx].selected <==> splits[focusIdx].kind.Resource?))
    }

    /** Each split has the size of the rectangle that stands for it on the screen. */
    ghost predicate SizesAreRects()
      reads this
    {
      |splits| <= |paneRects| &&
      forall i :: 0 <= i < |splits| ==>
        paneRects[i].kind == SplitRect(i) && splits[i].w == paneRects[i].w && splits[i].h == paneRects[i].h
    }

    lemma CanonicalFlags()
      requires Canonical()
      ensures FlagsRight()
      ensures EffectiveZoom(State()).ZoomNone? && Drawable(State()) ==> SizesAreRects()
    {
      var c := State();
      if EffectiveZoom(c).ZoomNone? && Drawable(c) {
        forall i | 0 <= i < |splits|
          ensures i < |Rects(c)| && Rects(c)[i].kind == SplitRect(i)
          ensures splits[i].w == Rects(c)[i].w && splits[i].h == Rects(c)[i].h
        {
          SizesMatchRects(c, i);
        }
        assert |splits| <= |Rects(c)|;
      }
      hide Rects, SplitSize, EffectiveZoom;
    }

    /** The pane under a screen cell. The status-bar row and cells off the screen have none. */
    method PaneAt(x: int, y: int) returns (r: Rect, ok: bool)
      ensures ok <==> exists k :: 0 <= k < |paneRects| && In(paneRects[k], x, y)
      ensures ok ==> r in paneRects && In(r, x, y)
      ensures Canonical() && Drawable(State()) ==> PaneOver(State(), x, y, r, ok)
    {
      if Canonical() && Drawable(State()) {
        RectsTile(State(), x, y);
      }
      hide Canonical, Rects;
      var i := 0;
      while i < |paneRects|
        invariant 0 <= i <= |paneRects|
        invariant forall k :: 0 <= k < i ==> !In(paneRects[k], x, y)
      {
        if In(paneRects[i], x, y) {
          return paneRects[i], true;
        }
        i := i + 1;
      }
      return Rect(0, 0, 0, 0, DetailRect), false;
    }
  }

  /** Moving the focus leaves every pane as the new state determines it. */
  lemma RefocusedPanes(before: seq<Pane>, reconciled: seq<Pane>, after: seq<Pane>, c: Core, c': Core)
    requires CoreOk(c) && CoreOk(c') && |c.tags| > 0 && c' == c.(focus := c'.focus, target := Resources)
    requires before == Panes(c) && reconciled == Reconciled(before, c')
    requires after == if c.splitZoomed then Resized(Flagged(reconciled, c.focus, c'.focus), c') else reconciled
    ensures after == Panes(c')
  {
    SameGeometry(c, c');
    hide SplitSize, Rects;
  }

  lemma PlainInserted(ps: seq<Pane>, i: int, p: Pane)
    requires 0 <= i <= |ps| && !p.borderless && forall k :: 0 <= k < |ps| ==> !ps[k].borderless
    ensures var qs := ps[..i] + [p] + ps[i..]; forall k :: 0 <= k < |qs| ==> !qs[k].borderless
  {
  }

  lemma TagsInserted(ps: seq<Pane>, i: int, p: Pane)
    requires 0 <= i <= |ps|
    ensures Tags(ps[..i] + [p] + ps[i..]) == Tags(ps)[..i] + [Tag(p.id, p.kind)] + Tags(ps)[i..]
  {
  }

  /** Unless a split is zoomed, sizes and rectangles do not depend on the focus. */
  lemma SameGeometry(c: Core, c': Core)
    requires CoreOk(c) && c' == c.(focus := c'.focus, target := c'.target)
    ensures !c.splitZoomed ==>
              Rects(c') == Rects(c) && forall i :: 0 <= i < |c.tags| ==> SplitSize(c', i) == SplitSize(c, i)
  {
    if !c.splitZoomed {
      assert SplitRects(c') == SplitRects(c);
    }
  }

  lemma TargetGeometry(c: Core, t: Target)
    ensures var c' := c.(target := t);
            Rects(c') == Rects(c) && forall i :: 0 <= i < |c.tags| ==> SplitSize(c', i) == SplitSize(c, i)
  {
    assert SplitRects(c.(target := t)) == SplitRects(c);
  }

  function Tags(ps: seq<Pane>): (ts: seq<Tag>)
    ensures |ts| == |ps|
    ensures forall i :: 0 <= i < |ps| ==> ts[i] == Tag(ps[i].id, ps[i].kind)
  {
    seq(|ps|, i requires 0 <= i < |ps| => Tag(ps[i].id, ps[i].kind))
  }

  lemma TagsKept(ps: seq<Pane>, i: int, p: Pane)
    requires 0 <= i < |ps| && p.id == ps[i].id && p.kind == ps[i].kind
    ensures Tags(ps[i := p]) == Tags(ps)
  {
  }

  function Reconciled(ps: seq<Pane>, c: Core): (r: seq<Pane>)
    ensures |r| == |ps|
    ensures forall i :: 0 <= i < |ps| ==>
              r[i] == ps[i].(focused := i == c.focus && !DetailOwnsInput(c),
                             selected := i == c.focus && ps[i].kind.Resource?)
  {
    seq(|ps|, i requires 0 <= i < |ps| =>
      ps[i].(focused := i == c.focus && !DetailOwnsInput(c), selected := i == c.focus && ps[i].kind.Resource?))
  }

  function Resized(ps: seq<Pane>, c: Core): (r: seq<Pane>)
    requires |c.tags| == |ps|
    ensures |r| == |ps|
    ensures forall i :: 0 <= i < |ps| ==> r[i] == ps[i].(w := SplitSize(c, i).0, h := SplitSize(c, i).1)
  {
    seq(|ps|, i requires 0 <= i < |ps| => ps[i].(w := SplitSize(c, i).0, h := SplitSize(c, i).1))
  }

  function Flagged(ps: seq<Pane>, from: int, to: int): (r: seq<Pane>)
    requires 0 <= from < |ps| && 0 <= to < |ps|
    ensures |r| == |ps|
  {
    var cleared := ps[from := ps[from].(borderless := false)];
    cleared[to := cleared[to].(borderless := true)]
  }
}
