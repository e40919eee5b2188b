# aku: verified models of its state-heavy cores

aku is a terminal user interface for Kubernetes. Under its rendering lie several pieces of
state that are kept up to date incrementally, or changed by messages that arrive in any
order. This project models those pieces in Dafny and proves what they are for. Every model
follows the branches of the Go code it cites.

## What is modelled

**Lines and their styles** (`Ansi`, `Split`, `Wrap`, `Highlight`). A line is a sequence of
tokens: cells with a width, SGR sequences (section 8.3.117 of ECMA-48), resets, and other
escape sequences. The one-pass splitter and highlighter of `internal/ui/ansisplit.go` are
methods with their loops; what they mean is stated about the glyphs a terminal shows.

**The log view** (`Ring`, `LogIndex`, `LogWindow`, `LogCaches`, `LogLoops`, `LogSeen`,
`LogColors`, `LogFrames`, `LogViews`, `LogEvictions`, `LogRuns`). A bounded buffer with a
filter, a search and soft wrapping. `Valid` says that every cache equals a rescan, `Fresh`
that the match list does, `Rendered` that the viewport was given the right window; every
method of the view says what it does to each of them.

**The layout** (`Layouts`). `Core` is what the user decided, `Canonical` says that all flags,
sizes and rectangles are what `Core` alone determines. Every method keeps `Canonical` and
changes `Core` as its specification says.

**Protocols** (`Clusters`, `NodeDebug`, `LogStream`, `Debounce`). Each is a transition system:
the handlers are methods of a class, proved equal to specification functions, and a `World`
adds what is in flight and lets any event happen next. The main results hold for every run.
The debouncer's lock is modelled step by step, so that a timer may fire inside the critical
section that creates it.

**Smaller refinements** (`Tables`, `KeyTries`, `Segments`, `Escapes`, `Matches`,
`Manifests`, `Stores`).

`Windows` and `Options` hold arithmetic, windows of sequences, and the option type.

## Where the code does not do what is said of it

The models follow the code. Each deviation has a concrete input or run, and, where what is
said holds of some inputs, the exact condition under which it does.

- The comment at `internal/app/app.go:2719-2722` promises exactly one heartbeat in flight for
  a connected cluster. A teardown and reconnect before the first tick leaves two
  (`Clusters.TwoHeartbeats`). It is exactly one if and only if no context is connected anew
  while an earlier heartbeat is in flight (`Clusters.ExactlyOneBeat`); never fewer, and never
  more than the teardowns allow (`Clusters.RunKeeps`).
- The comment at `internal/app/commands.go:2673-2676` expects a cluster torn down by the
  reconciliation to count as not connected. It still has its client, so its heartbeat is
  armed (`Clusters.AbandonedDial`).
- Closing a lone terminal split while its pre-flight is out drops its metadata and keeps its
  pane; if the pre-flight then reports a pod while the pane is there, the handler dereferences
  a nil client and the pod is lost (`NodeDebug.LoneCloseLosesPod`). A run keeps every pod if
  and only if this does not happen in it (`NodeDebug.NoLeakExactly`).
- An evicting append can leave the selected match past the end of the rebuilt list, and the
  unwrapped view then reads past it: a run from a new view in `LogRuns.StrandSelection`, the
  condition in `LogEvictions.SelectionAfterEviction`. The model records the panic in the field
  `panicked`, and every method that redraws says when it is set.
- `ClearFilter` and a marker that evicts nothing leave the match list as it is
  (`LogRuns.StaleAfterClear`, `LogRuns.StaleAfterMarker`); the methods say exactly when it is
  stale then.
- A new filter shows every line shaped like a marker; a line of that shape that arrives later
  is shown only if the pattern accepts it (`LogRuns.HideSecondMarker`,
  `LogRuns.ShapeMatters`). The ghost field `admitted` tells them apart.
- The notice of dropped lines counts as one row. Where it wraps, the window is further down
  by its extra rows unless it is at the top; there it can hide the selected match and the end
  of the log (`LogRuns.NoticeHidesMatch`), exactly when `LogWindow.SeenExactly` and
  `LogWindow.EndSeenExactly` say.
- `wrapHeight` miscounts some lines with wide cells (`Wrap.WideCellsBreakWrapHeight`); which,
  is said by `Wrap.WrapHeightExact`, and for the row of a column by `Wrap.RowInLineExact`.
- The comment at `internal/ui/detailview.go:452-455` says that a match never spans rows. Both
  of its columns are shifted by the first row's offset, so an end past that row stays past it
  (`Wrap.MatchRunsOn`, `Wrap.EndsInItsRow`).
- `labelsMatch` treats a missing label as an empty value
  (`Manifests.EmptyValueSelectsMissing`, `Manifests.LabelsMatchSuperset`).
- Objects whose names contain slashes can share a cache key across namespaces
  (`Stores.SlashesOverride`, `Stores.BucketsAgreeUnlessOverridden`).
- The escape scan of `internal/highlight/segments.go:35-54` passes over one byte after
  anything that is not an SGR sequence, so a sequence that begins there is plain text, and it
  knows no colons (`Segments.MissedSequence`, `Segments.ScanFindsExactly`).
- The comment at `internal/app/panefooters.go:29-31` says that a resource pane with an empty
  context counts for the startup one. `contextFor` (`internal/app/app.go:488-491`) returns the
  pane's own context, so it counts nowhere (`Clusters.EmptyContextCountsNowhere`).

## Assumptions

- Lines arrive decoded into tokens; a cell has a width of at least one. `ansi.Cut` keeps the
  cells that lie wholly inside its columns. `ansi.Strip` drops sequences that run from an ESC
  to the next letter.
- A regular expression is an arbitrary predicate and an arbitrary list of matches per stripped
  line, characters standing for bytes; the display width of a text is an arbitrary function.
- The viewport height is at least one, as the code assumes. The bubbles viewport clamps its
  offset to what it holds.
- A dial, an API call, an attach or a wait succeeds or fails arbitrarily and takes any time. A
  pod creation that fails has created no pod, and pod names are never reused.
- Hashes and number formatting are arbitrary functions; a fabricated uid or address
  is not empty.
- Panes carry a concrete context, as `internal/app/panefooters.go:11-14` says of normal
  operation.
- Go's integers are unbounded here; its truncating division is written out where an operand
  can be negative.

## Model

| member | source | states |
|---|---|---|
| Ansi.StylesDetermineDrawing | internal/ui/ansisplit.go:13-32 | the style used in this model, the SGR codes since the last reset, is enough: lines with the same glyphs look the same on every terminal, however it applies codes to its attributes |
| Split.SplitWrappedVisible | internal/ui/ansisplit.go:162-296 | the one-pass loop returns exactly the rows [startRow, startRow+numRows) of the whole split, widths included, for every line, width and window, empty and out-of-range ones too |
| Split.RowsKeepCells | internal/ui/ansisplit.go:148-296 | the whole split printed row by row, each row on a clean terminal, shows every cell once, in order, in the style it had in the line; every row ends in the default style and reports the sum of its cell widths |
| Split.RowsBreakGreedily | internal/ui/ansisplit.go:206-292 | every row takes as many cells as fit, and one at least: the first cell of the next row would not have fitted |
| Split.GreedyUnique | internal/ui/ansisplit.go:206-292 | a line can be broken greedily in one way only, so the break points of any two such splits are the same |
| Wrap.SplitCutsLikeBroken | internal/ui/ansisplit.go:162-296 | for any cell widths, the log view's one-pass splitter cuts a line into the partition that wrapLines uses |
| Wrap.WrapLines | internal/ui/ansisplit.go:343-427 | the cutting loop over whole lines, with its widened cut for a straddling wide cell, yields the greedy partition of every line, prefixed, and a mapping that gives each row's line and first column, for cells one or two columns wide |
| Wrap.WrapLine | internal/ui/ansisplit.go:355-421 | one line of the above: rows and mapping entries, for every width, zero and negative included |
| Wrap.WrapHeightCountsRows | internal/ui/logview.go:281-290 | for a line of one-column cells wrapHeight is the number of rows the split makes |
| Wrap.WrapHeightExact | internal/ui/logview.go:277-290 | for a line of cells of any width wrapHeight is the number of rows if and only if the last row, if there is more than one, holds more columns than the rows before it left free and at most a continuation row more; a single row must not be wider than the view |
| Wrap.WrapHeightOfWideCells | internal/ui/logview.go:277-290 | for cells of one or two columns in a view of four or more, exactly if the rows leave less free than the last one holds |
| Wrap.WideCellsBreakWrapHeight | internal/ui/logview.go:281-290 | a line that fails the condition: three wide cells in three columns make three rows, wrapHeight says four |
| Wrap.WideCellCounted | internal/ui/logview.go:281-290 | and a line with a wide cell that meets it |
| Wrap.MapAllSorted | internal/ui/ansisplit.go:343-427 | the mapping that wrapLines builds is sorted by line and column, as the binary search over it needs |
| Wrap.LogicalToVisual | internal/ui/detailview.go:427-464 | the binary search returns the row that holds the column, with both ends of the match shifted by that row's offset and prefix, exactly when such a row exists; otherwise the position comes back unchanged |
| Wrap.VisualShowsLogical | internal/ui/detailview.go:427-464 | the cell on screen at the returned row and column is the cell of the line at the asked column |
| Wrap.EndsInItsRow | internal/ui/detailview.go:449-463 | the visual end of a match lies within the row that shows its start if and only if no later row continues its line before the match ends, so a match may run past the row that it is drawn in |
| Wrap.MatchRunsOn | internal/ui/detailview.go:452-455 | a match that does: columns 2 to 4 of a line of four cells, wrapped at three |
| Wrap.EveryColumnHasARow | internal/ui/detailview.go:427-464 | every column at or after 0 of every line is found |
| Wrap.RowInLineShows | internal/ui/logview.go:832-837 | the row that the division of ensureMatchVisible names shows the cell at that column, whenever the column is counted |
| Wrap.RowInLineExact | internal/ui/logview.go:832-837 | for cells of any width that division finds the row a column is in if and only if the column within its row, less what the rows above left free, is within a continuation row |
| Wrap.NarrowColumns | internal/ui/logview.go:832-837 | as every column of a line of one-column cells is |
| Highlight.InjectHighlights | internal/ui/ansisplit.go:55-146 | the loop's output is the specified token sequence for every line and range list |
| Highlight.InjectCell | internal/ui/ansisplit.go:98-135 | one cell: a match may open before it, close after it with the line's own style restored, and an adjacent one opens at once |
| Highlight.InjectPaints | internal/ui/ansisplit.go:55-146 | on every input the output shows the line's cells in place, each in its own style or in the colour of the range painted over it |
| Highlight.PaintsCovered | internal/ui/ansisplit.go:44-54 | for sorted, disjoint ranges each cell is painted by the range that holds its first column if and only if every range holds the start of a cell or lies past the line |
| Highlight.InjectColorsMatches | internal/ui/ansisplit.go:44-146 | for sorted, disjoint, non-empty ranges that begin on cell boundaries: cells inside a range have its colour, the selected range its own, all other cells keep their style, adjacent ranges included |
| Highlight.InjectKeepsWidth | internal/ui/ansisplit.go:44-146 | highlighting never changes a line's width, on any ranges |
| Highlight.EmptyMatchColorsACell | internal/ui/ansisplit.go:55-146 | an empty range, which some patterns yield, wrongly colours the cell after it |
| Ring.DualRingBuffer.constructor | internal/ui/ringbuffer.go:18-29 | an empty buffer, of capacity one at least |
| Ring.DualRingBuffer.Append | internal/ui/ringbuffer.go:33-45 | the circular array holds the old lines and the new one last; when full it loses the oldest and counts it as dropped |
| Ring.DualRingBuffer.Get | internal/ui/ringbuffer.go:57-87 | logical index i is the i-th stored line, and the empty line out of range |
| Ring.DualRingBuffer.SetDecorated | internal/ui/ringbuffer.go:95-110 | replaces the decorated form and width of one stored line and nothing else |
| Ring.DualRingBuffer.Slice | internal/ui/ringbuffer.go:149-170 | a logical range clamped to the stored lines, also when it wraps around the array |
| Ring.DualRingBuffer.Reset | internal/ui/ringbuffer.go:132-140 | back to the empty buffer |
| Ring.StoredAppend | internal/ui/ringbuffer.go:33-45 | writing at the head moves the sequence of stored lines on by one, with room and when full |
| Ring.KeepsTheLast | internal/ui/ringbuffer.go:33-45 | of all lines it was given the buffer holds the last ones, in order, as many as it has room for, and has counted the others |
| LogIndex.PassingAppend | internal/ui/logview.go:304-317 | a new last line joins the list of passing lines if it passes, and the list stays exactly the passing positions |
| LogIndex.PassingEvict | internal/ui/logview.go:558-566 | trimming the entries below the raised offset keeps the list exactly the passing positions of the buffer without its oldest line |
| LogIndex.PassingUnique | internal/ui/logview.go:742-763 | the increasing list of passing positions is determined by which lines pass |
| LogIndex.HeightsFirst | internal/ui/logview.go:543-551 | the row count of all lines is that of the first and of the rest, so the evicted line's rows can be subtracted |
| LogIndex.ComputeLineMatchPositions | internal/ui/logview.go:670-686 | the loop gives every match of one line, its ends turned into the display widths of the text before them |
| LogIndex.ClearFilterKeepsMatches | internal/ui/logview.go:774-782 | the match list that ClearFilter keeps is right for the unfiltered lines if and only if no hidden line lies at or before a line with a match |
| LogWindow.LinePositions | internal/ui/logview.go:455-468 | a binary search and a scan find exactly the matches on one display line |
| LogWindow.BakeLine | internal/ui/logview.go:443-491 | a display line gets its own matches injected, the selected one found by its columns, marker lines none; LogColors.BakeColors says which cells that colours |
| LogWindow.BakeKeepsCells | internal/ui/logview.go:443-491 | baking keeps every cell, its text and width |
| LogColors.BakeColors | internal/ui/logview.go:455-491 | for the matches of a line that are not empty, begin where a cell does and are in order: a cell whose first column is in one of them has the highlight colour, or the other colour if that match is the selected one, and every other cell keeps its own style |
| LogWindow.CountedAgainstReal | internal/ui/logview.go:384-411 | where every line takes the rows it is counted for, the rows the scroll arithmetic counts differ from the rows wrapped by what the dropped-lines notice takes beyond its one row, and by nothing else |
| LogWindow.LineRowsExact | internal/ui/logview.go:384-411 | a display line takes the rows it is counted for if and only if its text fills its rows, as WrapHeightExact has it |
| LogWindow.RealRowCounted | internal/ui/logview.go:376-411 | in such lines counted row y is row y of everything wrapped, moved down by the notice's extra rows unless it is row 0 |
| LogWindow.RealRowShows | internal/ui/logview.go:493-516 | for cells of any width: the row of everything wrapped that holds a column shows the line's glyph there, continuation prefix included |
| LogWindow.SeenInWindow | internal/ui/logview.go:800-864 | a glyph is among the rows handed over exactly if its row is in the window |
| LogWindow.SeenExactly | internal/ui/logview.go:800-864 | where the arithmetic is right and the counted row of a match is in the window, its first glyph is among the rows handed over exactly if the window is not at the top, or the notice takes one row, or the match is near enough to it |
| LogWindow.EndSeenExactly | internal/ui/logview.go:1197-1208 | where the arithmetic is right, scrolled to the bottom the last row is handed over exactly if the window is not at the top, or the notice takes one row, or everything fits |
| LogWindow.CollectLine | internal/ui/logview.go:493-509 | appending the visible rows of one more line extends a window of the whole wrap |
| LogWindow.VisibleRows | internal/ui/logview.go:493-509 | the rows of one line that a window shows, prefixes included, are that window of all its rows |
| LogLoops.CountRows | internal/ui/logview.go:319-335 | the loop counts the rows of the displayed lines, plus one for the notice of dropped lines |
| LogLoops.FindMatches | internal/ui/logview.go:616-650 | the loop finds every match of the displayed lines, at display lines shifted by the notice |
| LogLoops.FirstVisible | internal/ui/logview.go:376-411 | the walk over line heights finds the display line that holds counted row y, and how far into it |
| LogLoops.WindowRows | internal/ui/logview.go:413-516 | rows built from the visible lines alone are a window of everything wrapped, from the row that the walk over the heights leads to |
| LogLoops.WrappedWindow | internal/ui/logview.go:341-517 | for lines of any cells and a height of at least one, the rows handed to the viewport are h rows in a row of the whole wrapped display list, from the one that the clamped scroll offset leads to; LogWindow.RealRowCounted says which that is where the lines are counted right |
| LogLoops.UnwrappedWindow | internal/ui/logview.go:146-275 | without wrapping, the rows are the window of the display list with its matches highlighted; it panics exactly when the selected index is past the match list and some match is in the window |
| LogLoops.StaleExactly | internal/ui/logview.go:200-222 | that is, when a row to be handed over is that of a line with a match |
| LogLoops.FilterLines | internal/ui/logview.go:747-755 | a new filter lists exactly the lines its pattern accepts or that look like a marker, in order |
| LogCaches.TotalOfArrival | internal/ui/logview.go:543-556 | the incremental row count of an arriving line, evicting or not, is the count from scratch |
| LogCaches.ArrivalKeepsPassing | internal/ui/logview.go:558-571 | through an arrival, evicting or not, the shifted filter list stays exactly the passing positions |
| LogCaches.MatchesOfArrival | internal/ui/logview.go:581-604 | appending the new line's matches to an up-to-date match list gives the full rebuild |
| LogCaches.MatchesLeftAlone | internal/ui/logview.go:1039-1046 | a match list left alone stays right exactly when the new line is hidden or has no match |
| LogViews.LogView.constructor | internal/ui/logview.go:83-106 | a new view has all its caches right |
| LogViews.LogView.UpdateViewport | internal/ui/logview.go:131-275 | every redraw keeps the offset as far as there are rows, snaps it to the bottom under autoscroll when wrapping, and hands over the window above, for lines of any cells; it panics exactly if the view is unwrapped and the selected index is past the match list with a match in the window |
| LogViews.LogView.RecomputeTotalWrappedRows | internal/ui/logview.go:319-335 | the stored row count is the count from scratch |
| LogViews.LogView.RebuildMatchPositions | internal/ui/logview.go:616-650 | the stored match list is the full rebuild |
| LogViews.LogView.AppendLine | internal/ui/logview.go:520-610 | the buffer gains the line, decorated as the syntax setting says and searched by the text of its cells; all caches stay right, an up-to-date match list stays up to date through eviction and the notice's shift, and the view is redrawn unless the line is hidden and evicts nothing; the window stays where it is, or follows the tail under autoscroll, and the contract says exactly when the redraw panics |
| LogViews.LogView.InsertMarker | internal/ui/logview.go:992-1047 | as AppendLine, window, panic and tail included, with the marker in its own style and shown under every filter; but an up-to-date match list stays so if and only if the marker evicted a line, no search is active or the marker has no match |
| LogCaches.MarkerShown | internal/ui/logview.go:994-996 | a marker is drawn character by character in the marker style |
| LogViews.LogView.ApplySearch | internal/ui/logview.go:742-763 | a malformed pattern changes nothing; otherwise the filter or search is set, every cache and the match list are right, the first match is selected, and the view is redrawn where it was without a panic |
| LogViews.LogView.ClearSearch | internal/ui/logview.go:766-771 | no search and no matches left, the rest right |
| LogViews.LogView.ClearFilter | internal/ui/logview.go:774-782 | all lines are shown and counted again; the kept match list is right if and only if no search is active, there was no filter or no hidden line lay at or before a match; and exactly when the redraw panics |
| LogViews.LogView.SetSize | internal/ui/logview.go:890-906 | after a resize the row count is that of the new width and the window is where it was |
| LogViews.LogView.ToggleWrap | internal/ui/logview.go:1212-1222 | turning wrapping on counts the rows again; under autoscroll the view is at the end afterwards, wrapped or not |
| LogViews.LogView.ToggleSyntax | internal/ui/logview.go:950-974 | every stored line is decorated anew, the text to search with it, and every cache is right for the new widths; the window stays |
| LogViews.LogView.ClearAndRestart | internal/ui/logview.go:1282-1296 | an empty view of the same capacity, with no filter or search, following the tail |
| LogViews.LogView.ScrollUp | internal/ui/logview.go:1078-1091 | scrolling up by a line or a page moves the window up within its bounds, ends autoscroll and touches no cache |
| LogViews.LogView.ScrollDown | internal/ui/logview.go:1094-1111 | scrolling down likewise; autoscroll is on afterwards exactly if it was on or the bottom was reached |
| LogViews.LogView.GotoTop | internal/ui/logview.go:1184-1194 | the first row is on screen |
| LogViews.LogView.GotoBottom | internal/ui/logview.go:1197-1208 | the last line is handed over; under soft wrap, where the lines are counted right, exactly if the window is not at the top, the notice takes one row or everything fits |
| LogViews.LogView.ToggleAutoscroll | internal/ui/logview.go:976-989 | turned on, the view goes to the end as GotoBottom does; turned off, nothing moves |
| LogViews.LogView.EnsureMatchVisible | internal/ui/logview.go:800-864 | autoscroll ends and the window moves to the counted row in which the selected match starts, no further than needed; under soft wrap, where the arithmetic is right, its first glyph is among the rows handed over exactly in the cases of LogWindow.SeenExactly |
| LogViews.LogView.SearchNext | internal/ui/logview.go:867-874 | steps to the next match around the end, in range even from a selected index that was not; unwrapped its line is handed over, and under soft wrap its first glyph in the cases above |
| LogViews.LogView.SearchPrev | internal/ui/logview.go:877-887 | steps back likewise, unless the selected index was past the end by more than one |
| LogSeen.RowOfMatch | internal/ui/logview.go:805-837 | the walk over the lines above a match counts its row as the scroll arithmetic does |
| LogSeen.MatchRowCounted | internal/ui/logview.go:805-844 | a match inside its line is in a row below the total |
| LogSeen.MatchIsSeen | internal/ui/logview.go:800-864 | a match within the counted window is seen as the rows above say, in the rows of any redraw |
| LogSeen.BottomShowsEnd | internal/ui/logview.go:367-370 | under autoscroll, in the rows of any redraw at the bottom, the end of the log is seen as the rows above say |
| LogSeen.CountedWindow | internal/ui/logview.go:341-517 | where every line takes the rows it is counted for, the rows of any redraw are those of the whole wrapped display list from the scroll offset on, or from the notice's extra rows further down unless the offset is 0 |
| LogColors.RowsColored | internal/ui/logview.go:200-275 | whatever row of those handed over, wrapped or not, has a cell of a display line, has it drawn as the line's matches say, and in its own style on a marker line or without a search |
| LogColors.SearchColors | internal/ui/logview.go:443-491 | with an up-to-date match list a drawn cell is highlighted if and only if a match of the search in its line's stripped text is at its column, and in the other colour exactly if that is the selected one |
| LogColors.CellsShowText | internal/ui/logview.go:540 | the cells of a stored line show, range by range, the text that is searched |
| LogColors.MatchIsItsCells | internal/ui/logview.go:670-686 | where the width function counts the cells as they are drawn, a match of whole cells, of any width, is what those cells show, and the columns computed for it are theirs and no other cell's |
| LogColors.SearchColorsText | internal/ui/logview.go:540 | so in a line of one-column characters exactly the characters that the search matched are highlighted, those at its offsets in the searched text |
| LogSeen.NearIsLeast | internal/ui/logview.go:840-852 | the window that going to a match moves to shows its row, stays if it did already, and is the nearest that does |
| LogRuns.NoticeHidesMatch | internal/ui/logview.go:384-387 | a view where neither is: a notice of five rows counted as one fills the window, which is at the top and at the bottom, over a selected match that counts as visible |
| LogEvictions.SelectionAfterEviction | internal/ui/logview.go:219-220 | after an evicting append under any filter or none, the selected index is past the match list if and only if the list lost enough matches: those of the oldest line, if it was on display, less those of the new one, if it is |
| LogEvictions.EvictionShows | internal/ui/logview.go:558-571 | under any filter an evicting append takes the oldest line off the display, if it was there, and adds the new one, if it passes, and nothing else |
| LogRuns.StrandSelection | internal/ui/logview.go:219-220 | which a run reaches: a new view, two lines with a match each, a search, a step to the second match, and a line that evicts the first; the redraw reads past the list |
| LogRuns.ShapeMatters | internal/ui/logview.go:747-755 | a new filter and an arriving line treat a line differently if and only if it is shaped like a marker and the pattern does not accept it |
| LogRuns.HideSecondMarker | internal/ui/logview.go:568 | a run with two such lines, one from before the filter and one from after: only the first is shown |
| LogRuns.StaleAfterClear | internal/ui/logview.go:774-782 | a hidden line above a match: the match list that ClearFilter keeps is a line off |
| LogRuns.StaleAfterMarker | internal/ui/logview.go:1039-1041 | a marker that the search matches and the list lacks |
| Layouts.RunKeepsOk | internal/layout/layout.go:100-159 | over every run of operations: the focus is in range, detail focus and detail zoom mean the panel is visible, a split zoom means there is a pane |
| Layouts.NextThenPrev | internal/layout/layout.go:284-321 | focusing forward and back restores the layout, but for the input, which the detail panel loses |
| Layouts.OpDoes | internal/layout/layout.go:96-560 | pane by pane: which pane each operation adds, removes or moves, where the focus is next and which flag changes, and that nothing else does |
| Layouts.UndoRestores | internal/layout/layout.go:100-553 | closing undoes adding, moving back undoes moving, the focus operations undo each other and the toggles themselves, but for the input and, after a pane came and went, the focus |
| Layouts.RectsInOrder | internal/layout/layout.go:706-781 | without a zoom the panes stand in order side by side, or one above the other, with the panel beyond them in its half; a zoom leaves the one rectangle of what is zoomed |
| Layouts.RectsTile | internal/layout/layout.go:706-781 | in every zoom and orientation every cell of the pane area is in exactly one rectangle and no other cell is in any |
| Layouts.SizesMatchRects | internal/layout/layout.go:784-871 | the sizes that one method computes and the rectangles that another computes agree outside the zooms |
| Layouts.Layout.constructor | internal/layout/layout.go:83-93 | a fresh layout has no pane, no zoom and no panel |
| Layouts.Layout.ReconcileFocus | internal/layout/layout.go:259-281 | every pane but the focused one is blurred; that one has the input, or only its cursor while the panel has it |
| Layouts.Layout.RecalcSizes | internal/layout/layout.go:784-851 | the source's loops, one for every zoom and orientation, give every pane the size its place calls for, and the rectangles are rebuilt |
| Layouts.Layout.RebuildPaneRects | internal/layout/layout.go:706-781 | the cached rectangles are those the state determines |
| Layouts.Layout.MoveBorderlessFlag | internal/layout/layout.go:241-248 | under a split zoom the flag and the full size move with the focus, otherwise nothing happens |
| Layouts.Layout.AddSplit | internal/layout/layout.go:100-159 | the new pane goes after the focused one and takes the focus, and all flags, sizes and rectangles are again those the state determines |
| Layouts.Layout.CloseCurrentSplit | internal/layout/layout.go:200-223 | the focused pane goes, the last one never; flags, sizes and rectangles as above |
| Layouts.Layout.FocusNext | internal/layout/layout.go:284-301 | the focus moves on around the end, and with it every flag |
| Layouts.Layout.FocusPrev | internal/layout/layout.go:304-321 | the focus moves back around the end |
| Layouts.Layout.FocusSplitAt | internal/layout/layout.go:324-339 | the focus jumps to a pane, or stays if there is none |
| Layouts.Layout.MoveFocusedSplit | internal/layout/layout.go:343-355 | the focused pane trades places with its neighbour and keeps the focus, or nothing happens at an end |
| Layouts.Layout.ShowRightPanel | internal/layout/layout.go:390-393 | the panel shows and everything is laid out for it |
| Layouts.Layout.HideRightPanel | internal/layout/layout.go:396-410 | the panel goes, and with it detail focus and detail zoom |
| Layouts.Layout.SetLogModeTo | internal/layout/layout.go:437-441 | the panel's rectangle changes kind, the splits stay as they are |
| Layouts.Layout.FocusDetails | internal/layout/layout.go:455-463 | the panel gets the input, if it is visible and there is a pane |
| Layouts.Layout.FocusResources | internal/layout/layout.go:466-470 | the panes get the input back |
| Layouts.Layout.ToggleZoomSplit | internal/layout/layout.go:477-490 | the focused split becomes borderless and full size, or goes back; never without a pane |
| Layouts.Layout.ToggleZoomDetail | internal/layout/layout.go:494-505 | the panel covers everything, or goes back; never while hidden |
| Layouts.Layout.ToggleOrientation | internal/layout/layout.go:531-538 | the same panes laid out the other way |
| Layouts.Layout.UnzoomAll | internal/layout/layout.go:541-553 | both zooms go |
| Layouts.Layout.ResizeTo | internal/layout/layout.go:556-560 | everything is laid out for the new size, less the status bar |
| Layouts.Layout.PaneAt | internal/layout/layout.go:672-678 | finds the one pane over a cell of the pane area, and none outside it |
| Layouts.Layout.Perform | internal/layout/layout.go:96-560 | after any operations on the object: its panes' flags are those of FlagsRight, and outside the zooms their sizes are those of their rectangles |
| Layouts.Layout.CanonicalFlags | internal/layout/layout.go:241-281 | of the panes themselves: a pane is borderless exactly if it is focused and the split zoom is on, every pane but the focused one is blurred and without a cursor, the focused one has the input unless the panel has it, and shows its cursor exactly if it is a resource list |
| Clusters.DistinctPaneContexts | internal/app/panefooters.go:15-27 | the map counts, for every context, the panes on it, resource and terminal, and has no entry for the empty context or one without panes |
| Clusters.EmptyContextCountsNowhere | internal/app/app.go:488-491 | a pane with an empty context counts nowhere, not for the startup context |
| Clusters.Manager.SyncRefs | internal/cluster/manager.go:284-301 | pinned clusters stay as they are; any other stays, with its count, exactly if a pane refers to it |
| Clusters.Manager.RegisterConnected | internal/cluster/manager.go:243-267 | a client is installed only where no cluster is and the context is not pinned, and only then is it reported as new |
| Clusters.Manager.RegisterPinned | internal/cluster/manager.go:94-103 | a cluster without a client, preserved for good |
| Clusters.Manager.GetOrCreate | internal/cluster/manager.go:162-205 | a cached cluster or a dialled one; a failed dial and a pinned context cache nothing |
| Clusters.App.HandlePaneContextSwitch | internal/app/commands.go:2486-2545 | the focused pane moves and the manager is reconciled, or nothing happens if it is there already and the context is pinned or connected; a pinned context is never dialled |
| Clusters.App.HandleGroupContextSwitch | internal/app/commands.go:2307-2412 | likewise for every resource pane on the focused pane's context |
| Clusters.PanesMove | internal/app/commands.go:2307-2545 | pane by pane: a switch moves the focused pane if it is a resource pane, or every resource pane on its context, and no other pane, and leaves the focus; closing takes one pane, opening puts one next to the focus; dials and heartbeats move none; after a switch the context asked for is pinned, connected or being dialled, and only it is dialled |
| Clusters.EventsDecidePanes | internal/app/commands.go:2307-2545 | so the panes of a run are determined by its events, whatever the clusters are |
| Clusters.App.HandleClusterReady | internal/app/commands.go:2631-2701 | a dial's client is registered and the manager reconciled; a heartbeat is armed exactly if the cluster was new, even if the reconciliation has already torn it down |
| Clusters.App.CloseFocusedSplit | internal/app/commands.go:1459-1520 | the focused pane goes and the manager is reconciled, the last pane never |
| Clusters.App.HandleClusterHealth | internal/app/app.go:2730-2773 | a tick arms one heartbeat, for the ticked cluster, exactly if it is there and has a client |
| Clusters.SyncedFacts | internal/cluster/manager.go:269-301 | after a reconciliation every cluster that is not pinned has its exact, positive count, and the ones that left have no pane |
| Clusters.LeavesOnlyUnused | internal/app/commands.go:2480-2545 | at every step of every run a pinned cluster stays, and any other leaves the manager only when no pane carries its context; each reconciliation leaves exact positive counts |
| Clusters.AbandonedDial | internal/app/commands.go:2658-2701 | a dial that ends after its panes moved away leaves no cluster; its heartbeat is armed all the same and ends at its first tick |
| Clusters.BeatKeeps | internal/app/app.go:2756-2773 | handling a tick never raises the number of heartbeats in flight for any context, and ends the chain of a cluster that is gone |
| Clusters.RunKeeps | internal/app/app.go:2719-2798 | in every run of a fresh process a connected cluster has a heartbeat in flight; for every context the heartbeats in flight are at most one more than the times its cluster was torn down, and a pinned one has none; after a reconciliation, until a failed terminal is removed without one, no cluster but the pinned ones is without a pane |
| Clusters.BeatsAfter | internal/app/app.go:2730-2773 | whatever happens next, the heartbeats in flight for a context grow by one exactly when it is newly connected, shrink by one exactly when a heartbeat of a cluster that is gone ticks, and stay otherwise |
| Clusters.ExactlyOneBeat | internal/app/app.go:2719-2727 | a run of a fresh process keeps exactly one heartbeat for a context while it is connected, and never more than one, if and only if it never connects it anew while an earlier heartbeat is in flight |
| Clusters.TwoHeartbeats | internal/app/app.go:2719-2722 | in a fresh process with one pane a teardown and reconnect before the first tick leaves two heartbeats in flight, against the comment there |
| Clusters.TwoMoreHeartbeats | internal/app/app.go:2719-2722 | the same run adds two in any state of a process with one pane |
| NodeDebug.TerminalApp.OpenNodeDebugTerminal | internal/app/commands.go:1608-1635 | the placeholder pane and its metadata, the pod not yet known |
| NodeDebug.TerminalApp.CloseTerminalSession | internal/app/app.go:2857-2887 | the session and metadata go, and a delete is issued exactly if the pod is known |
| NodeDebug.TerminalApp.CloseFocusedTerminal | internal/app/app.go:1434-1448 | a lone split loses its session and metadata but keeps its pane |
| NodeDebug.TerminalApp.FailTerminalPane | internal/app/app.go:3045-3083 | the pane goes, or is frozen if it is the last one |
| NodeDebug.TerminalApp.HandleDebugReady | internal/app/app.go:2902-2988 | every branch of the message: failure, pane gone, attach failure, success, and the nil client when the metadata is gone |
| NodeDebug.TerminalApp.ShutdownTerminals | internal/app/app.go:3123-3144 | the loop issues exactly one delete for every pod known to the metadata and drops it all |
| NodeDebug.NoLeakExactly | internal/k8s/debug.go:155-190 | over every interleaving, if and only if no message reports a pod to a pane that is there without its metadata: each created pod has exactly one owner among the pre-flight, the message and the metadata, or exactly one delete issued; a pod whose pane is gone and whose message has landed is deleted; the pod of a live terminal is not; nothing crashes; after quitting only unreported pods remain |
| NodeDebug.NoPodLeaks | internal/app/app.go:1434-1448 | so in every run in which no lone split is closed while its pre-flight is out |
| NodeDebug.LoneCloseLosesPod | internal/app/app.go:1434-1446 | a lone split closed while its pod is on the way, be it still to be created, waited for or reported, leads to a nil dereference that leaves the pod with no owner and no delete |
| NodeDebug.LoneCloseSpared | internal/app/app.go:2905-2918 | a lone split closed over a pre-flight that has failed loses nothing, so that closing is not itself the condition |
| NodeDebug.CrashesExactly | internal/app/app.go:2944-2945 | a message crashes the handler exactly if it reports a pod to a pane that is there and whose metadata is not |
| NodeDebug.PanesLeave | internal/app/app.go:3045-3083 | a pane goes exactly if it is closed or its pre-flight fails while there is another split; a lone one that fails is frozen instead |
| NodeDebug.NeverEmpty | internal/app/app.go:3036-3046 | over every run a layout with a split is never without one |
| NodeDebug.TerminalsLive | internal/app/app.go:2902-2988 | over every crash-free run the terminals are those of the panes whose pod is known, and a pre-flight can be cancelled as long as it is not |
| LogStream.LogApp.StopLogStream | internal/app/app.go:3192-3200 | no channel, and a generation that no message in flight carries |
| LogStream.LogApp.StartLogStream | internal/app/app.go:3253-3276 | a generation of its own and one command to open the stream, none without a client |
| LogStream.LogApp.LogStreamReadyMsg | internal/app/app.go:1168-1179 | a current, successful opening sets the channel and starts the one read chain; others change nothing |
| LogStream.LogApp.LogLineMsg | internal/app/app.go:1146-1156 | a current line is shown in log mode and the next read is issued; a stale one changes nothing |
| LogStream.LogApp.LogStreamEndedMsg | internal/app/app.go:1158-1166 | a current end clears the channel |
| LogStream.OneChainOneStream | internal/app/app.go:1146-1179 | in every interleaving: at most one command or message of any generation is out, exactly one while the channel is in use; the panel shows, since the latest start, lines of that stream only, in order and once each, those of its first lines that came in log mode, so a prefix of it if log mode was on all along |
| LogStream.EndsComplete | internal/app/app.go:1158-1166 | when the current stream's end is delivered, nothing of it was lost |
| LogStream.Drains | internal/app/app.go:1146-1179 | once the current stream is closed its read chain can always go on to the end, and then the panel, if it was in log mode, shows all of it |
| Debounce.Debouncer.Trigger | internal/k8s/debounce.go:28-48 | the key's old timer is stopped and a new one is armed in its slot |
| Debounce.Debouncer.Cancel | internal/k8s/debounce.go:51-58 | the key's slot is emptied and its timer stopped |
| Debounce.Debouncer.Stop | internal/k8s/debounce.go:61-68 | every slot is emptied and exactly the armed timers in slots are stopped |
| Debounce.Debouncer.TimerFunc | internal/k8s/debounce.go:37-46 | a timer calls back exactly if the slot is still its when it has the lock |
| Debounce.OneTimerOneCall | internal/k8s/debounce.go:28-48 | under every schedule, fires inside the critical section of Trigger included, at most one timer of a key is armed and no Trigger calls back twice |
| Debounce.LostNeverCalls | internal/k8s/debounce.go:37-45 | a timer that lost its slot before it had the lock never calls back, whatever follows |
| Debounce.ClearLoses | internal/k8s/debounce.go:32-58 | Trigger, Cancel and Stop take the slot away for good from the timer they clear, fired or not |
| Debounce.LastTriggerCalls | internal/k8s/debounce.go:8-10 | a Trigger that nothing clears is never stopped or skipped, and once its timer has run it has called back exactly once |
| Debounce.LockComesFree | internal/k8s/debounce.go:28-68 | whoever holds the lock can go on alone until it is free |
| Tables.Model.constructor | internal/table/table.go:154-171 | a table over any rows, its cursor on the first, rendered right from the start |
| Tables.Model.UpdateViewport | internal/table/table.go:302-321 | renders exactly the rows around the cursor, and clamps the offset to them |
| Tables.Model.ScrollToCursor | internal/table/table.go:501-518 | scrolls to the nearest top computed before the rendered part moved |
| Tables.Model.MoveUp | internal/table/table.go:522-525 | moves the cursor within the rows and scrolls to it |
| Tables.Model.MoveDown | internal/table/table.go:529-532 | likewise downwards |
| Tables.Model.EnsureCursorVisible | internal/table/table.go:330-344 | leaves a visible cursor alone and centres any other |
| Tables.Model.SetCursor | internal/table/table.go:488-491 | clamps the cursor and renders around it |
| Tables.Model.SetRows | internal/table/table.go:405-413 | keeps the cursor within the new rows |
| Tables.Model.SetHeight | internal/table/table.go:439-442 | renders for the new height, less the header line |
| Tables.Model.RowAtY | internal/table/table.go:346-374 | the inverse of drawing: a row is found exactly at the line of the screen where it is drawn; the row found is the one the viewport shows there, and none is found exactly where the viewport shows none |
| Tables.RunRight | internal/table/table.go:302-321 | over every run of operations on a table, which starts right, the rendered rows are those of the cursor and the offset stays within them |
| Tables.ShowsTheRows | internal/table/table.go:302-321 | rendering only the rows around the cursor shows the same screen as rendering them all |
| Tables.MoveLeast | internal/table/table.go:493-532 | after a move the cursor is where it was sent, within the rows, and on screen; the screen moves only if the cursor left it, and by as little as any screen that shows the cursor |
| Tables.CursorKept | internal/table/table.go:405-413 | new rows leave the cursor on its row, or on the last if that is gone; a move or a jump takes it to the row nearest to the one asked for; nothing else moves it |
| Tables.RendersFew | internal/table/table.go:302-321 | no more rows are rendered than two screens hold |
| Tables.EnsureShows | internal/table/table.go:323-344 | afterwards the cursor is on screen; nothing changes if it was, and otherwise it is in the middle, as far as the rows allow |
| Tables.TopBounded | internal/table/table.go:493-518 | the screen never scrolls past the last row |
| Escapes.StripStyleKeepReverse | internal/table/table.go:639-709 | collecting the switches and splicing them into the stripped row is the same as dropping every other escape sequence |
| Escapes.KeptRight | internal/table/table.go:636-638 | the result has the row's characters in order, and of its escape sequences only the reverse-video switches |
| Escapes.ReverseKept | internal/table/table.go:636-638 | every character is shown in reverse video, or not, as it was in the row |
| Escapes.MapOffsetsToDisplay | internal/render/offsets.go:14-41 | the two-index loops compute the place of every character in the display, map the pairs within the text and drop the others |
| Escapes.MappedExactly | internal/render/offsets.go:30-41 | the pairs within the text, and no others, are mapped, in order |
| Escapes.MappedSlice | internal/render/offsets.go:12-41 | when the display is the text with escape sequences put in, a mapped pair cuts from the display what the pair cuts from the text, in order and not inside a sequence |
| Matches.JoinSplit | internal/ui/detailview.go:583 | the lines of a text, joined with newlines, are the text |
| Matches.LineAtFrom | internal/ui/detailview.go:589-592 | keeping the line cursor from one match to the next finds the line that a search from the top finds |
| Matches.MatchOnLines | internal/ui/detailview.go:593-628 | walking a match gives one position for each line it touches, with the columns of the specified spans |
| Matches.PiecesAreTheMatch | internal/ui/detailview.go:575-578 | the pieces that a match is cut into lie on consecutive lines from the one it starts on, and joined with newlines they are the matched text |
| Matches.ComputeMatchPositions | internal/ui/detailview.go:579-631 | the positions are those of every match by itself, in order |
| Segments.Split | internal/highlight/segments.go:24-88 | the scan finds the specified segments, stray escapes and truncated sequences included |
| Segments.SegsTile | internal/highlight/segments.go:24-88 | the segments follow one another without gap, and none is empty |
| Segments.SegsRight | internal/highlight/segments.go:24-88 | a byte is in a plain segment exactly if no style opened at or before it, by a sequence the scan finds, is still in force |
| Segments.ScanFindsExactly | internal/highlight/segments.go:35-54 | of the SGR sequences of a line, as ECMA-48 has them, the scan finds exactly those without colons before which an even number of sequences in a row are broken off, and finds nothing else |
| Segments.FindsAllExactly | internal/highlight/segments.go:35-54 | so the sequences it finds are all there are, in order, if and only if every sequence is like that |
| Segments.MissedSequence | internal/highlight/segments.go:35-54 | a line whose only sequence it misses, and takes for plain text |
| Segments.Render | internal/highlight/segments.go:90-123 | the lazily started builder gives what concatenating every segment would |
| Segments.ApplyToUnhighlighted | internal/highlight/segments.go:11-124 | for every line and highlighter the result is the line with exactly its unstyled stretches highlighted: unstyled by the sequences the scan finds, and by all sequences of the line if none is missed; a line without escapes is highlighted whole |
| Segments.FastPath | internal/highlight/segments.go:12-15 | the fast path agrees with the general one except on the empty line, and there exactly if the highlighter keeps it empty |
| Segments.Unchanged | internal/highlight/segments.go:120-123 | if no plain segment changes, the result is the line itself |
| KeyTries.InsertBinding | internal/config/binding.go:102-148 | inserting a binding and its children, which inherit scope and resources, gives the specified trie |
| KeyTries.KeyTrie.constructor | internal/config/binding.go:88-98 | the trie of a context is its bindings inserted in order |
| KeyTries.KeyTrie.Press | internal/config/keytrie.go:44-73 | one press; the trie is back at its root exactly if the press is resolved |
| KeyTries.KeyTrie.Reset | internal/config/keytrie.go:76-78 | back to the root |
| KeyTries.LastWins | internal/config/binding.go:92-98 | in one list the last binding of a key that matches the context decides, as a leaf by replacing what was there, as a branch by being the last of its merged run |
| KeyTries.ScanFinds | internal/config/binding.go:102-148 | for every key the compiled trie holds what a scan of the binding list finds: leaves replace, consecutive branches merge, a branch with nothing to offer is replaced |
| KeyTries.ResolveFinds | internal/config/binding.go:134-147 | merged branches answer for each key as the last of their child lists that knows it |
| KeyTries.PressAgrees | internal/config/keytrie.go:44-73 | one press on the trie and one lookup in the lists give the same command and go to the same place |
| KeyTries.TrieIsTheBindings | internal/config/binding.go:87-148 | for every binding list, context and key sequence the trie answers each press as the lists themselves do |
| KeyTries.CommandsFollowPaths | internal/config/binding.go:102-131 | a key sequence gives a command only along a path of the bindings as written on which each is allowed by the scope and the resources in force there, those of the last binding on the path that has any, each by itself; the command is that of the path's last binding |
| KeyTries.ChosenPathsCommand | internal/config/binding.go:102-148 | and it does along every path, down to a binding without children, on which each binding is allowed and is the last of its key that is |
| KeyTries.GoToNode | internal/config/defaults.go:16-25 | of the default bindings, g N gives a command for pods only |
| KeyTries.ExecOnNodes | internal/config/defaults.go:169-176 | and s s none for nodes, though s is for them and s d too |
| KeyTries.LastShows | internal/config/binding.go:107-148 | the last matching binding of a key decides its help and whether it is hidden |
| KeyTries.NothingHiddenInChords | internal/config/binding.go:128-130 | inside a chord nothing is hidden, however deep |
| Manifests.AssignNamespaces | internal/manifest/synth.go:183-215 | the manifest's objects come first and in order, each with a namespace if it takes one, then one Namespace object for each namespace used and not declared |
| Manifests.Synthesize | internal/manifest/synth.go:321-397 | one workload of any kind: the object stamped, and its children |
| Manifests.SynthesizeWorkloads | internal/manifest/synth.go:225-242 | the loop stamps the objects in place and appends all children after them |
| Manifests.WorkloadsRight | internal/manifest/synth.go:217-397 | each object is only stamped and keeps its place: a workload gets a uid and the replicas it asks for as its status, unless it has them; each fabricated child's one owner reference, uid included, names an object of the output in the same namespace, whose name it carries on; each Deployment and StatefulSet has exactly max(0, replicas) pods, the other workloads one, and every pod has its workload's template labels and spec and an address |
| Manifests.WorkloadServed | internal/manifest/synth.go:303-471 | a Service whose selector is met by the template labels of a workload in its namespace has, in its slice, an endpoint for each of the workload's pods, those of a CronJob's job included |
| Manifests.OneSliceEach | internal/manifest/synth.go:437-476 | each Service with a selector has one slice, in the order of the services |
| Manifests.LabelsMatchSuperset | internal/manifest/synth.go:478-487 | labels match exactly if they are a superset of the selector, but for a selector that asks for an empty value |
| Manifests.EmptyValueSelectsMissing | internal/manifest/synth.go:478-487 | such a selector, and a pod without the label that it selects |
| Manifests.IndexPods | internal/manifest/synth.go:423-436 | the index holds the pods of every namespace in order |
| Manifests.SynthesizeEndpointSlices | internal/manifest/synth.go:413-476 | one slice is appended for each Service with a selector, in order |
| Manifests.EndpointsExact | internal/manifest/synth.go:450-471 | a slice's endpoints are exactly the pods of the service's namespace that match its selector and have an address |
| Manifests.NamespacesComplete | internal/manifest/synth.go:175-182 | after the whole pipeline every object in a namespace, fabricated ones included, finds that namespace's object in the output |
| Stores.Store.CacheUpsert | internal/k8s/store.go:219-227 | the object is in its bucket under its key, all else as before |
| Stores.Store.List | internal/k8s/store.go:177-191 | exactly the objects of the bucket, each once |
| Stores.Store.Subscribe | internal/k8s/store.go:75-107 | the bucket's items, and an informer only if there is a client |
| Stores.Store.Unsubscribe | internal/k8s/store.go:139-155 | bucket and informer go, but nothing of a static store |
| Stores.Store.UnsubscribeAll | internal/k8s/store.go:158-173 | all buckets and informers go, but nothing of a static store |
| Stores.Store.CountInNamespace | internal/k8s/store.go:197-207 | the number of objects in all of a namespace's buckets |
| Stores.Load | internal/manifest/load.go:141-175 | every object is in the bucket of its namespace and in that of all namespaces, later objects replacing earlier ones of the same key |
| Stores.BucketsAgreeUnlessOverridden | internal/manifest/load.go:162-169 | each namespace's bucket is its part of the bucket of all namespaces if and only if no object there is replaced by one of another namespace with the same key |
| Stores.ListsTheLast | internal/manifest/load.go:141-175 | for names without slashes the bucket of a namespace, or of all, lists of each type the last object of every name and namespace, and nothing else |
| Stores.KeysAreNames | internal/k8s/store.go:209-216 | names and namespaces without slashes share a key only if they are the same |
| Stores.UnnamespacedShares | internal/k8s/store.go:209-216 | an object without a namespace is kept by its name, which another's namespace and name can spell |
| Stores.SlashesOverride | internal/k8s/store.go:209-216 | two objects whose names and namespaces spell the same key: the first is in its namespace's bucket and not in that of all namespaces |
| Stores.PlainNamesAgree | internal/k8s/store.go:209-216 | so they agree for all names without a slash |
| Stores.StaticKeeps | internal/k8s/store.go:36-46 | whatever is subscribed and unsubscribed, a static store keeps every object |
| Stores.LiveForgets | internal/k8s/store.go:139-173 | a store with a client forgets exactly the buckets that are unsubscribed |

## Left out

- Ring.DualRingBuffer: the four parallel arrays of the source, always written at the same slot, are one array of records
- LogViews.LogView: holds its buffer by value; `Ring.DualRingBuffer` is proved to implement that value over a circular array, and the view's horizontal offset, titles and borders are not modelled
- LogViews.LogView.UpdateViewport: the grouping of match positions by line is a lookup for each line, with the same highlights
- Layouts.Layout.RecalcSizes: sizes the panes and not the detail panel; the focused list's own scrolling after a resize is `Tables.Model.EnsureCursorVisible`
- Layouts.Layout: panes are values with their flags, without aliasing; the detail panel's borderless, focus and size flags are not modelled, because SetLogMode swaps the panel without moving them
- Clusters.App: panes, layout and manager are reduced to contexts, kinds and clients; informers, notifications and status bar are not modelled
- NodeDebug.TerminalApp.ShutdownTerminals: asks that no two panes know the same pod, which every run keeps (`NodeDebug.StepKeeps`)
- NodeDebug.TerminalApp: pod-debug and exec terminals, which delete nothing, are among the other panes
- KeyTries.KeyTrie: nodes are values; the compiler updates a trie of its own that nothing else refers to
- Manifests.Synthesize: statuses are reduced to their replica count, pod specifications are carried as they are, and the ports of endpoint slices are left out
- Highlight.InjectHighlights: hyperlinks and other non-SGR sequences are passed through and not tracked as style, as in the source
- Toggling the log view's header, which only sets a flag and resizes
- Matches.ComputeMatchPositions: characters stand for bytes, and the display width of a prefix is a parameter
- The filter of the detail view and its highlighted display; horizontal scrolling
- Hint lists, captured keys and help groups of key bindings: only easy members
- Reading, joining and parsing of manifest files, the GVR table and discovery index
- Informers, their event handlers, and events that arrive after an unsubscription
- Port forwarding, notifications, plugins, Helm, editors, clipboard, themes, pickers and all rendering through lipgloss
- Regular-expression highlighters: their content lies in the expressions
- Wall-clock time: intervals are arbitrary interleavings
