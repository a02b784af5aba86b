# condo `Screen`: scroll viewport and colour runs

This project models the `Screen` control of the condo terminal window (`src/condo/Screen.cs`).
The control shows an attached terminal buffer. It keeps three things:

- a copy of the visible cells (`characters[x, y]`), which the buffer fills through
  `IRenderTarget.RenderCharacter`;
- a vertical scroll offset into the buffer's rows, with the buffer size it last read as the
  scroll extent;
- a redraw flag. Buffer notifications and scroll moves set it, and the per-frame handler
  consumes it.

On every frame that is due, the control redraws each row as runs of cells that share colours.

Modules:

- `ConsoleBuffer`: the values the screen receives from the terminal engine. These are cells
  (`Character`, `ColorInfo`), the sizes a buffer reports (`BufferInfo`: `Width`, `Height`,
  `BufferSize`) and one `RenderCharacter` call (`RenderCall`).
- `Scrolling`: the scroll state machine as pure functions of a `ScrollState` (offset, redraw
  flag, extent, viewport height):
  - `Clamp` is the clamping setter's arithmetic;
  - `Assign` is the `VerticalOffset` setter;
  - `Move` is a relative move;
  - `BufferChanged` is the `PropertyChanged` handler;
  - `Frame` is the frame handler's offset logic.

  The module also holds lemmas about sequences of these steps: idempotence, round trips,
  follow-the-bottom and bounds preservation.
- `Runs`: colour-run segmentation of one row. `Segments` is defined by recursion. The lemmas
  prove that it is a partition of the row into non-empty, consecutive, uniform and maximal runs,
  that such a partition is unique, and that every cell lies in exactly one run.
- `RenderCalls`: what a sequence of `RenderCharacter` calls leaves in a cell. A cell holds the
  character of the last call that targets it, or keeps its old character if no call does.
- `Condo`: the class `Screen`. Its fields are those of the source: `verticalOffset`,
  `shouldRedraw`, `consoleBufferSize`, the attached buffer's width and height, and the
  `characters` grid, an `array2` indexed `[x, y]` like the C# `Character[,]`. Every method is
  proved against the functions above:
  - each scroll method's new state is `Assign`, `Move`, `BufferChanged` or `Frame` of the old
    state;
  - `RenderCharacter` replaces exactly one cell;
  - `Redraw` returns, for every row, exactly `Segments` of that row. Its per-row inner loop is
    the method `RedrawRow`.

Modelling decisions:

- Offsets are C# `double`s. All values involved are integers well below 2^53, so they are
  modelled as `int`.
- The frame handler requests `double.MaxValue` to pin the view to the bottom. That request is
  the exact integer (2^53 − 1)·2^971 (`Scrolling.DoubleMaxValue`).
- Extents and buffer sizes are C# `int`s (`Int32`).
- `shouldRedraw` is a `volatile int` that only ever holds 0 or 1. It is modelled as a `bool`.
- The attached buffer's `Width` and `Height` are at least 1, because a terminal grid is never
  empty.
- Assumption: the attached buffer's `Width` and `Height` do not change while it stays attached.
  The source reads them live in `Redraw`, `ViewportHeight` and the page moves, but sizes
  `characters` only in `Resize`. The model reads the size taken at attach
  time (`bufferWidth`, `bufferHeight`) instead.
- The buffer's live `BufferSize`, which the frame handler reads, is a parameter of `RenderFrame`.
- `Buffer.RenderFromLine(this, startLine)` is a sequence of `RenderCharacter` calls. It is a
  parameter of `RenderFrame`, and every call lies inside the grid.
- The "throttle elapsed" test is a boolean parameter.

Two consequences of the source that the lemmas make explicit:

- Attaching a new buffer does not reset the offset. The bounds invariant is therefore
  guaranteed after every assignment, but frames preserve it only while the buffer does not
  shrink (`FramePreservesBounds`).
- When the extent is smaller than the viewport, the "at the bottom" test can never hold
  (`ShortBufferNeverAtBottom`). A terminal buffer's size is its scrollback plus its height,
  so this does not arise with a well-behaved buffer.

## Model

| member | source | states |
|---|---|---|
| Scrolling.Clamp | src/condo/Screen.cs:264 | the result lies in `[0, max(0, ExtentHeight − ViewportHeight)]`; a request at or below 0 lands on 0, one at or beyond `ExtentHeight − ViewportHeight` lands on the maximum, and one in range is kept |
| Scrolling.Assign | src/condo/Screen.cs:256-271 | after the setter the offset is in range and is the clamped request; if that equals the current offset nothing changes (flag included), otherwise the redraw flag is raised; extent and viewport unchanged |
| Scrolling.Move | src/condo/Screen.cs:275-311 | from an in-range offset, a relative move ends in range, moves in the direction of its delta by at most the delta, by exactly the delta when the target is in range, and changes nothing when already at the end it moves towards |
| Scrolling.BufferChanged | src/condo/Screen.cs:98-110 | only the redraw flag can change, and it is raised iff the property name is empty and the offset equals `ExtentHeight − ViewportHeight` with the not yet refreshed extent; a named property changes nothing |
| Scrolling.Frame | src/condo/Screen.cs:112-133 | a frame that is not due changes nothing; one that runs takes the buffer size as extent, moves a bottom-pinned view to `max(0, BufferSize − Height)` and re-raises the flag only if that moved it, and leaves any other view's offset untouched with the flag cleared |
| Scrolling.AssignIdempotent | src/condo/Screen.cs:264-269 | assigning the same request twice is the same as once |
| Scrolling.MoveRoundTrip | src/condo/Screen.cs:275-311 | a move that stays in range is undone by the opposite move |
| Scrolling.FramePreservesBounds | src/condo/Screen.cs:121-127 | a frame keeps an in-range offset in range when the buffer does not shrink |
| Scrolling.FollowBottom | src/condo/Screen.cs:98-127 | a view at the bottom that receives a content notification and then a due frame (throttle elapsed), with `Height ≤ BufferSize`, is left at the new bottom `BufferSize − Height` with extent `BufferSize` |
| Scrolling.ScrolledBackStays | src/condo/Screen.cs:100-117 | a view that is not at the bottom, with no redraw pending, is left entirely unchanged by a content notification and the frame after it |
| Scrolling.ShortBufferNeverAtBottom | src/condo/Screen.cs:105 | with an extent smaller than the viewport, no in-range offset is at the bottom, so a content notification changes nothing |
| Runs.ScanRun | src/condo/Screen.cs:204-209 | the scan stops at the first cell that is the row's end or differs in foreground or background from the run's first cell; every cell passed has the first cell's colours |
| Runs.SegmentsFrom | src/condo/Screen.cs:196-235 | the runs from a start cell are empty exactly when the start is the row's end; otherwise the first starts at that cell, the last ends at the row's end, and there are at most as many runs as cells left |
| Runs.Segments | src/condo/Screen.cs:196-235 | a row has no runs exactly when it is empty; otherwise the first run starts at cell 0, the last ends at `Width`, and there are at most `Width` runs |
| Runs.SegmentsFromPartition | src/condo/Screen.cs:196-235 | the runs from any start cover the rest of the row with non-empty, consecutive runs, each uniform in colour, carrying its first cell's colours, and followed by a differing cell or the row's end |
| Runs.SegmentsPartition | src/condo/Screen.cs:196-235 | the runs of a row are a maximal single-coloured partition of `[0, Width)` |
| Runs.ScanRunUnique | src/condo/Screen.cs:204-209 | a run end that makes the run uniform and maximal is the one the scan finds |
| Runs.PartitionFromUnique | src/condo/Screen.cs:196-235 | any maximal single-coloured partition of the rest of a row equals the runs computed from that start |
| Runs.PartitionUnique | src/condo/Screen.cs:196-235 | any maximal single-coloured partition of a row is the one `Redraw` draws |
| Runs.PartitionExtend | src/condo/Screen.cs:207-234 | a run that is uniform from `runStart` and stops where the colours change or the row ends extends a partition of the cells before `runStart` to one of the cells before `x` |
| Runs.TilesOrdered | src/condo/Screen.cs:231-234 | the runs are strictly increasing: an earlier run ends no later than a later one starts |
| Runs.TilesCoverOnce | src/condo/Screen.cs:204-235 | every cell of the row lies in exactly one run |
| RenderCalls.CellAfter | src/condo/Screen.cs:181-184 | after a sequence of `RenderCharacter` calls a cell holds either its old character or the character of some call that targets it |
| RenderCalls.CellAfterUntouched | src/condo/Screen.cs:181-184 | a cell that no `RenderCharacter` call targets keeps its character |
| RenderCalls.CellAfterLastCall | src/condo/Screen.cs:181-184 | a targeted cell holds the character of the last call that targets it |
| Condo.Screen.ExtentHeight | src/condo/Screen.cs:247 | `ExtentHeight` is the stored buffer size, the scroll state's extent, and lies in the `int` range |
| Condo.Screen.ViewportHeight | src/condo/Screen.cs:251 | `ViewportHeight` is the scroll state's viewport, and for a valid screen it is at least 1 and equals the grid's number of rows |
| Condo.Screen.NewGrid | src/condo/Screen.cs:173 | the new grid has `Width × Height` cells, all zero-initialised |
| Condo.Screen.constructor | src/condo/Screen.cs:69-96 | a new screen has the buffer's shape, a zero-initialised grid, extent `BufferSize`, offset 0 and no pending redraw |
| Condo.Screen.SetBuffer | src/condo/Screen.cs:167-179 | attaching a buffer gives `characters` exactly `Width × Height` fresh cells and sets `consoleBufferSize` to `BufferSize`, keeping offset and flag |
| Condo.Screen.AssignVerticalOffset | src/condo/Screen.cs:256-271 | the new scroll state is `Assign` of the old one |
| Condo.Screen.LineUp | src/condo/Screen.cs:275-278 | the new scroll state is the old one moved by −1 |
| Condo.Screen.LineDown | src/condo/Screen.cs:280-283 | the new scroll state is the old one moved by +1 |
| Condo.Screen.PageUp | src/condo/Screen.cs:289-292 | the new scroll state is the old one moved by −`Height` |
| Condo.Screen.PageDown | src/condo/Screen.cs:294-297 | the new scroll state is the old one moved by +`Height` |
| Condo.Screen.MouseWheelUp | src/condo/Screen.cs:303-306 | the new scroll state is the old one moved by −3 |
| Condo.Screen.MouseWheelDown | src/condo/Screen.cs:308-311 | the new scroll state is the old one moved by +3 |
| Condo.Screen.SetVerticalOffset | src/condo/Screen.cs:319-322 | the new scroll state is `Assign` of the old one with the given absolute offset |
| Condo.Screen.OnBufferPropertyChanged | src/condo/Screen.cs:98-110 | the new scroll state is `BufferChanged` of the old one; only the flag may change |
| Condo.Screen.RenderCharacter | src/condo/Screen.cs:181-184 | cell `(x, y)` becomes `c` and every other cell is unchanged |
| Condo.Screen.RenderFromLine | src/condo/Screen.cs:130 | after the buffer's calls every cell is `CellAfter` of the calls and its old character |
| Condo.Screen.Redraw | src/condo/Screen.cs:186-239 | for every row, the runs `[runStart, x)` drawn are `Segments` of that row, hence its unique partition into maximal single-coloured runs, each drawn with its first cell's colours |
| Condo.Screen.RedrawRow | src/condo/Screen.cs:196-236 | the inner loop over one row emits exactly `Segments` of the row, a maximal single-coloured partition of `[0, Width)`; no cell index at or past `Width` is read |
| Condo.Screen.RenderFrame | src/condo/Screen.cs:112-133 | the new scroll state is `Frame` of the old one; a frame runs iff the throttle elapsed and a redraw was pending; a frame that runs renders from the new offset, applies the buffer's calls and redraws every row, and one that does not changes nothing |

## Left out

- The terminal engine behind `ConsoleBuffer.Buffer` is not part of this model: the parser, the
  grid and scrollback, `BufferSize`, the palette and `RenderFromLine`'s choice of cells. The
  buffer appears only as its reported sizes and as the sequence of `RenderCharacter` calls it
  makes.
- `Character` is reduced to a glyph and two colours. Its other attributes are not shown and are
  not read by the screen.
- WPF drawing in `Redraw`: glyph-map lookup, advance widths, `GlyphRun`, brushes, rectangles,
  DPI and font metrics. These are floating-point layout calls into a foreign framework. Only
  the run boundaries and their brush colours are kept. The unused `fg`/`bg` reads of cell
  `(0, y)` before the loop are dropped; they are in bounds because the width is at least 1.
- Timing: the `Stopwatch` throttle (`MaxRedrawFrequency`) and the scheduling through
  `CompositionTarget.Rendering`. "Throttle elapsed" is an input.
- The cross-thread handoff through `volatile shouldRedraw`. The handler and the frame are
  modelled as sequential steps.
- `ScrollOwner?.ScrollToVerticalOffset` at the end of a frame. The scroll viewer is an external
  widget.
- Fractional `double` offsets that a `ScrollViewer` may pass to `SetVerticalOffset`. Only
  integer offsets are modelled.
- Event subscription in the `Buffer` setter, `Close`, the null check on the new buffer (the
  model's buffer is a value that is always present), `Palette` assignment, `horizontalCells`,
  `verticalCells` and the control's `Width`/`Height` in `Resize`, `MeasureOverride`, and the
  visual-children plumbing.
- The designer-only parameterless constructor and its debug output, the commented-out
  cursor-blink code, the mouse-cursor handlers, the horizontal-scroll no-ops, and `MakeVisible`,
  which only throws `NotImplementedException`.
- Condo.Screen.RenderCharacter: the cell index is required to lie inside the grid. The
  `IndexOutOfRangeException` that the source throws at `src/condo/Screen.cs:183` for a cell
  outside it is not modelled. The buffer's live `Width`/`Height` are replaced by the size at
  attach time.
- Condo.Screen.Redraw: the loop bounds read the buffer's live `Width` and `Height`
  (`src/condo/Screen.cs:194, 204, 207`); the model uses the size at attach time. If the
  buffer were resized without a `Resize`, the source would throw `IndexOutOfRangeException`
  at `src/condo/Screen.cs:199` or `208`; that path is not modelled.
- Condo.Screen.ViewportHeight, Condo.Screen.PageUp and Condo.Screen.PageDown: the live
  `Buffer.Height` is replaced by the height at attach time.
- `src/condo/MainWindow.xaml.cs` and `src/condo/App.xaml.cs`: window wiring and exception
  forwarding, with no screen logic.
- `src/ConsoleBuffer/IRenderTarget.cs` is mirrored only as the signature of
  `Condo.Screen.RenderCharacter`.
