/** The `Screen` control of the condo terminal window: it keeps a copy of the visible cells of
    the attached buffer, a vertical scroll offset into the buffer's rows, and a redraw flag set
    by buffer notifications and scroll moves and consumed by the per-frame handler. */
module Condo {
  import opened ConsoleBuffer
  import opened Scrolling
  import opened Runs
  import opened RenderCalls

  class Screen {
    /** `Buffer.Width` and `Buffer.Height` of the attached buffer. */
    var bufferWidth: Int32
    var bufferHeight: Int32
    /** The cells pushed by the buffer, indexed `[x, y]`. */
    var characters: array2<Character>
    /** `shouldRedraw != 0`. */
    var shouldRedraw: bool
    /** The buffer size read at the last resize or frame: `ExtentHeight`. */
    var consoleBufferSize: Int32
    var verticalOffset: int

    /** The grid has the attached buffer's shape, and the offset is never negative. */
    ghost predicate Valid()
      reads this
    {
      1 <= bufferWidth && 1 <= bufferHeight &&
      characters.Length0 == bufferWidth && characters.Length1 == bufferHeight &&
      0 <= verticalOffset
    }

    /** The scroll state as a value. */
    ghost function Scroll(): ScrollState
      reads this
    {
      ScrollState(verticalOffset, shouldRedraw, consoleBufferSize, bufferHeight)
    }

    /** `ExtentHeight`: the buffer size last read, the extent of the scroll state. */
    function ExtentHeight(): (h: int)
      reads this
      ensures h == Scroll().extent && -0x8000_0000 <= h < 0x8000_0000
    {
      consoleBufferSize
    }

    /** `ViewportHeight`: the attached buffer's `Height`, which is the number of rows of the
        grid and the viewport of the scroll state. */
    function ViewportHeight(): (h: int)
      reads this
      ensures h == Scroll().viewport
      ensures Valid() ==> 1 <= h && h == characters.Length1
    {
      bufferHeight
    }

    /** Row `y` of the grid, as a sequence of cells. */
    ghost function Row(y: int): (row: seq<Character>)
      reads this, characters
      requires 0 <= y < characters.Length1
      ensures |row| == characters.Length0
      ensures forall x :: 0 <= x < |row| ==> row[x] == characters[x, y]
    {
      var grid := characters;
      seq(grid.Length0, x requires 0 <= x < grid.Length0 reads grid => grid[x, y])
    }

    /** The call writes a cell inside the grid. */
    predicate InGrid(call: RenderCall)
      reads this
    {
      0 <= call.x < bufferWidth && 0 <= call.y < bufferHeight
    }

    /** `new Character[width, height]`: every cell zero-initialised. */
    static method NewGrid(width: nat, height: nat) returns (g: array2<Character>)
      ensures fresh(g) && g.Length0 == width && g.Length1 == height
      ensures forall i, j :: 0 <= i < width && 0 <= j < height ==> g[i, j] == DefaultCharacter
    {
      g := new Character[width, height]((i, j) => DefaultCharacter);
    }

    /** A screen attached to `buffer`, scrolled to the top with nothing to redraw. */
    constructor (buffer: BufferInfo)
      requires buffer.Valid()
      ensures Valid() && fresh(characters)
      ensures bufferWidth == buffer.width && bufferHeight == buffer.height
      ensures Scroll() == ScrollState(0, false, buffer.bufferSize, buffer.height)
      ensures forall i, j :: 0 <= i < bufferWidth && 0 <= j < bufferHeight ==>
                characters[i, j] == DefaultCharacter
    {
      var grid := NewGrid(buffer.width, buffer.height);
      bufferWidth, bufferHeight, characters := buffer.width, buffer.height, grid;
      consoleBufferSize := buffer.bufferSize;
      verticalOffset, shouldRedraw := 0, false;
    }

    /** The `Buffer` setter with `Resize`: the grid is reallocated to the new buffer's
        `Width` x `Height` and the extent becomes its `BufferSize`; the offset and the redraw
        flag are kept as they were. */
    method SetBuffer(buffer: BufferInfo)
      requires Valid() && buffer.Valid()
      modifies this
      ensures Valid() && fresh(characters)
      ensures bufferWidth == buffer.width && bufferHeight == buffer.height
      ensures consoleBufferSize == buffer.bufferSize
      ensures verticalOffset == old(verticalOffset) && shouldRedraw == old(shouldRedraw)
      ensures forall i, j :: 0 <= i < bufferWidth && 0 <= j < bufferHeight ==>
                characters[i, j] == DefaultCharacter
    {
      bufferWidth, bufferHeight := buffer.width, buffer.height;
      characters := NewGrid(buffer.width, buffer.height);
      consoleBufferSize := buffer.bufferSize;
    }

    /** The `VerticalOffset` setter. */
    method AssignVerticalOffset(value: int)
      requires Valid()
      modifies this`verticalOffset, this`shouldRedraw
      ensures Valid()
      ensures Scroll() == Assign(old(Scroll()), value)
    {
      var newValue := Max(0, Min(ExtentHeight() - ViewportHeight(), value));
      if verticalOffset != newValue {
        verticalOffset := newValue;
        shouldRedraw := true;
      }
    }

    method LineUp()
      requires Valid()
      modifies this`verticalOffset, this`shouldRedraw
      ensures Valid()
      ensures Scroll() == Move(old(Scroll()), -LineDelta)
    {
      AssignVerticalOffset(verticalOffset - LineDelta);
    }

    method LineDown()
      requires Valid()
      modifies this`verticalOffset, this`shouldRedraw
      ensures Valid()
      ensures Scroll() == Move(old(Scroll()), LineDelta)
    {
      AssignVerticalOffset(verticalOffset + LineDelta);
    }

    method PageUp()
      requires Valid()
      modifies this`verticalOffset, this`shouldRedraw
      ensures Valid()
      ensures Scroll() == Move(old(Scroll()), -bufferHeight)
    {
      AssignVerticalOffset(verticalOffset - bufferHeight);
    }

    method PageDown()
      requires Valid()
      modifies this`verticalOffset, this`shouldRedraw
      ensures Valid()
      ensures Scroll() == Move(old(Scroll()), bufferHeight)
    {
      AssignVerticalOffset(verticalOffset + bufferHeight);
    }

    method MouseWheelUp()
      requires Valid()
      modifies this`verticalOffset, this`shouldRedraw
      ensures Valid()
      ensures Scroll() == Move(old(Scroll()), -WheelDelta)
    {
      AssignVerticalOffset(verticalOffset - WheelDelta);
    }

    method MouseWheelDown()
      requires Valid()
      modifies this`verticalOffset, this`shouldRedraw
      ensures Valid()
      ensures Scroll() == Move(old(Scroll()), WheelDelta)
    {
      AssignVerticalOffset(verticalOffset + WheelDelta);
    }

    /** `IScrollInfo.SetVerticalOffset`: an absolute move. */
    method SetVerticalOffset(offset: int)
      requires Valid()
      modifies this`verticalOffset, this`shouldRedraw
      ensures Valid()
      ensures Scroll() == Assign(old(Scroll()), offset)
    {
      AssignVerticalOffset(offset);
    }

    /** The handler of the buffer's `PropertyChanged` event. */
    method OnBufferPropertyChanged(propertyName: string)
      requires Valid()
      modifies this`shouldRedraw
      ensures Valid()
      ensures Scroll() == BufferChanged(old(Scroll()), propertyName)
    {
      if propertyName == "" {
        if verticalOffset == ExtentHeight() - ViewportHeight() {
          shouldRedraw := true;
        }
      }
    }

    /** `IRenderTarget.RenderCharacter`: replaces exactly the cell at (`x`, `y`). */
    method RenderCharacter(c: Character, x: int, y: int)
      requires Valid()
      requires 0 <= x < bufferWidth && 0 <= y < bufferHeight
      modifies characters
      ensures characters[x, y] == c
      ensures forall i, j :: 0 <= i < characters.Length0 && 0 <= j < characters.Length1 && (i != x || j != y) ==>
                characters[i, j] == old(characters[i, j])
    {
      characters[x, y] := c;
    }

    /** `Buffer.RenderFromLine(this, startLine)`: the buffer calls `RenderCharacter` once per
        cell it pushes; `calls` is that sequence of calls, all inside the grid. */
    method RenderFromLine(calls: seq<RenderCall>)
      requires Valid()
      requires forall k :: 0 <= k < |calls| ==> InGrid(calls[k])
      modifies characters
      ensures forall i, j :: 0 <= i < characters.Length0 && 0 <= j < characters.Length1 ==>
                characters[i, j] == CellAfter(calls, i, j, old(characters[i, j]))
    {
      var n := 0;
      while n < |calls|
        invariant 0 <= n <= |calls|
        invariant forall i, j :: 0 <= i < characters.Length0 && 0 <= j < characters.Length1 ==>
                    characters[i, j] == CellAfter(calls[..n], i, j, old(characters[i, j]))
      {
        RenderCharacter(calls[n].c, calls[n].x, calls[n].y);
        assert calls[..n + 1][..n] == calls[..n];
        n := n + 1;
      }
      assert calls[..n] == calls;
    }

    /** The run boundaries of `Redraw`: for each row, the runs `[runStart, x)` it draws, with
        the colours of each run's first cell as brushes. Each row's runs are the unique
        partition of the row into maximal single-coloured runs. */
    method Redraw() returns (runs: seq<seq<Run>>)
      requires Valid()
      ensures |runs| == bufferHeight
      ensures forall y :: 0 <= y < bufferHeight ==> runs[y] == Segments(Row(y))
      ensures forall y :: 0 <= y < bufferHeight ==> IsColourPartition(Row(y), runs[y])
    {
      runs := [];
      var y := 0;
      while y < bufferHeight
        invariant 0 <= y <= bufferHeight
        invariant |runs| == y
        invariant forall k :: 0 <= k < y ==> runs[k] == Segments(Row(k))
      {
        var rowRuns := RedrawRow(y);
        runs := runs + [rowRuns];
        y := y + 1;
      }
      forall k | 0 <= k < bufferHeight ensures IsColourPartition(Row(k), runs[k]) {
        SegmentsPartition(Row(k));
      }
    }

    /** One row of `Redraw`: the inner loop that grows a run while the next cell has the
        colours of the run's first cell and emits it at a colour change or at the row's end.
        No cell at or past `Buffer.Width` is read, because the comparison `x == Width` comes first in the condition. */
    method RedrawRow(y: int) returns (rowRuns: seq<Run>)
      requires Valid() && 0 <= y < bufferHeight
      ensures rowRuns == Segments(Row(y))
      ensures IsColourPartition(Row(y), rowRuns)
    {
      ghost var row := Row(y);
      rowRuns := [];
      var runStart := 0;
      var x := 0;
      while x < bufferWidth
        invariant 0 <= runStart <= x <= bufferWidth
        invariant runStart == x || x < bufferWidth
        invariant forall i :: runStart <= i <= x && i < bufferWidth ==> SameColours(row[runStart], row[i])
        invariant PartitionUpTo(row, rowRuns, runStart)
      {
        x := x + 1;
        if x == bufferWidth
          || characters[runStart, y].foreground != characters[x, y].foreground
          || characters[runStart, y].background != characters[x, y].background
        {
          var ch := characters[runStart, y];
          assert ch == row[runStart] && (x < bufferWidth ==> characters[x, y] == row[x]);
          PartitionExtend(row, rowRuns, runStart, x);
          rowRuns := rowRuns + [Run(runStart, x, ch.foreground, ch.background)];
          runStart := x;
        } else {
          assert characters[runStart, y] == row[runStart] && characters[x, y] == row[x];
        }
      }
      PartitionUnique(row, rowRuns);
    }

    /** The per-frame handler (`CompositionTarget.Rendering`): when the throttle has elapsed
        and a redraw is pending it updates the scroll state as `Frame` says, lets the buffer
        push the cells from the new offset on, and redraws every row as colour runs; otherwise
        it does nothing. */
    method RenderFrame(throttleElapsed: bool, bufferSize: Int32, calls: seq<RenderCall>)
      returns (ran: bool, startLine: int, runs: seq<seq<Run>>)
      requires Valid()
      requires forall k :: 0 <= k < |calls| ==> InGrid(calls[k])
      modifies this`verticalOffset, this`shouldRedraw, this`consoleBufferSize, characters
      ensures Valid()
      ensures Scroll() == Frame(old(Scroll()), throttleElapsed, bufferSize)
      ensures ran <==> throttleElapsed && old(shouldRedraw)
      ensures ran ==> startLine == verticalOffset
      ensures forall i, j :: 0 <= i < characters.Length0 && 0 <= j < characters.Length1 ==>
                characters[i, j] == if ran then CellAfter(calls, i, j, old(characters[i, j])) else old(characters[i, j])
      ensures ran ==> |runs| == bufferHeight && forall y :: 0 <= y < bufferHeight ==> runs[y] == Segments(Row(y))
      ensures !ran ==> runs == []
    {
      ran := throttleElapsed && shouldRedraw;
      startLine, runs := verticalOffset, [];
      if ran {
        shouldRedraw := false;
        var updateOffset := verticalOffset == ExtentHeight() - ViewportHeight();
        consoleBufferSize := bufferSize;
        if updateOffset {
          AssignVerticalOffset(DoubleMaxValue);
        }
        startLine := verticalOffset;
        RenderFromLine(calls);
        runs := Redraw();
      }
    }
  }
}
