/** The scroll viewport of the screen as a value: the stored offset, the redraw flag, the
    extent (the buffer size the screen last read) and the viewport height. Every change of
    offset goes through one clamping setter; the moves, the buffer-changed handler and the
    frame handler are stated here as functions of the old state, and the class `Screen`
    is proved to follow them. */
module Scrolling {
  import opened ConsoleBuffer

  /** `double.MaxValue` as an exact integer, (2^53 - 1) * 2^971: the request the frame
      handler makes to pin the view to the bottom. */
  const DoubleMaxValue: int := 0xfffffffffffff800000000000000000000000000000000000000000000000000000000000000000000000000000000000000000000000000000000000000000000000000000000000000000000000000000000000000000000000000000000000000000000000000000000000000000000000000000000000000000000000000

  /** The offset change of `LineUp`/`LineDown`. */
  const LineDelta := 1

  /** The offset change of `MouseWheelUp`/`MouseWheelDown`. */
  const WheelDelta := 3

  /** `offset` is `verticalOffset`, `redraw` is `shouldRedraw != 0`, `extent` is
      `consoleBufferSize` (`ExtentHeight`) and `viewport` is `Buffer.Height`
      (`ViewportHeight`). */
  datatype ScrollState = ScrollState(offset: int, redraw: bool, extent: Int32, viewport: Int32)

  function Max(a: int, b: int): int {
    if a < b then b else a
  }

  function Min(a: int, b: int): int {
    if a < b then a else b
  }

  /** The largest offset the setter stores: `max(0, ExtentHeight - ViewportHeight)`. */
  function MaxOffset(extent: int, viewport: int): int {
    Max(0, extent - viewport)
  }

  /** The offset lies in the range the setter produces. */
  predicate InBounds(s: ScrollState) {
    0 <= s.offset <= MaxOffset(s.extent, s.viewport)
  }

  /** The "scrolled to the bottom" test of both event handlers. */
  predicate AtBottom(s: ScrollState) {
    s.offset == s.extent - s.viewport
  }

  /** `Math.Max(0, Math.Min(ExtentHeight - ViewportHeight, value))`: the result is in range,
      a request beyond either end lands exactly on that end, and one inside is kept. */
  function Clamp(value: int, extent: int, viewport: int): (r: int)
    ensures 0 <= r <= MaxOffset(extent, viewport)
    ensures value <= 0 ==> r == 0
    ensures extent - viewport <= value ==> r == MaxOffset(extent, viewport)
    ensures 0 <= value <= extent - viewport ==> r == value
  {
    Max(0, Min(extent - viewport, value))
  }

  /** The `VerticalOffset` setter: the offset becomes the clamped request; the redraw flag
      is raised exactly when that moves the offset, and a request that clamps to the
      current offset changes nothing at all. */
  function Assign(s: ScrollState, value: int): (t: ScrollState)
    ensures t.extent == s.extent && t.viewport == s.viewport
    ensures InBounds(t)
    ensures t.offset == Clamp(value, s.extent, s.viewport)
    ensures t.offset == s.offset ==> t == s
    ensures t.offset != s.offset ==> t.redraw
  {
    var newValue := Clamp(value, s.extent, s.viewport);
    if s.offset != newValue then s.(offset := newValue, redraw := true) else s
  }

  /** A relative move, `VerticalOffset += delta`. From an in-range offset it moves in the
      direction of `delta` by at most `|delta|`, exactly `delta` when the target is in range,
      and not at all (flag included) when already at the end it moves towards. */
  function Move(s: ScrollState, delta: int): (t: ScrollState)
    ensures InBounds(t) && t.extent == s.extent && t.viewport == s.viewport
    ensures InBounds(s) && 0 <= delta ==> s.offset <= t.offset <= s.offset + delta
    ensures InBounds(s) && delta <= 0 ==> s.offset + delta <= t.offset <= s.offset
    ensures 0 <= s.offset + delta <= MaxOffset(s.extent, s.viewport) ==> t.offset == s.offset + delta
    ensures InBounds(s) && 0 <= delta && s.offset == MaxOffset(s.extent, s.viewport) ==> t == s
    ensures InBounds(s) && delta <= 0 && s.offset == 0 ==> t == s
  {
    Assign(s, s.offset + delta)
  }

  /** The buffer's `PropertyChanged` handler: only the redraw flag can change, and it is
      raised only for the unnamed ("content changed") notification while the view is at the
      bottom. A named property such as "Title" changes nothing. */
  function BufferChanged(s: ScrollState, propertyName: string): (t: ScrollState)
    ensures t.(redraw := s.redraw) == s
    ensures t.redraw <==> s.redraw || (propertyName == "" && AtBottom(s))
  {
    if propertyName == "" && AtBottom(s) then s.(redraw := true) else s
  }

  /** The offset and flag logic of the frame handler. A frame that is not due (throttle not
      elapsed, or nothing to redraw) changes nothing. A frame that runs clears the flag and
      takes the buffer's current size as the extent; a view that was at the bottom (measured
      against the old extent) is moved to the new bottom, and the flag is raised again only if
      that moved it; any other view keeps its offset. */
  function Frame(s: ScrollState, throttleElapsed: bool, bufferSize: Int32): (t: ScrollState)
    ensures !(throttleElapsed && s.redraw) ==> t == s
    ensures throttleElapsed && s.redraw ==> t.extent == bufferSize && t.viewport == s.viewport
    ensures throttleElapsed && s.redraw && AtBottom(s) ==>
              t.offset == MaxOffset(bufferSize, s.viewport) && (t.redraw <==> t.offset != s.offset)
    ensures throttleElapsed && s.redraw && !AtBottom(s) ==> t.offset == s.offset && !t.redraw
  {
    if throttleElapsed && s.redraw then
      var cleared := s.(redraw := false);
      var updateOffset := AtBottom(cleared);
      var resized := cleared.(extent := bufferSize);
      if updateOffset then Assign(resized, DoubleMaxValue) else resized
    else
      s
  }

  /** Assigning the same request twice is the same as assigning it once. */
  lemma AssignIdempotent(s: ScrollState, value: int)
    ensures Assign(Assign(s, value), value) == Assign(s, value)
  {
  }

  /** A move that stays in range is undone by the opposite move (`LineDown` after `LineUp`,
      `PageUp` after `PageDown`, ...). */
  lemma MoveRoundTrip(s: ScrollState, delta: int)
    requires InBounds(s)
    requires 0 <= s.offset + delta <= MaxOffset(s.extent, s.viewport)
    ensures Move(Move(s, delta), -delta).offset == s.offset
  {
  }

  /** A frame keeps the offset in range as long as the buffer does not shrink. */
  lemma FramePreservesBounds(s: ScrollState, throttleElapsed: bool, bufferSize: Int32)
    requires InBounds(s) && s.extent <= bufferSize
    ensures InBounds(Frame(s, throttleElapsed, bufferSize))
  {
  }

  /** Follow-bottom: when new content arrives while the view is at the bottom, the next frame
      that runs refreshes the extent and leaves the view at the new bottom. */
  lemma FollowBottom(s: ScrollState, bufferSize: Int32)
    requires AtBottom(s) && s.viewport <= bufferSize
    ensures Frame(BufferChanged(s, ""), true, bufferSize).extent == bufferSize
    ensures AtBottom(Frame(BufferChanged(s, ""), true, bufferSize))
  {
  }

  /** A view scrolled back into the history is left alone by new content: with no redraw
      pending, the notification and any frame after it change nothing. */
  lemma ScrolledBackStays(s: ScrollState, throttleElapsed: bool, bufferSize: Int32)
    requires !AtBottom(s) && !s.redraw
    ensures Frame(BufferChanged(s, ""), throttleElapsed, bufferSize) == s
  {
  }

  /** When the extent is smaller than the viewport no in-range offset passes the bottom test,
      so content notifications never request a redraw. */
  lemma ShortBufferNeverAtBottom(s: ScrollState)
    requires InBounds(s) && s.extent < s.viewport
    ensures !AtBottom(s)
    ensures BufferChanged(s, "") == s
  {
  }
}
