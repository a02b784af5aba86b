/** The cells a buffer pushes through `IRenderTarget.RenderCharacter`, applied in order:
    each call replaces one cell, so a cell ends up holding the last character written to it. */
module RenderCalls {
  import opened ConsoleBuffer

  /** The call writes the cell at (`x`, `y`). */
  predicate Targets(call: RenderCall, x: int, y: int) {
    call.x == x && call.y == y
  }

  /** The cell at (`x`, `y`) after `calls`, applied in order, to a grid that held `before` there:
      either its old character or the character of some call that targets it. */
  function CellAfter(calls: seq<RenderCall>, x: int, y: int, before: Character): (c: Character)
    ensures c == before || exists k :: 0 <= k < |calls| && Targets(calls[k], x, y) && c == calls[k].c
  {
    if calls == [] then before
    else
      var last := calls[|calls| - 1];
      if Targets(last, x, y) then last.c else CellAfter(calls[..|calls| - 1], x, y, before)
  }

  /** A cell no call targets keeps its character. */
  lemma {:induction false} CellAfterUntouched(calls: seq<RenderCall>, x: int, y: int, before: Character)
    requires forall k :: 0 <= k < |calls| ==> !Targets(calls[k], x, y)
    ensures CellAfter(calls, x, y, before) == before
  {
    if calls != [] {
      var prefix := calls[..|calls| - 1];
      assert forall k :: 0 <= k < |prefix| ==> prefix[k] == calls[k];
      CellAfterUntouched(prefix, x, y, before);
    }
  }

  /** A targeted cell holds the character of the last call that targets it. */
  lemma {:induction false} CellAfterLastCall(calls: seq<RenderCall>, k: int, before: Character)
    requires 0 <= k < |calls|
    requires forall m :: k < m < |calls| ==> !Targets(calls[m], calls[k].x, calls[k].y)
    ensures CellAfter(calls, calls[k].x, calls[k].y, before) == calls[k].c
  {
    if k < |calls| - 1 {
      var prefix := calls[..|calls| - 1];
      assert forall m :: 0 <= m < |prefix| ==> prefix[m] == calls[m];
      CellAfterLastCall(prefix, k, before);
    }
  }
}
