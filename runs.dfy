/** Colour runs of one grid row: `Redraw` draws each row as consecutive runs of cells that
    share foreground and background, each with one background rectangle and one glyph run.
    Here the runs are defined by recursion on the row, characterised as the unique maximal
    uniform partition of the row, and the method `Condo.Screen.Redraw` is proved to emit them. */
module Runs {
  import opened ConsoleBuffer

  /** A run of cells `[start, end)` of a row, with the brushes it is drawn with. */
  datatype Run = Run(start: int, end: int, foreground: ColorInfo, background: ColorInfo)

  /** The end of the run that begins at `start`, scanning on from `x`: the first index at
      or after `x` that is the row's end or whose colours differ from those of `row[start]`. */
  function ScanRun(row: seq<Character>, start: nat, x: nat): (e: nat)
    requires start < x <= |row|
    decreases |row| - x
    ensures x <= e <= |row|
    ensures forall i :: x <= i < e ==> SameColours(row[start], row[i])
    ensures e < |row| ==> !SameColours(row[start], row[e])
  {
    if x == |row| || !SameColours(row[start], row[x]) then x else ScanRun(row, start, x + 1)
  }

  /** The runs covering `row[from..]`, each as long as the colours allow: none for an empty
      rest, otherwise a first run starting at `from` and a last run ending at the row's end, and
      never more runs than cells. */
  function SegmentsFrom(row: seq<Character>, from: nat): (runs: seq<Run>)
    requires from <= |row|
    decreases |row| - from
    ensures from == |row| <==> runs == []
    ensures runs != [] ==> runs[0].start == from && runs[|runs| - 1].end == |row|
    ensures |runs| <= |row| - from
  {
    if from == |row| then []
    else
      var end := ScanRun(row, from, from + 1);
      [Run(from, end, row[from].foreground, row[from].background)] + SegmentsFrom(row, end)
  }

  /** The runs `Redraw` draws for one row: none for an empty row, otherwise from the first
      cell to the last, never more runs than cells (`SegmentsPartition` states the rest). */
  function Segments(row: seq<Character>): (runs: seq<Run>)
    ensures row == [] <==> runs == []
    ensures runs != [] ==> runs[0].start == 0 && runs[|runs| - 1].end == |row|
    ensures |runs| <= |row|
  {
    SegmentsFrom(row, 0)
  }

  /** `runs` are non-empty, consecutive, and cover `[from, to)`. */
  predicate Tiles(runs: seq<Run>, from: int, to: int) {
    (|runs| == 0 ==> from == to) &&
    (|runs| > 0 ==> runs[0].start == from && runs[|runs| - 1].end == to) &&
    (forall k :: 0 <= k < |runs| ==> runs[k].start < runs[k].end) &&
    (forall k :: 1 <= k < |runs| ==> runs[k - 1].end == runs[k].start)
  }

  /** Run `r` lies in `row`, carries the colours of its first cell, every cell in it has those
      colours, and the cell right after it (if any) does not. */
  predicate FitsRow(row: seq<Character>, r: Run) {
    0 <= r.start < r.end <= |row| &&
    r.foreground == row[r.start].foreground && r.background == row[r.start].background &&
    (forall i :: r.start <= i < r.end ==> SameColours(row[r.start], row[i])) &&
    (r.end < |row| ==> !SameColours(row[r.start], row[r.end]))
  }

  /** `runs` partition `row[from..]` into maximal single-coloured runs. */
  predicate PartitionFrom(row: seq<Character>, from: int, runs: seq<Run>) {
    Tiles(runs, from, |row|) && forall k :: 0 <= k < |runs| ==> FitsRow(row, runs[k])
  }

  /** `runs` partition the whole row into maximal single-coloured runs. */
  predicate IsColourPartition(row: seq<Character>, runs: seq<Run>) {
    PartitionFrom(row, 0, runs)
  }

  /** `runs` partition `row[..upTo]` into single-coloured runs, each maximal in the whole row. */
  predicate PartitionUpTo(row: seq<Character>, runs: seq<Run>, upTo: int) {
    Tiles(runs, 0, upTo) && forall k :: 0 <= k < |runs| ==> FitsRow(row, runs[k])
  }

  /** A uniform run from `start` that stops at `end` extends a partition of `row[..start]` to
      one of `row[..end]`. */
  lemma PartitionExtend(row: seq<Character>, runs: seq<Run>, start: int, end: int)
    requires PartitionUpTo(row, runs, start)
    requires 0 <= start < end <= |row|
    requires forall i :: start <= i < end ==> SameColours(row[start], row[i])
    requires end == |row| || !SameColours(row[start], row[end])
    ensures PartitionUpTo(row, runs + [Run(start, end, row[start].foreground, row[start].background)], end)
  {
    var r := Run(start, end, row[start].foreground, row[start].background);
    var ext := runs + [r];
    assert FitsRow(row, r);
    forall k | 0 <= k < |ext| ensures FitsRow(row, ext[k]) {
      if k < |runs| { assert ext[k] == runs[k]; }
    }
    forall k | 1 <= k < |ext| ensures ext[k - 1].end == ext[k].start {
      if k < |runs| { assert ext[k - 1] == runs[k - 1] && ext[k] == runs[k]; }
    }
  }

  /** The recursive definition yields such a partition. */
  lemma {:induction false} SegmentsFromPartition(row: seq<Character>, from: nat)
    requires from <= |row|
    ensures PartitionFrom(row, from, SegmentsFrom(row, from))
    decreases |row| - from
  {
    if from < |row| {
      var end := ScanRun(row, from, from + 1);
      SegmentsFromPartition(row, end);
      var first := Run(from, end, row[from].foreground, row[from].background);
      var rest := SegmentsFrom(row, end);
      assert SegmentsFrom(row, from) == [first] + rest;
      assert FitsRow(row, first);
    }
  }

  /** Once the scan of the run at `start` is known to end at `end`, the runs from `start` are
      that run followed by the runs from `end`. */
  lemma SegmentsFromStep(row: seq<Character>, start: nat, end: nat)
    requires start < end <= |row|
    requires ScanRun(row, start, start + 1) == end
    ensures SegmentsFrom(row, start) == [Run(start, end, row[start].foreground, row[start].background)] + SegmentsFrom(row, end)
  {
  }

  /** Every row is partitioned by `Segments`. */
  lemma SegmentsPartition(row: seq<Character>)
    ensures IsColourPartition(row, Segments(row))
  {
    SegmentsFromPartition(row, 0);
  }

  /** A run end that makes the run uniform and maximal is the one `ScanRun` finds. */
  lemma {:induction false} ScanRunUnique(row: seq<Character>, start: nat, x: nat, e: int)
    requires start < x <= e <= |row|
    requires forall i :: x <= i < e ==> SameColours(row[start], row[i])
    requires e < |row| ==> !SameColours(row[start], row[e])
    ensures ScanRun(row, start, x) == e
    decreases |row| - x
  {
    if x < e {
      ScanRunUnique(row, start, x + 1, e);
    }
  }

  /** Dropping the first run of a partition leaves a partition of the rest of the row. */
  lemma PartitionFromTail(row: seq<Character>, from: int, runs: seq<Run>)
    requires PartitionFrom(row, from, runs) && |runs| > 0
    ensures PartitionFrom(row, runs[0].end, runs[1..])
  {
    var rest := runs[1..];
    forall k | 1 <= k < |rest| ensures rest[k - 1].end == rest[k].start {
      assert rest[k - 1] == runs[k] && rest[k] == runs[k + 1];
    }
    forall k | 0 <= k < |rest| ensures FitsRow(row, rest[k]) {
      assert rest[k] == runs[k + 1];
    }
  }

  /** There is only one maximal single-coloured partition of `row[from..]`: the one
      `SegmentsFrom` gives. */
  lemma {:induction false} PartitionFromUnique(row: seq<Character>, from: nat, runs: seq<Run>)
    requires from <= |row|
    requires PartitionFrom(row, from, runs)
    ensures runs == SegmentsFrom(row, from)
    decreases |row| - from
  {
    if from < |row| {
      var r := runs[0];
      assert FitsRow(row, r);
      ScanRunUnique(row, from, from + 1, r.end);
      SegmentsFromStep(row, from, r.end);
      PartitionFromTail(row, from, runs);
      PartitionFromUnique(row, r.end, runs[1..]);
      assert runs == [r] + runs[1..];
    }
  }

  /** Whatever maximal single-coloured partition of a row one takes, it is `Segments(row)`. */
  lemma PartitionUnique(row: seq<Character>, runs: seq<Run>)
    requires IsColourPartition(row, runs)
    ensures runs == Segments(row)
  {
    PartitionFromUnique(row, 0, runs);
  }

  /** Tiling runs are strictly ordered: an earlier run ends no later than a later one starts. */
  lemma {:induction false} TilesOrdered(runs: seq<Run>, from: int, to: int, j: int, k: int)
    requires Tiles(runs, from, to)
    requires 0 <= j < k < |runs|
    ensures runs[j].end <= runs[k].start
    decreases k - j
  {
    if j + 1 < k {
      TilesOrdered(runs, from, to, j, k - 1);
    }
  }

  /** Every cell of `[from, to)` lies in exactly one run of a tiling. */
  lemma {:induction false} TilesCoverOnce(runs: seq<Run>, from: int, to: int, i: int)
    requires Tiles(runs, from, to)
    requires from <= i < to
    ensures exists k :: 0 <= k < |runs| && runs[k].start <= i < runs[k].end
    ensures forall j, k :: 0 <= j < k < |runs| ==> !(runs[j].start <= i < runs[j].end && runs[k].start <= i < runs[k].end)
    decreases |runs|
  {
    var last := |runs| - 1;
    if i < runs[last].start {
      var prefix := runs[..last];
      assert Tiles(prefix, from, runs[last].start) by {
        assert forall k :: 0 <= k < |prefix| ==> prefix[k] == runs[k];
      }
      TilesCoverOnce(prefix, from, runs[last].start, i);
      var k :| 0 <= k < |prefix| && prefix[k].start <= i < prefix[k].end;
      assert runs[k] == prefix[k];
    } else {
      assert runs[last].start <= i < runs[last].end;
    }
    forall j, k | 0 <= j < k < |runs|
      ensures !(runs[j].start <= i < runs[j].end && runs[k].start <= i < runs[k].end)
    {
      TilesOrdered(runs, from, to, j, k);
    }
  }
}
