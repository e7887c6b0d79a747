/**
 * The mobile layout of Timeline.tsx: one row per entry of `prepared`, stacked
 * top to bottom, each as tall as its duration and separated from the next by
 * a gap that reflects the idle months between the two entries.
 */
module Mobile {

  import opened Dates
  import opened Experience
  import opened Lanes
  import opened Geometry

  const LabelHeight := 24
  const DotSize := 10
  const DotOffset := 28
  const SegmentGap := 12
  const LabelGap := 12
  /** `minGapPx`: the smallest gap between two rows. */
  const MinGapPx := LabelHeight + 16
  /** `segmentTop`: where a row's duration segment starts, below its dot. */
  const SegmentTop := DotOffset + DotSize + SegmentGap

  /** A `TimelineRow` of kind "item". */
  datatype Row = Row(
    item: Item,
    top: int,
    durationHeight: int,
    segmentTop: int,
    startLabelTop: int,
    rowHeight: int,
    isLeft: bool,
    laneOffset: int)

  /** `durationMonths`: the months from start to end, counted inclusively, and at least one. */
  function DurationMonths(entry: Entry): (r: int)
    ensures r >= 1
    ensures InOrder(entry) ==> r == MonthDiff(entry.startDate, entry.endDate) + 1
    ensures !InOrder(entry) ==> r == 1
  {
    Max(1, MonthDiff(entry.startDate, entry.endDate) + 1)
  }

  /** `rowHeight`: the dot, the segment, the start label and the gaps between them. */
  function RowHeight(entry: Entry): int {
    SegmentTop + DurationMonths(entry) * MonthHeight + LabelGap + LabelHeight
  }

  /**
   * `gapHeight` between the row of `entry` and that of `next`, the entry
   * below it: one month row per whole month between `next`'s end and
   * `entry`'s start, and never less than `minGapPx`.
   */
  function GapHeight(entry: Entry, next: Entry): (r: int)
    ensures r >= MinGapPx
    ensures r >= (MonthDiff(next.endDate, entry.startDate) - 1) * MonthHeight
    ensures r == MinGapPx || r == (MonthDiff(next.endDate, entry.startDate) - 1) * MonthHeight
  {
    var gapMonths := Max(0, MonthDiff(next.endDate, entry.startDate) - 1);
    Max(MinGapPx, gapMonths * MonthHeight)
  }

  /** `cursorTop` after the first `n` entries of `prepared` are laid out. */
  function Cursor(prepared: seq<Entry>, n: nat): int
    requires n <= |prepared|
  {
    if n == 0 then 0
    else
      Cursor(prepared, n - 1) + RowHeight(prepared[n - 1])
        + (if n < |prepared| then GapHeight(prepared[n - 1], prepared[n]) else 0)
  }

  /** The row pushed for the entry at `index`. */
  function RowAt(prepared: seq<Entry>, index: nat): Row
    requires index < |prepared|
  {
    var entry := prepared[index];
    var durationHeight := DurationMonths(entry) * MonthHeight;
    var startLabelTop := SegmentTop + durationHeight + LabelGap;
    Row(entry.item, Cursor(prepared, index), durationHeight, SegmentTop, startLabelTop,
        startLabelTop + LabelHeight, index % 2 == 0, 0)
  }

  /**
   * The `prepared.forEach` loop that builds `rows`; the final `cursorTop` is
   * the height of the mobile container.
   */
  method MobileRows(prepared: seq<Entry>) returns (rows: seq<Row>, cursorTop: int)
    ensures |rows| == |prepared|
    ensures forall i :: 0 <= i < |rows| ==> rows[i] == RowAt(prepared, i)
    ensures cursorTop == Cursor(prepared, |prepared|)
  {
    rows := [];
    cursorTop := 0;
    var index := 0;
    while index < |prepared|
      invariant 0 <= index <= |prepared|
      invariant |rows| == index
      invariant forall i :: 0 <= i < index ==> rows[i] == RowAt(prepared, i)
      invariant cursorTop == Cursor(prepared, index)
    {
      var entry := prepared[index];
      var durationMonths := Max(1, MonthDiff(entry.startDate, entry.endDate) + 1);
      var durationHeight := durationMonths * MonthHeight;
      var startLabelTop := SegmentTop + durationHeight + LabelGap;
      var rowHeight := startLabelTop + LabelHeight;
      RowStep(prepared, index, cursorTop);
      rows := rows + [Row(entry.item, cursorTop, durationHeight, SegmentTop, startLabelTop, rowHeight, index % 2 == 0, 0)];
      if index + 1 < |prepared| {
        var next := prepared[index + 1];
        var gapMonths := Max(0, MonthDiff(next.endDate, entry.startDate) - 1);
        var gapHeight := Max(MinGapPx, gapMonths * MonthHeight);
        cursorTop := cursorTop + rowHeight + gapHeight;
      } else {
        cursorTop := cursorTop + rowHeight;
      }
      index := index + 1;
    }
  }

  /** The row the loop pushes at `index`, and the cursor it moves on to. */
  lemma RowStep(prepared: seq<Entry>, index: nat, cursorTop: int)
    requires index < |prepared| && cursorTop == Cursor(prepared, index)
    ensures var entry := prepared[index];
      var durationHeight := Max(1, MonthDiff(entry.startDate, entry.endDate) + 1) * MonthHeight;
      var startLabelTop := SegmentTop + durationHeight + LabelGap;
      && RowAt(prepared, index) ==
        Row(entry.item, cursorTop, durationHeight, SegmentTop, startLabelTop, startLabelTop + LabelHeight, index % 2 == 0, 0)
      && Cursor(prepared, index + 1) == cursorTop + startLabelTop + LabelHeight +
        (if index + 1 < |prepared|
         then Max(MinGapPx, Max(0, MonthDiff(prepared[index + 1].endDate, entry.startDate) - 1) * MonthHeight)
         else 0)
  {
  }

  // ---------------------------------------------------------------------------
  // Lemmas
  // ---------------------------------------------------------------------------

  /**
   * Rows never overlap: every later row starts at least `minGapPx` below the
   * bottom of an earlier one.
   */
  lemma {:induction false} RowsApart(prepared: seq<Entry>, i: nat, j: nat)
    requires i < j < |prepared|
    ensures RowAt(prepared, i).top + RowAt(prepared, i).rowHeight + MinGapPx <= RowAt(prepared, j).top
  {
    if j > i + 1 {
      RowsApart(prepared, i, j - 1);
      assert Cursor(prepared, j) >= Cursor(prepared, j - 1) + RowHeight(prepared[j - 1]);
    }
  }

  /**
   * A row is 86 pixels plus its months, and the next row starts one gap
   * below it: at least the height of the whole months between the lower
   * entry's end and the upper entry's start.
   */
  lemma RowGap(prepared: seq<Entry>, i: nat)
    requires i + 1 < |prepared|
    ensures RowAt(prepared, i).rowHeight == SegmentTop + LabelGap + LabelHeight + DurationMonths(prepared[i]) * MonthHeight
    ensures RowAt(prepared, i + 1).top == RowAt(prepared, i).top + RowAt(prepared, i).rowHeight + GapHeight(prepared[i], prepared[i + 1])
    ensures RowAt(prepared, i + 1).top - (RowAt(prepared, i).top + RowAt(prepared, i).rowHeight) >=
      (MonthDiff(prepared[i + 1].endDate, prepared[i].startDate) - 1) * MonthHeight
  {
  }

  /** The cursor never goes back: it grows by at least a row's height per entry. */
  lemma {:induction false} CursorGrows(prepared: seq<Entry>, m: nat, n: nat)
    requires m <= n <= |prepared|
    ensures Cursor(prepared, n) >= Cursor(prepared, m)
    ensures m < n ==> Cursor(prepared, n) >= Cursor(prepared, m) + RowHeight(prepared[m])
  {
    if m < n {
      CursorGrows(prepared, m, n - 1);
      assert Cursor(prepared, n) >= Cursor(prepared, n - 1) + RowHeight(prepared[n - 1]);
    }
  }

  /**
   * The container is tall enough for every row, and has no height exactly
   * when there are no rows.
   */
  lemma RowsInside(prepared: seq<Entry>, index: nat)
    requires index < |prepared|
    ensures 0 <= RowAt(prepared, index).top
    ensures RowAt(prepared, index).top + RowAt(prepared, index).rowHeight <= Cursor(prepared, |prepared|)
  {
    CursorGrows(prepared, 0, index);
    CursorGrows(prepared, index, |prepared|);
  }

  /** The mobile container has no height exactly when there are no entries. */
  lemma MobileHeightZero(prepared: seq<Entry>)
    ensures Cursor(prepared, |prepared|) >= 0
    ensures Cursor(prepared, |prepared|) == 0 <==> prepared == []
  {
    CursorGrows(prepared, 0, |prepared|);
  }

  /**
   * An entry whose two dates fall in the same month lasts one month, on a
   * phone and on the desktop track.
   */
  lemma SameMonthOneMonth(prepared: seq<Entry>, now: Point, index: nat)
    requires index < |prepared|
    requires prepared[index].startDate.year == prepared[index].endDate.year
    requires prepared[index].startDate.month == prepared[index].endDate.month
    ensures DurationMonths(prepared[index]) == 1
    ensures Fits(prepared, GridOf(prepared, now))
    ensures TrackAt(prepared, GridOf(prepared, now), index).durationMonths == 1
  {
    MobileMatchesDesktop(prepared, now, index);
  }

  /** Rows alternate sides, starting on the left. */
  lemma RowsAlternate(prepared: seq<Entry>, index: nat)
    requires index + 1 < |prepared|
    ensures RowAt(prepared, 0).isLeft
    ensures RowAt(prepared, index).isLeft != RowAt(prepared, index + 1).isLeft
  {
  }

  /**
   * A card is as long on a phone as on the desktop track: the mobile
   * segment of an entry is its desktop card's months times `monthHeight`.
   */
  lemma MobileMatchesDesktop(prepared: seq<Entry>, now: Point, index: nat)
    requires index < |prepared|
    ensures Fits(prepared, GridOf(prepared, now))
    ensures RowAt(prepared, index).durationHeight ==
      TrackAt(prepared, GridOf(prepared, now), index).durationMonths * MonthHeight
  {
    GridOfFits(prepared, now);
    var grid := GridOf(prepared, now);
    var e := prepared[index];
    NotBeforeMonthDiff(e.endDate, grid.maxEndDate);
    var laneIndex := LaneOf(grid.laneAssignments, IdOf(e));
    TrackSpansEntry(e, index, laneIndex, grid.laneCount, grid.laneOffsets[laneIndex], grid.maxOffset, grid.maxEndDate);
  }
}
