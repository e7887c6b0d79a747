/**
 * The desktop track of Timeline.tsx: one `TrackItem` per entry of `prepared`,
 * placed on a grid of month rows (newest month on top) and lane columns, and
 * bucketed by lane and by side.
 */
module Geometry {

  import opened Dates
  import opened Experience
  import opened Lanes
  import opened Columns

  /** `monthHeight`: pixels per month row. */
  const MonthHeight := 28

  /** A card on the desktop track. Rows are 1-based grid lines; `rowEnd` is exclusive. */
  datatype TrackItem = TrackItem(
    item: Item,
    laneIndex: int,
    columnIndex: int,
    rowStart: int,
    rowEnd: int,
    durationMonths: int,
    isLeft: bool,
    top: int)

  /** The values of the component body that the `prepared.forEach` loop reads. */
  datatype Grid = Grid(
    laneAssignments: map<string, int>,
    laneCount: int,
    laneOffsets: seq<int>,
    maxOffset: int,
    maxEndDate: Point)

  function Max(a: int, b: int): int {
    if a > b then a else b
  }

  /**
   * Every entry's lane indexes `laneOffsets` and `lanes`. The source never
   * looks a lane up out of range (see `GridOfFits`).
   */
  ghost predicate Fits(prepared: seq<Entry>, grid: Grid) {
    && grid.laneCount >= 0
    && |grid.laneOffsets| == grid.laneCount
    && forall i :: 0 <= i < |prepared| ==> 0 <= LaneOf(grid.laneAssignments, IdOf(prepared[i])) < grid.laneCount
  }

  /** The grid the component computes from `prepared`. */
  function GridOf(prepared: seq<Entry>, now: Point): Grid {
    var laneCount := LaneCountOf(prepared);
    Grid(LaneAssignments(prepared), laneCount, Offsets(laneCount), MaxOffset(laneCount), MaxEndDate(prepared, now))
  }

  /**
   * The body of `prepared.forEach` for the entry at `index`: rows count months
   * back from `maxEndDate`, the card lasts at least one month, and the side is
   * that of the lane's offset, alternating by index in the centre lane or when
   * there is only one lane.
   */
  function Track(entry: Entry, index: nat, laneIndex: int, laneCount: int, columnOffset: int, maxOffset: int, maxEndDate: Point): (t: TrackItem)
    ensures t.item == entry.item && t.laneIndex == laneIndex
    ensures t.columnIndex == columnOffset + maxOffset
    ensures t.rowStart >= 1 && t.durationMonths >= 1
    ensures t.rowEnd == t.rowStart + t.durationMonths
    ensures t.top == (t.rowStart - 1) * MonthHeight
    ensures MonthDiff(entry.endDate, maxEndDate) >= 0 ==> t.rowStart == MonthDiff(entry.endDate, maxEndDate) + 1
    ensures t.isLeft <==> if laneCount == 1 || columnOffset == 0 then index % 2 == 0 else columnOffset < 0
  {
    var endIndex := Max(0, MonthDiff(entry.endDate, maxEndDate));
    var startIndex := Max(endIndex, MonthDiff(entry.startDate, maxEndDate));
    var durationMonths := Max(1, startIndex - endIndex + 1);
    var rowStart := endIndex + 1;
    var rowEnd := rowStart + durationMonths;
    var isLeft :=
      if laneCount == 1 then index % 2 == 0
      else if columnOffset < 0 then true
      else if columnOffset > 0 then false
      else index % 2 == 0;
    TrackItem(entry.item, laneIndex, columnOffset + maxOffset, rowStart, rowEnd, durationMonths, isLeft, (rowStart - 1) * MonthHeight)
  }

  /** The track item of the entry at `index`. */
  function TrackAt(prepared: seq<Entry>, grid: Grid, index: nat): TrackItem
    requires Fits(prepared, grid) && index < |prepared|
  {
    var laneIndex := LaneOf(grid.laneAssignments, IdOf(prepared[index]));
    Track(prepared[index], index, laneIndex, grid.laneCount, grid.laneOffsets[laneIndex], grid.maxOffset, grid.maxEndDate)
  }

  /** The track items of all entries, in `prepared` order. */
  function Tracks(prepared: seq<Entry>, grid: Grid): (r: seq<TrackItem>)
    requires Fits(prepared, grid)
    ensures |r| == |prepared|
    ensures forall i :: 0 <= i < |prepared| ==> r[i] == TrackAt(prepared, grid, i)
  {
    seq(|prepared|, i requires 0 <= i < |prepared| => TrackAt(prepared, grid, i))
  }

  /** The items of lane `lane`, in order. */
  function InLane(tracks: seq<TrackItem>, lane: int): (r: seq<TrackItem>)
    ensures forall i :: 0 <= i < |r| ==> r[i].laneIndex == lane
    ensures |r| <= |tracks|
  {
    if tracks == [] then []
    else InLane(tracks[..|tracks| - 1], lane) + (if tracks[|tracks| - 1].laneIndex == lane then [tracks[|tracks| - 1]] else [])
  }

  /** The items on the left (`left`) or on the right (`!left`), in order. */
  function OnSide(tracks: seq<TrackItem>, left: bool): (r: seq<TrackItem>)
    ensures forall i :: 0 <= i < |r| ==> r[i].isLeft == left
    ensures |r| <= |tracks|
  {
    if tracks == [] then []
    else OnSide(tracks[..|tracks| - 1], left) + (if tracks[|tracks| - 1].isLeft == left then [tracks[|tracks| - 1]] else [])
  }

  /**
   * `lanes[k]` holds the items of lane `k` and the two sides hold the items
   * on the left and on the right, each in the order of `tracks`.
   */
  ghost predicate Bucketed(tracks: seq<TrackItem>, lanes: seq<seq<TrackItem>>, leftItems: seq<TrackItem>, rightItems: seq<TrackItem>) {
    && (forall k :: 0 <= k < |lanes| ==> lanes[k] == InLane(tracks, k))
    && leftItems == OnSide(tracks, true)
    && rightItems == OnSide(tracks, false)
  }

  /**
   * The `prepared.forEach` loop: `lanes[laneIndex].push(trackItem)`, then the
   * item goes to `leftItems` or `rightItems`.
   */
  method PlaceItems(prepared: seq<Entry>, grid: Grid)
    returns (lanes: seq<seq<TrackItem>>, leftItems: seq<TrackItem>, rightItems: seq<TrackItem>)
    requires Fits(prepared, grid)
    ensures |lanes| == grid.laneCount
    ensures Bucketed(Tracks(prepared, grid), lanes, leftItems, rightItems)
  {
    ghost var tracks := Tracks(prepared, grid);
    lanes := seq(grid.laneCount, _ => []);
    leftItems, rightItems := [], [];
    assert Bucketed(tracks[..0], lanes, leftItems, rightItems) by {
      assert tracks[..0] == [];
    }
    var index := 0;
    while index < |prepared|
      invariant 0 <= index <= |prepared|
      invariant |lanes| == grid.laneCount
      invariant Bucketed(tracks[..index], lanes, leftItems, rightItems)
    {
      var entry := prepared[index];
      var laneIndex := LaneOf(grid.laneAssignments, IdOf(entry));
      var trackItem := Track(entry, index, laneIndex, grid.laneCount, grid.laneOffsets[laneIndex], grid.maxOffset, grid.maxEndDate);
      TrackOfIndex(prepared, grid, index);
      PlaceStep(tracks, index, lanes, leftItems, rightItems, laneIndex);
      lanes := lanes[laneIndex := lanes[laneIndex] + [trackItem]];
      if trackItem.isLeft {
        leftItems := leftItems + [trackItem];
      } else {
        rightItems := rightItems + [trackItem];
      }
      index := index + 1;
    }
    assert tracks[..index] == tracks;
  }

  /** The item the loop builds for the entry at `index` is that entry's track item. */
  lemma TrackOfIndex(prepared: seq<Entry>, grid: Grid, index: nat)
    requires Fits(prepared, grid) && index < |prepared|
    ensures var laneIndex := LaneOf(grid.laneAssignments, IdOf(prepared[index]));
      0 <= laneIndex < grid.laneCount &&
      |Tracks(prepared, grid)| == |prepared| &&
      Tracks(prepared, grid)[index] ==
        Track(prepared[index], index, laneIndex, grid.laneCount, grid.laneOffsets[laneIndex], grid.maxOffset, grid.maxEndDate)
  {
  }

  /** One turn of the `prepared.forEach` loop keeps the buckets those of the prefix placed so far. */
  lemma PlaceStep(tracks: seq<TrackItem>, index: nat, lanes: seq<seq<TrackItem>>,
                  leftItems: seq<TrackItem>, rightItems: seq<TrackItem>, laneIndex: int)
    requires index < |tracks| && 0 <= laneIndex < |lanes| && tracks[index].laneIndex == laneIndex
    requires Bucketed(tracks[..index], lanes, leftItems, rightItems)
    ensures Bucketed(tracks[..index + 1], lanes[laneIndex := lanes[laneIndex] + [tracks[index]]],
      if tracks[index].isLeft then leftItems + [tracks[index]] else leftItems,
      if tracks[index].isLeft then rightItems else rightItems + [tracks[index]])
  {
    FilterStep(tracks, index);
  }

  /** Filtering one item longer a prefix appends that item, or nothing. */
  lemma FilterStep(tracks: seq<TrackItem>, n: nat)
    requires n < |tracks|
    ensures forall k :: InLane(tracks[..n + 1], k) == InLane(tracks[..n], k) + (if tracks[n].laneIndex == k then [tracks[n]] else [])
    ensures forall left :: OnSide(tracks[..n + 1], left) == OnSide(tracks[..n], left) + (if tracks[n].isLeft == left then [tracks[n]] else [])
  {
    assert tracks[..n + 1][..n] == tracks[..n];
  }

  // ---------------------------------------------------------------------------
  // Lemmas
  // ---------------------------------------------------------------------------

  /** The grid the component computes never looks a lane up out of range. */
  lemma GridOfFits(prepared: seq<Entry>, now: Point)
    ensures Fits(prepared, GridOf(prepared, now))
  {
    LaneCountBounds(prepared);
    forall i | 0 <= i < |prepared|
      ensures 0 <= LaneOf(LaneAssignments(prepared), IdOf(prepared[i])) < LaneCountOf(prepared)
    {
      AssignmentsInRange(prepared, IdOf(prepared[i]));
    }
  }

  /**
   * For an entry whose end month is not after `maxEndDate`'s, the card spans
   * the months from its end back to its start, the same number of months the
   * mobile layout gives it.
   */
  lemma TrackSpansEntry(entry: Entry, index: nat, laneIndex: int, laneCount: int, columnOffset: int, maxOffset: int, maxEndDate: Point)
    requires MonthDiff(entry.endDate, maxEndDate) >= 0
    ensures Track(entry, index, laneIndex, laneCount, columnOffset, maxOffset, maxEndDate).durationMonths ==
      Max(1, MonthDiff(entry.startDate, entry.endDate) + 1)
  {
    MonthDiffChain(entry.startDate, entry.endDate, maxEndDate);
  }

  /**
   * Every entry of `prepared` that does not end before it starts fits the
   * grid: its rows lie between row 1 and `totalMonths + 1`, and its column
   * between 0 and `columnCount`.
   */
  lemma TrackInGrid(prepared: seq<Entry>, now: Point, index: nat)
    requires index < |prepared| && InOrder(prepared[index])
    ensures Fits(prepared, GridOf(prepared, now))
    ensures var t := TrackAt(prepared, GridOf(prepared, now), index);
      && 1 <= t.rowStart < t.rowEnd <= TotalMonths(prepared, now) + 1
      && 0 <= t.columnIndex < ColumnCount(LaneCountOf(prepared))
  {
    GridOfFits(prepared, now);
    var grid := GridOf(prepared, now);
    var e := prepared[index];
    var lane := LaneOf(grid.laneAssignments, IdOf(e));
    assert !Before(grid.maxEndDate, e.endDate);
    assert !Before(e.startDate, MinStartDate(prepared, now));
    TrackRows(e, index, lane, grid.laneCount, grid.laneOffsets[lane], grid.maxOffset, grid.maxEndDate,
              MinStartDate(prepared, now), TotalMonths(prepared, now));
    ColumnsFit(LaneCountOf(prepared), lane, lane);
  }

  /**
   * The rows of an entry in order that lies between `minStart` and
   * `maxEndDate` stay within the `totalMonths` rows of the grid.
   */
  lemma TrackRows(entry: Entry, index: nat, laneIndex: int, laneCount: int, columnOffset: int, maxOffset: int,
                  maxEndDate: Point, minStart: Point, totalMonths: int)
    requires InOrder(entry) && !Before(maxEndDate, entry.endDate) && !Before(entry.startDate, minStart)
    requires totalMonths >= MonthDiff(minStart, maxEndDate) + 1
    ensures var t := Track(entry, index, laneIndex, laneCount, columnOffset, maxOffset, maxEndDate);
      1 <= t.rowStart < t.rowEnd <= totalMonths + 1
  {
    NotBeforeMonthDiff(entry.endDate, maxEndDate);
    NotBeforeMonthDiff(entry.startDate, entry.endDate);
    NotBeforeMonthDiff(minStart, entry.startDate);
    MonthDiffChain(entry.startDate, entry.endDate, maxEndDate);
    MonthDiffChain(minStart, entry.startDate, maxEndDate);
  }

  /**
   * With more than one lane, a card in an odd lane is on the left, one in a
   * non-zero even lane on the right, and the centre lane alternates by index.
   */
  lemma TrackSide(prepared: seq<Entry>, now: Point, index: nat)
    requires index < |prepared|
    ensures Fits(prepared, GridOf(prepared, now))
    ensures var t := TrackAt(prepared, GridOf(prepared, now), index);
      t.isLeft <==>
        if LaneCountOf(prepared) == 1 || t.laneIndex == 0 then index % 2 == 0 else t.laneIndex % 2 == 1
  {
    GridOfFits(prepared, now);
    var lane := LaneOf(GridOf(prepared, now).laneAssignments, IdOf(prepared[index]));
    OffsetSide(lane);
  }

  /** Lane `lane` holds exactly the items assigned to it. */
  lemma {:induction false} InLaneMembers(tracks: seq<TrackItem>, lane: int)
    ensures forall t :: t in InLane(tracks, lane) <==> t in tracks && t.laneIndex == lane
  {
    if tracks != [] {
      var n := |tracks| - 1;
      InLaneMembers(tracks[..n], lane);
      assert tracks == tracks[..n] + [tracks[n]];
    }
  }

  /** A side holds exactly the items placed on it. */
  lemma {:induction false} OnSideMembers(tracks: seq<TrackItem>, left: bool)
    ensures forall t :: t in OnSide(tracks, left) <==> t in tracks && t.isLeft == left
  {
    if tracks != [] {
      var n := |tracks| - 1;
      OnSideMembers(tracks[..n], left);
      assert tracks == tracks[..n] + [tracks[n]];
    }
  }

  /** Every card is on exactly one side. */
  lemma {:induction false} SidesPartition(tracks: seq<TrackItem>)
    ensures |OnSide(tracks, true)| + |OnSide(tracks, false)| == |tracks|
  {
    if tracks != [] {
      SidesPartition(tracks[..|tracks| - 1]);
    }
  }
}
