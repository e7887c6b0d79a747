/**
 * The body of the `Timeline` component, from the experience items to every
 * value its desktop and mobile markup reads. `now` is a parameter.
 */
module Timeline {

  import opened Dates
  import opened Sorting
  import opened Experience
  import opened Lanes
  import opened Columns
  import opened Geometry
  import opened Stacking
  import opened Lines
  import opened Mobile
  import opened Card

  /** Everything the component computes before it renders. */
  datatype Layout = Layout(
    prepared: seq<Entry>,
    laneCount: int,
    laneAssignments: map<string, int>,
    laneOffsets: seq<int>,
    maxOffset: int,
    columnCount: int,
    totalMonths: int,
    lanes: seq<seq<TrackItem>>,
    leftItems: seq<TrackItem>,
    rightItems: seq<TrackItem>,
    leftStackInfo: map<string, StackInfo>,
    rightStackInfo: map<string, StackInfo>,
    laneLines: seq<LaneLine>,
    rows: seq<Row>,
    cursorTop: int)

  /**
   * Lanes, columns and the desktop track: `laneCount` and `laneAssignments`,
   * the lane offsets, and the cards bucketed by lane and by side.
   */
  method Desktop(prepared: seq<Entry>, now: Point)
    returns (laneCount: nat, laneAssignments: map<string, int>, laneOffsets: seq<int>, maxOffset: int,
             lanes: seq<seq<TrackItem>>, leftItems: seq<TrackItem>, rightItems: seq<TrackItem>)
    ensures laneCount == LaneCountOf(prepared) && laneCount >= 1
    ensures laneAssignments == LaneAssignments(prepared)
    ensures laneOffsets == Offsets(laneCount) && maxOffset == MaxOffset(laneCount)
    ensures Fits(prepared, GridOf(prepared, now))
    ensures |lanes| == laneCount
    ensures Bucketed(Tracks(prepared, GridOf(prepared, now)), lanes, leftItems, rightItems)
    ensures |leftItems| + |rightItems| == |prepared|
  {
    laneCount, laneAssignments := AssignLanes(prepared);
    LaneCountBounds(prepared);
    laneOffsets := LaneOffsets(laneCount);
    assert laneOffsets == Offsets(laneCount);
    maxOffset := MaxAbs(laneOffsets, 0);
    var grid := Grid(laneAssignments, laneCount, laneOffsets, maxOffset, MaxEndDate(prepared, now));
    assert grid == GridOf(prepared, now);
    GridOfFits(prepared, now);
    lanes, leftItems, rightItems := PlaceItems(prepared, grid);
    SidesPartition(Tracks(prepared, grid));
    assert |leftItems| + |rightItems| == |prepared|;
  }

  /** `prepared` has one entry per item. */
  lemma PreparedLength(items: seq<Item>, now: Point)
    ensures |Prepared(items, now)| == |items|
  {
    PreparedOrder(items, now);
    assert |multiset(Prepared(items, now))| == |multiset(ResolveAll(items, now))|;
  }

  /**
   * For records with unique ids, a card on either side of the desktop track
   * is compact exactly when another card of the same side starts on its row.
   */
  lemma CompactOnTimeline(items: seq<Item>, now: Point, left: bool)
    requires UniqueIds(items)
    ensures Fits(Prepared(items, now), GridOf(Prepared(items, now), now))
    ensures var side := OnSide(Tracks(Prepared(items, now), GridOf(Prepared(items, now), now)), left);
      forall i :: 0 <= i < |side| ==>
        (Compact(StackInfoOf(side), TrackId(side[i])) <==> |Group(side, side[i].rowStart)| >= 2)
  {
    var prepared := Prepared(items, now);
    PreparedDistinct(items, now);
    GridOfFits(prepared, now);
    var side := OnSide(Tracks(prepared, GridOf(prepared, now)), left);
    SidesDistinct(prepared, GridOf(prepared, now), left);
    forall i | 0 <= i < |side|
      ensures Compact(StackInfoOf(side), TrackId(side[i])) <==> |Group(side, side[i].rowStart)| >= 2
    {
      CompactWhenStacked(side, i);
    }
  }

  /**
   * The component body in source order. Each value is the one its own
   * specification function describes, and every entry ends up on exactly
   * one side of the track.
   */
  method ComputeLayout(items: seq<Item>, now: Point) returns (layout: Layout)
    ensures layout.prepared == Prepared(items, now)
    ensures layout.laneCount == LaneCountOf(layout.prepared) && layout.laneCount >= 1
    ensures layout.laneAssignments == LaneAssignments(layout.prepared)
    ensures layout.laneOffsets == Offsets(layout.laneCount)
    ensures layout.maxOffset == MaxOffset(layout.laneCount)
    ensures layout.columnCount == ColumnCount(layout.laneCount)
    ensures layout.totalMonths == TotalMonths(layout.prepared, now) && layout.totalMonths >= 1
    ensures Fits(layout.prepared, GridOf(layout.prepared, now))
    ensures |layout.lanes| == layout.laneCount
    ensures Bucketed(Tracks(layout.prepared, GridOf(layout.prepared, now)), layout.lanes, layout.leftItems, layout.rightItems)
    ensures |layout.leftItems| + |layout.rightItems| == |items|
    ensures layout.leftStackInfo == StackInfoOf(layout.leftItems)
    ensures layout.rightStackInfo == StackInfoOf(layout.rightItems)
    ensures layout.laneLines == LaneLines(layout.lanes, layout.maxOffset)
    ensures |layout.rows| == |items|
    ensures forall i :: 0 <= i < |layout.rows| ==> layout.rows[i] == RowAt(layout.prepared, i)
    ensures layout.cursorTop == Cursor(layout.prepared, |layout.prepared|)
  {
    var prepared := Prepared(items, now);
    PreparedLength(items, now);
    var totalMonths := TotalMonths(prepared, now);
    var laneCount, laneAssignments, laneOffsets, maxOffset, lanes, leftItems, rightItems := Desktop(prepared, now);
    var columnCount := maxOffset * 2 + 1;
    var leftStackInfo := BuildStackInfo(leftItems);
    var rightStackInfo := BuildStackInfo(rightItems);
    var laneLines := LaneLines(lanes, maxOffset);
    var rows, cursorTop := MobileRows(prepared);
    layout := Layout(prepared, laneCount, laneAssignments, laneOffsets, maxOffset, columnCount, totalMonths,
                     lanes, leftItems, rightItems, leftStackInfo, rightStackInfo, laneLines, rows, cursorTop);
  }
}
