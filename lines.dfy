/**
 * `laneLines` in Timeline.tsx: one vertical line per lane that holds cards,
 * from the top row of its cards to the bottom row. The line of the centre
 * column runs the full height.
 */
module Lines {

  import opened Wrappers
  import opened Dates
  import opened Experience
  import opened Lanes
  import opened Columns
  import opened Geometry

  datatype LaneLine = LaneLine(columnIndex: int, minRowStart: int, maxRowEnd: int, fullHeight: bool)

  /** `Math.min(...laneItems.map((item) => item.rowStart))`. */
  function MinRowStart(items: seq<TrackItem>): (r: int)
    requires items != []
    ensures forall t :: t in items ==> r <= t.rowStart
    ensures exists t :: t in items && r == t.rowStart
  {
    if |items| == 1 then items[0].rowStart
    else
      var rest := MinRowStart(items[1..]);
      assert forall t :: t in items[1..] ==> t in items;
      if items[0].rowStart < rest then items[0].rowStart else rest
  }

  /** `Math.max(...laneItems.map((item) => item.rowEnd))`. */
  function MaxRowEnd(items: seq<TrackItem>): (r: int)
    requires items != []
    ensures forall t :: t in items ==> t.rowEnd <= r
    ensures exists t :: t in items && r == t.rowEnd
  {
    if |items| == 1 then items[0].rowEnd
    else
      var rest := MaxRowEnd(items[1..]);
      assert forall t :: t in items[1..] ==> t in items;
      if items[0].rowEnd > rest then items[0].rowEnd else rest
  }

  /** The `lanes.map(...)` callback: `null` for an empty lane, otherwise the lane's line. */
  function LineOf(laneItems: seq<TrackItem>, centerColumn: int): (r: Option<LaneLine>)
    ensures r.None? <==> laneItems == []
    ensures r.Some? ==> r.value.columnIndex == laneItems[0].columnIndex
    ensures r.Some? ==> (r.value.fullHeight <==> laneItems[0].columnIndex == centerColumn)
    ensures r.Some? ==> forall t :: t in laneItems ==> r.value.minRowStart <= t.rowStart && t.rowEnd <= r.value.maxRowEnd
    ensures r.Some? ==> exists t :: t in laneItems && r.value.minRowStart == t.rowStart
    ensures r.Some? ==> exists t :: t in laneItems && r.value.maxRowEnd == t.rowEnd
  {
    if laneItems == [] then None
    else
      Some(LaneLine(laneItems[0].columnIndex, MinRowStart(laneItems), MaxRowEnd(laneItems),
                    laneItems[0].columnIndex == centerColumn))
  }

  /** `.filter(Boolean)`: the present values, in order. */
  function Present(s: seq<Option<LaneLine>>): (r: seq<LaneLine>)
    ensures |r| <= |s|
    ensures forall line :: line in r <==> Some(line) in s
  {
    if s == [] then []
    else (if s[0].Some? then [s[0].value] else []) + Present(s[1..])
  }

  /** `laneLines`. */
  function LaneLines(lanes: seq<seq<TrackItem>>, centerColumn: int): seq<LaneLine> {
    Present(seq(|lanes|, k requires 0 <= k < |lanes| => LineOf(lanes[k], centerColumn)))
  }

  // ---------------------------------------------------------------------------
  // Lemmas
  // ---------------------------------------------------------------------------

  /** There is exactly one line per lane that holds cards, and nothing else. */
  lemma LaneLinesComplete(lanes: seq<seq<TrackItem>>, centerColumn: int)
    ensures forall line :: line in LaneLines(lanes, centerColumn) <==>
      exists k :: 0 <= k < |lanes| && lanes[k] != [] && LineOf(lanes[k], centerColumn) == Some(line)
  {
    var lines := seq(|lanes|, k requires 0 <= k < |lanes| => LineOf(lanes[k], centerColumn));
    forall line ensures Some(line) in lines <==>
      exists k :: 0 <= k < |lanes| && lanes[k] != [] && LineOf(lanes[k], centerColumn) == Some(line)
    {
      if Some(line) in lines {
        var k :| 0 <= k < |lines| && lines[k] == Some(line);
        assert lanes[k] != [] && LineOf(lanes[k], centerColumn) == Some(line);
      }
      if exists k :: 0 <= k < |lanes| && lanes[k] != [] && LineOf(lanes[k], centerColumn) == Some(line) {
        var k :| 0 <= k < |lanes| && lanes[k] != [] && LineOf(lanes[k], centerColumn) == Some(line);
        assert lines[k] == Some(line);
      }
    }
  }

  /** Every track item stands in the column of its lane's offset. */
  lemma TrackColumns(prepared: seq<Entry>, grid: Grid)
    requires Fits(prepared, grid)
    ensures forall i :: 0 <= i < |Tracks(prepared, grid)| ==>
      0 <= Tracks(prepared, grid)[i].laneIndex < |grid.laneOffsets| &&
      Tracks(prepared, grid)[i].columnIndex == grid.laneOffsets[Tracks(prepared, grid)[i].laneIndex] + grid.maxOffset
  {
  }

  /** The first item of a lane, like all of its items, stands in that lane's column. */
  lemma FirstInLane(tracks: seq<TrackItem>, k: int, offsets: seq<int>, maxOffset: int)
    requires forall i :: 0 <= i < |tracks| ==>
      0 <= tracks[i].laneIndex < |offsets| && tracks[i].columnIndex == offsets[tracks[i].laneIndex] + maxOffset
    requires InLane(tracks, k) != []
    ensures 0 <= k < |offsets| && InLane(tracks, k)[0].columnIndex == offsets[k] + maxOffset
  {
    InLaneMembers(tracks, k);
    assert InLane(tracks, k)[0] in tracks;
  }

  /**
   * In the component's layout, the line of lane `k` stands in that lane's
   * column, and it runs the full height exactly when `k` is the centre lane 0.
   */
  lemma LaneLineColumn(prepared: seq<Entry>, now: Point, k: nat)
    ensures Fits(prepared, GridOf(prepared, now))
    ensures k < LaneCountOf(prepared) && InLane(Tracks(prepared, GridOf(prepared, now)), k) != [] ==>
      var line := LineOf(InLane(Tracks(prepared, GridOf(prepared, now)), k), MaxOffset(LaneCountOf(prepared))).value;
      line.columnIndex == ColumnOf(LaneCountOf(prepared), k) && (line.fullHeight <==> k == 0)
  {
    GridOfFits(prepared, now);
    var grid := GridOf(prepared, now);
    var tracks := Tracks(prepared, grid);
    if k < LaneCountOf(prepared) && InLane(tracks, k) != [] {
      TrackColumns(prepared, grid);
      FirstInLane(tracks, k, grid.laneOffsets, grid.maxOffset);
      ColumnsFit(LaneCountOf(prepared), k, k);
    }
  }
}
