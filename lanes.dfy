/**
 * Lane allocation in Timeline.tsx. The automatic entries, sorted by start,
 * go first-fit into the lowest lane whose last end lies strictly before their
 * start, or into a new lane. Each forced-parallel entry gets a lane of its own
 * after the automatic ones.
 */
module Lanes {

  import opened Dates
  import opened Sorting
  import opened Experience

  /**
   * The running state of the `sortedByStart.forEach` loop: `ends` is `laneEnds`,
   * `byId` is `laneAssignments`, and `lanes[i]` is the lane given to the
   * i-th entry.
   */
  datatype LaneState = LaneState(ends: seq<Point>, lanes: seq<int>, byId: map<string, int>)

  /** The inner `for` loop: the lowest lane whose end lies strictly before `start`, or `|ends|` if none does. */
  function FirstFit(ends: seq<Point>, start: Point): (r: nat)
    ensures r <= |ends|
    ensures r < |ends| ==> Before(ends[r], start)
    ensures forall i :: 0 <= i < r ==> !Before(ends[i], start)
  {
    if ends == [] then 0
    else if Before(ends[0], start) then 0
    else
      var r := 1 + FirstFit(ends[1..], start);
      assert forall i :: 1 <= i < r ==> ends[i] == ends[1..][i - 1];
      r
  }

  /** `laneEnds.push(end)` for a new lane, `laneEnds[lane] = end` otherwise. */
  function Place(ends: seq<Point>, lane: nat, end: Point): (r: seq<Point>)
    requires lane <= |ends|
    ensures |r| == if lane == |ends| then |ends| + 1 else |ends|
    ensures r[lane] == end
    ensures forall i :: 0 <= i < |ends| && i != lane ==> r[i] == ends[i]
  {
    if lane == |ends| then ends + [end] else ends[lane := end]
  }

  /** The state after the loop has run over `s`. */
  function Allocate(s: seq<Entry>): (r: LaneState)
    ensures |r.lanes| == |s|
    ensures |r.ends| <= |s|
    ensures s != [] ==> |r.ends| >= 1
    ensures forall i :: 0 <= i < |s| ==> 0 <= r.lanes[i] < |r.ends|
    ensures forall i :: 0 <= i < |s| ==> IdOf(s[i]) in r.byId
    ensures forall id :: id in r.byId ==> 0 <= r.byId[id] < |r.ends|
    decreases |s|
  {
    if s == [] then LaneState([], [], map[])
    else
      var t := s[..|s| - 1];
      var prev := Allocate(t);
      var e := s[|s| - 1];
      var lane := FirstFit(prev.ends, e.startDate);
      assert s == t + [e];
      LaneState(Place(prev.ends, lane, e.endDate), prev.lanes + [lane], prev.byId[IdOf(e) := lane])
  }

  /** The `forcedParallelEntries.forEach` loop: the i-th forced entry gets lane `start + i`. */
  function ForcedOnto(m: map<string, int>, forced: seq<Entry>, start: int): (r: map<string, int>)
    ensures forall id :: id in m ==> id in r
    ensures forall i :: 0 <= i < |forced| ==> IdOf(forced[i]) in r
    ensures forall id :: id in r ==> (id in m && r[id] == m[id]) || start <= r[id] < start + |forced|
    decreases |forced|
  {
    if forced == [] then m
    else
      var t := forced[..|forced| - 1];
      assert forced == t + [forced[|forced| - 1]];
      ForcedOnto(m, t, start)[IdOf(forced[|forced| - 1]) := start + |forced| - 1]
  }

  /** `sortedByStart`: the automatic entries, earliest start first, ties in `prepared` order. */
  function SortedByStart(prepared: seq<Entry>): seq<Entry> {
    StableSort(Select(prepared, false), StartAscending)
  }

  /** `baseLaneCount`: no lanes without automatic entries, otherwise as many as were opened, and at least one. */
  function BaseLaneCount(autoCount: nat, laneEndCount: nat): (r: nat)
    ensures autoCount == 0 <==> r == 0
    ensures autoCount > 0 ==> r >= laneEndCount && r >= 1
    ensures autoCount > 0 ==> r == 1 || r == laneEndCount
  {
    if autoCount > 0 then (if laneEndCount > 1 then laneEndCount else 1) else 0
  }

  /** `laneCount`: the automatic lanes plus one per forced entry, and at least one. */
  function LaneCount(base: nat, forcedCount: nat): (r: nat)
    ensures r >= 1 && r >= base + forcedCount
    ensures r == 1 || r == base + forcedCount
  {
    if base + forcedCount > 1 then base + forcedCount else 1
  }

  /** `forcedLaneStart` for the entries of `prepared`. */
  function ForcedLaneStart(prepared: seq<Entry>): nat {
    BaseLaneCount(|Select(prepared, false)|, |Allocate(SortedByStart(prepared)).ends|)
  }

  /** `laneCount` for the entries of `prepared`. */
  function LaneCountOf(prepared: seq<Entry>): nat {
    LaneCount(ForcedLaneStart(prepared), |Select(prepared, true)|)
  }

  /** `laneAssignments` once both loops are done. */
  function LaneAssignments(prepared: seq<Entry>): map<string, int> {
    ForcedOnto(Allocate(SortedByStart(prepared)).byId, Select(prepared, true), ForcedLaneStart(prepared))
  }

  /** `laneAssignments.get(id) ?? 0`. */
  function LaneOf(assignments: map<string, int>, id: string): int {
    if id in assignments then assignments[id] else 0
  }

  /** One step of `Allocate`: the state after one more entry. */
  lemma AllocateStep(s: seq<Entry>, n: nat)
    requires n < |s|
    ensures Allocate(s[..n + 1]) ==
      var prev := Allocate(s[..n]);
      var lane := FirstFit(prev.ends, s[n].startDate);
      LaneState(Place(prev.ends, lane, s[n].endDate), prev.lanes + [lane], prev.byId[IdOf(s[n]) := lane])
  {
    assert s[..n + 1][..n] == s[..n];
  }

  /** `AllocateStep` for a loop state that agrees with `Allocate` on the first `n` entries. */
  lemma AllocateNext(s: seq<Entry>, n: nat, ends: seq<Point>, byId: map<string, int>, lane: nat)
    requires n < |s|
    requires ends == Allocate(s[..n]).ends && byId == Allocate(s[..n]).byId
    requires lane == FirstFit(ends, s[n].startDate)
    ensures Place(ends, lane, s[n].endDate) == Allocate(s[..n + 1]).ends
    ensures byId[IdOf(s[n]) := lane] == Allocate(s[..n + 1]).byId
  {
    AllocateStep(s, n);
  }

  /** The inner `for` loop of the first-fit allocation, with its early `break`. */
  method FindLane(laneEnds: seq<Point>, start: Point) returns (lane: nat)
    ensures lane == FirstFit(laneEnds, start)
  {
    var assignedLane := -1;
    var i := 0;
    while i < |laneEnds|
      invariant 0 <= i <= |laneEnds|
      invariant assignedLane == -1
      invariant forall k :: 0 <= k < i ==> !Before(laneEnds[k], start)
    {
      if Before(laneEnds[i], start) {
        assignedLane := i;
        break;
      }
      i := i + 1;
    }
    if assignedLane == -1 {
      assignedLane := |laneEnds|;
    }
    lane := assignedLane;
  }

  /** The `sortedByStart.forEach` loop: lane ends and assignments are those of `Allocate`. */
  method AllocateAutoLanes(sortedByStart: seq<Entry>) returns (laneEnds: seq<Point>, laneAssignments: map<string, int>)
    ensures laneEnds == Allocate(sortedByStart).ends
    ensures laneAssignments == Allocate(sortedByStart).byId
  {
    laneEnds := [];
    laneAssignments := map[];
    var n := 0;
    while n < |sortedByStart|
      invariant 0 <= n <= |sortedByStart|
      invariant laneEnds == Allocate(sortedByStart[..n]).ends
      invariant laneAssignments == Allocate(sortedByStart[..n]).byId
    {
      var entry := sortedByStart[n];
      var assignedLane := FindLane(laneEnds, entry.startDate);
      AllocateNext(sortedByStart, n, laneEnds, laneAssignments, assignedLane);
      if assignedLane == |laneEnds| {
        laneEnds := laneEnds + [entry.endDate];
      } else {
        laneEnds := laneEnds[assignedLane := entry.endDate];
      }
      laneAssignments := laneAssignments[IdOf(entry) := assignedLane];
      n := n + 1;
    }
    assert sortedByStart[..n] == sortedByStart;
  }

  /** The `forcedParallelEntries.forEach` loop over the map left by the first-fit loop. */
  method AssignForcedLanes(assignments: map<string, int>, forced: seq<Entry>, forcedLaneStart: int)
    returns (laneAssignments: map<string, int>)
    ensures laneAssignments == ForcedOnto(assignments, forced, forcedLaneStart)
  {
    laneAssignments := assignments;
    var index := 0;
    while index < |forced|
      invariant 0 <= index <= |forced|
      invariant laneAssignments == ForcedOnto(assignments, forced[..index], forcedLaneStart)
    {
      laneAssignments := laneAssignments[IdOf(forced[index]) := forcedLaneStart + index];
      assert forced[..index + 1][..index] == forced[..index];
      index := index + 1;
    }
    assert forced[..index] == forced;
  }

  /**
   * `sortedByStart`, the first-fit loop that fills `laneEnds`, `laneCount`,
   * and the lanes of `forcedParallelEntries`.
   */
  method AssignLanes(prepared: seq<Entry>) returns (laneCount: nat, laneAssignments: map<string, int>)
    ensures laneCount == LaneCountOf(prepared)
    ensures laneAssignments == LaneAssignments(prepared)
  {
    var forcedParallelEntries := Select(prepared, true);
    var autoEntries := Select(prepared, false);
    var sortedByStart := StableSort(autoEntries, StartAscending);
    var laneEnds, autoAssignments := AllocateAutoLanes(sortedByStart);
    var baseLaneCount := if |autoEntries| > 0 then (if |laneEnds| > 1 then |laneEnds| else 1) else 0;
    var forcedLaneStart := baseLaneCount;
    laneCount := if baseLaneCount + |forcedParallelEntries| > 1 then baseLaneCount + |forcedParallelEntries| else 1;
    laneAssignments := AssignForcedLanes(autoAssignments, forcedParallelEntries, forcedLaneStart);
  }

  // ---------------------------------------------------------------------------
  // Lemmas
  // ---------------------------------------------------------------------------

  /** An entry that does not end before it starts. */
  ghost predicate InOrder(e: Entry) {
    !Before(e.endDate, e.startDate)
  }

  /** No entry of `s` has the id `id`. */
  ghost predicate Absent(s: seq<Entry>, id: string) {
    forall i :: 0 <= i < |s| ==> IdOf(s[i]) != id
  }

  /** `sortedByStart` holds exactly the automatic entries. */
  lemma InSortedByStart(prepared: seq<Entry>)
    ensures forall e :: e in SortedByStart(prepared) <==> e in prepared && !e.item.forceParallel
  {
    forall e ensures e in SortedByStart(prepared) <==> e in prepared && !e.item.forceParallel {
      assert e in SortedByStart(prepared) <==> e in multiset(Select(prepared, false));
    }
  }

  /** Each lane's end is not before the end of any entry in it. */
  ghost predicate EndsCover(s: seq<Entry>, ends: seq<Point>, lanes: seq<int>) {
    && |lanes| == |s|
    && (forall i :: 0 <= i < |s| ==> 0 <= lanes[i] < |ends|)
    && (forall i :: 0 <= i < |s| ==> !Before(ends[lanes[i]], s[i].endDate))
  }

  /** An entry placed after another in the same lane starts strictly after the other ends. */
  ghost predicate LanesDisjoint(s: seq<Entry>, lanes: seq<int>)
    requires |lanes| == |s|
  {
    forall i, j :: 0 <= i < j < |s| && lanes[i] == lanes[j] ==> Before(s[i].endDate, s[j].startDate)
  }

  /** Placing the last entry of `s` first-fit keeps both properties. */
  lemma PlaceKeepsDisjoint(s: seq<Entry>, ends: seq<Point>, lanes: seq<int>)
    requires s != [] && InOrder(s[|s| - 1])
    requires EndsCover(s[..|s| - 1], ends, lanes) && LanesDisjoint(s[..|s| - 1], lanes)
    ensures var e := s[|s| - 1];
      var lane := FirstFit(ends, e.startDate);
      EndsCover(s, Place(ends, lane, e.endDate), lanes + [lane]) &&
      LanesDisjoint(s, lanes + [lane])
  {
    var t, e := s[..|s| - 1], s[|s| - 1];
    var lane := FirstFit(ends, e.startDate);
    var ends', lanes' := Place(ends, lane, e.endDate), lanes + [lane];
    forall i | 0 <= i < |t| && lanes[i] == lane ensures Before(t[i].endDate, e.startDate) {
      assert !Before(ends[lane], t[i].endDate);
    }
    forall i | 0 <= i < |s| ensures !Before(ends'[lanes'[i]], s[i].endDate) {
      if i < |t| {
        assert s[i] == t[i] && lanes'[i] == lanes[i];
      }
    }
    forall i, j | 0 <= i < j < |s| && lanes'[i] == lanes'[j] ensures Before(s[i].endDate, s[j].startDate) {
      assert s[i] == t[i] && lanes'[i] == lanes[i];
      if j < |t| {
        assert s[j] == t[j] && lanes'[j] == lanes[j];
      }
    }
  }

  /**
   * For entries in order, two entries the first-fit loop places in the same
   * lane do not overlap: the earlier-placed one ends strictly before the later
   * one starts.
   */
  lemma {:induction false} AllocateDisjoint(s: seq<Entry>)
    requires forall i :: 0 <= i < |s| ==> InOrder(s[i])
    ensures EndsCover(s, Allocate(s).ends, Allocate(s).lanes)
    ensures forall i, j :: 0 <= i < j < |s| && Allocate(s).lanes[i] == Allocate(s).lanes[j] ==>
      Before(s[i].endDate, s[j].startDate)
    decreases |s|
  {
    if s != [] {
      var t := s[..|s| - 1];
      assert forall i :: 0 <= i < |t| ==> t[i] == s[i];
      AllocateDisjoint(t);
      PlaceKeepsDisjoint(s, Allocate(t).ends, Allocate(t).lanes);
    }
  }

  /** With distinct ids, the map of the first-fit loop records each entry's own lane. */
  lemma {:induction false} AllocateById(s: seq<Entry>)
    requires DistinctBy(s, IdOf)
    ensures forall i :: 0 <= i < |s| ==> Allocate(s).byId[IdOf(s[i])] == Allocate(s).lanes[i]
    decreases |s|
  {
    if s != [] {
      var n := |s| - 1;
      var t := s[..n];
      assert forall i :: 0 <= i < n ==> t[i] == s[i];
      AllocateById(t);
      AllocateStep(s, n);
      assert s[..n + 1] == s;
      forall i | 0 <= i < |s| ensures Allocate(s).byId[IdOf(s[i])] == Allocate(s).lanes[i] {
        if i < n {
          assert IdOf(s[i]) != IdOf(s[n]);
          assert Allocate(s).lanes[i] == Allocate(t).lanes[i];
        }
      }
    }
  }

  /** With distinct ids, the i-th forced entry gets lane `start + i`, and every other id keeps its lane. */
  lemma {:induction false} ForcedOntoValues(m: map<string, int>, forced: seq<Entry>, start: int)
    requires DistinctBy(forced, IdOf)
    ensures forall i :: 0 <= i < |forced| ==> ForcedOnto(m, forced, start)[IdOf(forced[i])] == start + i
    ensures forall id :: id in m && Absent(forced, id) ==> ForcedOnto(m, forced, start)[id] == m[id]
    decreases |forced|
  {
    if forced != [] {
      var n := |forced| - 1;
      var t := forced[..n];
      assert forall i :: 0 <= i < n ==> t[i] == forced[i];
      ForcedOntoValues(m, t, start);
      var prev := ForcedOnto(m, t, start);
      var r := ForcedOnto(m, forced, start);
      assert r == prev[IdOf(forced[n]) := start + n];
      forall i | 0 <= i < n ensures r[IdOf(forced[i])] == start + i {
        assert IdOf(forced[i]) != IdOf(forced[n]);
        assert prev[IdOf(t[i])] == start + i;
      }
      forall id | id in m && Absent(forced, id) ensures r[id] == m[id] {
        assert Absent(t, id);
        assert IdOf(forced[n]) != id;
      }
    }
  }

  /** With distinct ids in `prepared`, ids stay distinct in both lists and no id is in both. */
  lemma SortedByStartDistinct(prepared: seq<Entry>)
    requires DistinctBy(prepared, IdOf)
    ensures DistinctBy(SortedByStart(prepared), IdOf)
    ensures DistinctBy(Select(prepared, true), IdOf)
    ensures forall x :: x in SortedByStart(prepared) ==> Absent(Select(prepared, true), IdOf(x))
  {
    SelectDistinct(prepared, false);
    SelectDistinct(prepared, true);
    PermutationDistinct(Select(prepared, false), SortedByStart(prepared), IdOf);
    InSortedByStart(prepared);
    var forced := Select(prepared, true);
    forall x, k | x in SortedByStart(prepared) && 0 <= k < |forced| ensures IdOf(forced[k]) != IdOf(x) {
      DistinctMembers(prepared, x, forced[k]);
    }
  }

  /** Two members of a list with distinct ids that differ have different ids. */
  lemma DistinctMembers(s: seq<Entry>, x: Entry, y: Entry)
    requires DistinctBy(s, IdOf) && x in s && y in s && x != y
    ensures IdOf(x) != IdOf(y)
  {
    var i :| 0 <= i < |s| && s[i] == x;
    var j :| 0 <= j < |s| && s[j] == y;
  }

  /** Every entry of `prepared` has a lane, so the `?? 0` fallback is never taken. */
  lemma EveryEntryAssigned(prepared: seq<Entry>)
    ensures forall e :: e in prepared ==> IdOf(e) in LaneAssignments(prepared)
  {
    var sorted, forced := SortedByStart(prepared), Select(prepared, true);
    InSortedByStart(prepared);
    forall e | e in prepared ensures IdOf(e) in LaneAssignments(prepared) {
      if e.item.forceParallel {
        var k :| 0 <= k < |forced| && forced[k] == e;
      } else {
        var k :| 0 <= k < |sorted| && sorted[k] == e;
        assert IdOf(e) in Allocate(sorted).byId;
      }
    }
  }

  /** There is at least one lane and never more lanes than entries. */
  lemma LaneCountBounds(prepared: seq<Entry>)
    ensures LaneCountOf(prepared) >= 1
    ensures prepared != [] ==> LaneCountOf(prepared) <= |prepared|
    ensures prepared == [] ==> LaneCountOf(prepared) == 1
  {
    SelectSplits(prepared);
  }

  /** Every lane looked up lies in `[0, laneCount)`, so it indexes `lanes` and `laneOffsets`. */
  lemma AssignmentsInRange(prepared: seq<Entry>, id: string)
    ensures 0 <= LaneOf(LaneAssignments(prepared), id) < LaneCountOf(prepared)
  {
    var sorted := SortedByStart(prepared);
    assert |sorted| == |Select(prepared, false)|;
  }

  /**
   * With distinct ids, the i-th forced entry is in lane `forcedLaneStart + i`
   * and every automatic entry keeps its first-fit lane, below `forcedLaneStart`.
   */
  lemma LaneAssignmentsValues(prepared: seq<Entry>)
    requires DistinctBy(prepared, IdOf)
    ensures forall i :: 0 <= i < |Select(prepared, true)| ==>
      LaneOf(LaneAssignments(prepared), IdOf(Select(prepared, true)[i])) == ForcedLaneStart(prepared) + i
    ensures forall i :: 0 <= i < |SortedByStart(prepared)| ==>
      LaneOf(LaneAssignments(prepared), IdOf(SortedByStart(prepared)[i])) == Allocate(SortedByStart(prepared)).lanes[i]
    ensures forall i :: 0 <= i < |SortedByStart(prepared)| ==>
      Allocate(SortedByStart(prepared)).lanes[i] < ForcedLaneStart(prepared)
  {
    var sorted, forced := SortedByStart(prepared), Select(prepared, true);
    var state := Allocate(sorted);
    SortedByStartDistinct(prepared);
    AllocateById(sorted);
    assert |sorted| == |Select(prepared, false)|;
    assert ForcedLaneStart(prepared) >= |state.ends|;
    AssignedValues(sorted, forced, state.lanes, state.byId, ForcedLaneStart(prepared));
  }

  /** `LaneAssignmentsValues` over the lists and the first-fit map it is built from. */
  lemma AssignedValues(sorted: seq<Entry>, forced: seq<Entry>, lanes: seq<int>, byId: map<string, int>, start: int)
    requires DistinctBy(forced, IdOf)
    requires |lanes| == |sorted|
    requires forall i :: 0 <= i < |sorted| ==> IdOf(sorted[i]) in byId && byId[IdOf(sorted[i])] == lanes[i]
    requires forall x :: x in sorted ==> Absent(forced, IdOf(x))
    ensures forall i :: 0 <= i < |forced| ==> LaneOf(ForcedOnto(byId, forced, start), IdOf(forced[i])) == start + i
    ensures forall i :: 0 <= i < |sorted| ==> LaneOf(ForcedOnto(byId, forced, start), IdOf(sorted[i])) == lanes[i]
  {
    ForcedOntoValues(byId, forced, start);
    forall i | 0 <= i < |sorted| ensures LaneOf(ForcedOnto(byId, forced, start), IdOf(sorted[i])) == lanes[i] {
      assert sorted[i] in sorted;
    }
  }

  /** With distinct ids, a forced-parallel entry shares its lane with no other entry. */
  lemma ForcedLaneAlone(prepared: seq<Entry>)
    requires DistinctBy(prepared, IdOf)
    ensures forall i, j :: 0 <= i < |prepared| && 0 <= j < |prepared| && i != j && prepared[i].item.forceParallel ==>
      LaneOf(LaneAssignments(prepared), IdOf(prepared[i])) != LaneOf(LaneAssignments(prepared), IdOf(prepared[j]))
  {
    var sorted, forced := SortedByStart(prepared), Select(prepared, true);
    var m, base := LaneAssignments(prepared), ForcedLaneStart(prepared);
    LaneAssignmentsValues(prepared);
    InSortedByStart(prepared);
    forall i, j | 0 <= i < |prepared| && 0 <= j < |prepared| && i != j && prepared[i].item.forceParallel
      ensures LaneOf(m, IdOf(prepared[i])) != LaneOf(m, IdOf(prepared[j]))
    {
      ForcedPairApart(prepared, forced, sorted, i, j, m, base);
    }
  }

  /** The pair case of `ForcedLaneAlone`, over the two lists and the lanes the assignment gives. */
  lemma ForcedPairApart(prepared: seq<Entry>, forced: seq<Entry>, sorted: seq<Entry>, i: int, j: int, m: map<string, int>, base: int)
    requires DistinctBy(prepared, IdOf)
    requires 0 <= i < |prepared| && 0 <= j < |prepared| && i != j && prepared[i].item.forceParallel
    requires forall e :: e in forced <==> e in prepared && e.item.forceParallel
    requires forall e :: e in sorted <==> e in prepared && !e.item.forceParallel
    requires forall k :: 0 <= k < |forced| ==> LaneOf(m, IdOf(forced[k])) == base + k
    requires forall k :: 0 <= k < |sorted| ==> LaneOf(m, IdOf(sorted[k])) < base
    ensures LaneOf(m, IdOf(prepared[i])) != LaneOf(m, IdOf(prepared[j]))
  {
    assert prepared[i] in forced;
    var a :| 0 <= a < |forced| && forced[a] == prepared[i];
    if prepared[j].item.forceParallel {
      assert prepared[j] in forced;
      var b :| 0 <= b < |forced| && forced[b] == prepared[j];
      assert IdOf(prepared[i]) != IdOf(prepared[j]);
    } else {
      assert prepared[j] in sorted;
      var c :| 0 <= c < |sorted| && sorted[c] == prepared[j];
    }
  }

  /**
   * With distinct ids and every entry in order, two entries that share a lane
   * do not overlap in time: one of them ends strictly before the other starts.
   */
  lemma SameLaneDisjoint(prepared: seq<Entry>)
    requires DistinctBy(prepared, IdOf)
    requires forall i :: 0 <= i < |prepared| ==> InOrder(prepared[i])
    ensures forall i, j ::
      (0 <= i < |prepared| && 0 <= j < |prepared| && i != j &&
       LaneOf(LaneAssignments(prepared), IdOf(prepared[i])) == LaneOf(LaneAssignments(prepared), IdOf(prepared[j])))
      ==> Before(prepared[i].endDate, prepared[j].startDate) || Before(prepared[j].endDate, prepared[i].startDate)
  {
    var sorted, m := SortedByStart(prepared), LaneAssignments(prepared);
    ForcedLaneAlone(prepared);
    LaneAssignmentsValues(prepared);
    InSortedByStart(prepared);
    AllocateDisjoint(sorted);
    forall i, j | 0 <= i < |prepared| && 0 <= j < |prepared| && i != j &&
      LaneOf(m, IdOf(prepared[i])) == LaneOf(m, IdOf(prepared[j])) &&
      !prepared[i].item.forceParallel && !prepared[j].item.forceParallel
      ensures Before(prepared[i].endDate, prepared[j].startDate) || Before(prepared[j].endDate, prepared[i].startDate)
    {
      AutoPairApart(prepared, sorted, Allocate(sorted).lanes, m, i, j);
    }
  }

  /** The automatic case of `SameLaneDisjoint`, over `sortedByStart` and its first-fit lanes. */
  lemma AutoPairApart(prepared: seq<Entry>, sorted: seq<Entry>, lanes: seq<int>, m: map<string, int>, i: int, j: int)
    requires DistinctBy(prepared, IdOf)
    requires 0 <= i < |prepared| && 0 <= j < |prepared| && i != j
    requires !prepared[i].item.forceParallel && !prepared[j].item.forceParallel
    requires forall e :: e in sorted <==> e in prepared && !e.item.forceParallel
    requires |lanes| == |sorted|
    requires forall k :: 0 <= k < |sorted| ==> LaneOf(m, IdOf(sorted[k])) == lanes[k]
    requires forall a, c :: 0 <= a < c < |sorted| && lanes[a] == lanes[c] ==> Before(sorted[a].endDate, sorted[c].startDate)
    requires LaneOf(m, IdOf(prepared[i])) == LaneOf(m, IdOf(prepared[j]))
    ensures Before(prepared[i].endDate, prepared[j].startDate) || Before(prepared[j].endDate, prepared[i].startDate)
  {
    assert prepared[i] in sorted && prepared[j] in sorted;
    var a :| 0 <= a < |sorted| && sorted[a] == prepared[i];
    var c :| 0 <= c < |sorted| && sorted[c] == prepared[j];
    assert a != c;
  }
}
