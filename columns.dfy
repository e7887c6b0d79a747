/**
 * Lane offsets and grid columns in Timeline.tsx. Lane 0 is the centre
 * column; the following lanes alternate left and right of it, moving
 * outwards: offsets 0, -1, 1, -2, 2, ...
 */
module Columns {

  function Abs(x: int): nat {
    if x < 0 then -x else x
  }

  /** The offset the `laneOffsets` loop gives lane `i`. */
  function OffsetOf(i: nat): int {
    if i == 0 then 0
    else if i % 2 == 1 then -((i + 1) / 2)
    else i / 2
  }

  /** A lane count below one still gets the single centre lane. */
  function AtLeastOne(n: int): nat {
    if n > 1 then n else 1
  }

  /**
   * The `laneOffsets` loop: push 0, then -step and step for step = 1, 2, ...,
   * stopping as soon as there are `laneCount` offsets.
   */
  method LaneOffsets(laneCount: int) returns (laneOffsets: seq<int>)
    ensures |laneOffsets| == AtLeastOne(laneCount)
    ensures forall i :: 0 <= i < |laneOffsets| ==> laneOffsets[i] == OffsetOf(i)
  {
    laneOffsets := [0];
    var step := 1;
    while |laneOffsets| < laneCount
      invariant step >= 1
      invariant |laneOffsets| == 2 * step - 1 || (|laneOffsets| == 2 * step - 2 && |laneOffsets| >= laneCount)
      invariant |laneOffsets| <= AtLeastOne(laneCount)
      invariant forall i :: 0 <= i < |laneOffsets| ==> laneOffsets[i] == OffsetOf(i)
      decreases laneCount - |laneOffsets|
    {
      laneOffsets := laneOffsets + [-step];
      if |laneOffsets| < laneCount {
        laneOffsets := laneOffsets + [step];
      }
      step := step + 1;
    }
  }

  /** `laneOffsets.reduce((max, offset) => Math.max(max, Math.abs(offset)), max)`. */
  function MaxAbs(offsets: seq<int>, max: int): (r: int)
    ensures r >= max
    ensures forall i :: 0 <= i < |offsets| ==> Abs(offsets[i]) <= r
    ensures r == max || exists i :: 0 <= i < |offsets| && r == Abs(offsets[i])
  {
    if offsets == [] then max
    else MaxAbs(offsets[1..], if Abs(offsets[0]) > max then Abs(offsets[0]) else max)
  }

  /** `laneOffsets` as the loop leaves it, for a given lane count. */
  function Offsets(laneCount: int): (r: seq<int>)
    ensures |r| == AtLeastOne(laneCount)
    ensures forall i :: 0 <= i < |r| ==> r[i] == OffsetOf(i)
  {
    seq(AtLeastOne(laneCount), i requires 0 <= i => OffsetOf(i))
  }

  /** `maxOffset`. */
  function MaxOffset(laneCount: int): int {
    MaxAbs(Offsets(laneCount), 0)
  }

  /** `columnCount`: one column per offset from `-maxOffset` to `maxOffset`. */
  function ColumnCount(laneCount: int): int {
    MaxOffset(laneCount) * 2 + 1
  }

  /** `columnIndex` of lane `lane`: its offset shifted so the centre column is `maxOffset`. */
  function ColumnOf(laneCount: int, lane: nat): int
    requires lane < AtLeastOne(laneCount)
  {
    Offsets(laneCount)[lane] + MaxOffset(laneCount)
  }

  // ---------------------------------------------------------------------------
  // Lemmas
  // ---------------------------------------------------------------------------

  /** Offsets grow outwards: the magnitude of lane `i`'s offset is `(i + 1) / 2`. */
  lemma OffsetMagnitude(i: nat)
    ensures Abs(OffsetOf(i)) == (i + 1) / 2
  {
  }

  /** Distinct lanes have distinct offsets. */
  lemma OffsetsDistinct(i: nat, j: nat)
    ensures OffsetOf(i) == OffsetOf(j) ==> i == j
  {
  }

  /** Odd lanes lie left of the centre, even lanes other than 0 right of it. */
  lemma OffsetSide(i: nat)
    ensures OffsetOf(i) < 0 <==> i % 2 == 1
    ensures OffsetOf(i) == 0 <==> i == 0
  {
  }

  /** With `n` lanes, the widest offset is `n / 2` (at least one lane is counted). */
  lemma MaxOffsetValue(laneCount: int)
    ensures MaxOffset(laneCount) == AtLeastOne(laneCount) / 2
  {
    var offsets, n := Offsets(laneCount), AtLeastOne(laneCount);
    forall i | 0 <= i < n ensures Abs(offsets[i]) <= n / 2 {
      OffsetMagnitude(i);
    }
    OffsetMagnitude(n - 1);
    assert Abs(offsets[n - 1]) == n / 2;
  }

  /**
   * Every lane has its own column inside the grid, and the centre column
   * `maxOffset` belongs to lane 0 alone.
   */
  lemma ColumnsFit(laneCount: int, lane: nat, other: nat)
    requires lane < AtLeastOne(laneCount) && other < AtLeastOne(laneCount)
    ensures 0 <= ColumnOf(laneCount, lane) < ColumnCount(laneCount)
    ensures ColumnOf(laneCount, lane) == ColumnOf(laneCount, other) ==> lane == other
    ensures ColumnOf(laneCount, lane) == MaxOffset(laneCount) <==> lane == 0
  {
    MaxOffsetValue(laneCount);
    OffsetMagnitude(lane);
    OffsetsDistinct(lane, other);
  }

  /** The grid has one column per lane, plus one when the lane count is even. */
  lemma ColumnCountValue(laneCount: int)
    ensures ColumnCount(laneCount) == if AtLeastOne(laneCount) % 2 == 1 then AtLeastOne(laneCount) else AtLeastOne(laneCount) + 1
  {
    MaxOffsetValue(laneCount);
  }
}
