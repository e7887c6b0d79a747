/**
 * The detail-panel heights of Timeline.tsx. Every card reports the height of
 * its details panel through `handleDetailsHeight`; the timeline keeps the
 * tallest height reported per card, and pads its bottom so that the tallest
 * panel fits below the last card.
 */
module Details {

  /** `Math.ceil(x)`. */
  function Ceil(x: real): (r: int)
    ensures x <= r as real < x + 1.0
  {
    -((-x).Floor)
  }

  /** `prev[id] ?? 0`. */
  function Current(heights: map<string, int>, id: string): int {
    if id in heights then heights[id] else 0
  }

  function Max(a: int, b: int): int {
    if a > b then a else b
  }

  /**
   * The state update of `handleDetailsHeight(id, height)`: the rounded-up
   * height is stored only when it is taller than the one already known, and
   * otherwise the state is returned unchanged.
   */
  function Report(prev: map<string, int>, id: string, height: real): (next: map<string, int>)
    ensures Current(next, id) == Max(Current(prev, id), Ceil(height))
    ensures forall k :: k != id ==> (k in next <==> k in prev)
    ensures forall k :: k != id ==> Current(next, k) == Current(prev, k)
    ensures next == prev || (Ceil(height) > Current(prev, id) && next == prev[id := Ceil(height)])
  {
    var nextHeight := Ceil(height);
    var currentHeight := Current(prev, id);
    if currentHeight >= nextHeight then prev else prev[id := nextHeight]
  }

  /** Every stored height is positive. */
  ghost predicate Positive(heights: map<string, int>) {
    forall k :: k in heights ==> heights[k] > 0
  }

  /** A sequence of reports `(id, height)`, applied in order. */
  function ReportAll(prev: map<string, int>, reports: seq<(string, real)>): map<string, int>
    decreases |reports|
  {
    if reports == [] then prev
    else ReportAll(Report(prev, reports[0].0, reports[0].1), reports[1..])
  }

  /** `Math.max(0, ...Object.values(detailsHeights))`. */
  ghost function MaxDetailsHeight(heights: map<string, int>): (r: int)
    ensures r >= 0
    ensures forall k :: k in heights ==> heights[k] <= r
    ensures r == 0 || exists k :: k in heights && heights[k] == r
    decreases |heights|
  {
    if heights == map[] then 0
    else
      var k :| k in heights;
      var rest := MaxDetailsHeight(heights - {k});
      assert forall j :: j in heights - {k} ==> j in heights;
      assert forall j :: j in heights && j != k ==> j in heights - {k} && (heights - {k})[j] == heights[j];
      if heights[k] > rest then heights[k] else rest
  }

  /** `extraBottomPadding`: the tallest panel plus 16 pixels, or nothing. */
  ghost function ExtraBottomPadding(heights: map<string, int>): int {
    var maxDetailsHeight := MaxDetailsHeight(heights);
    if maxDetailsHeight != 0 then maxDetailsHeight + 16 else 0
  }

  // ---------------------------------------------------------------------------
  // Lemmas
  // ---------------------------------------------------------------------------

  /** Reporting keeps every stored height positive: nothing below 1 is ever stored. */
  lemma ReportPositive(prev: map<string, int>, id: string, height: real)
    requires Positive(prev)
    ensures Positive(Report(prev, id, height))
  {
  }

  /** Reporting the same height twice is reporting it once. */
  lemma ReportIdempotent(prev: map<string, int>, id: string, height: real)
    ensures Report(Report(prev, id, height), id, height) == Report(prev, id, height)
  {
  }

  /** The order in which two reports arrive does not matter. */
  lemma ReportCommutes(prev: map<string, int>, a: string, ha: real, b: string, hb: real)
    ensures Report(Report(prev, a, ha), b, hb) == Report(Report(prev, b, hb), a, ha)
  {
    var ab, ba := Report(Report(prev, a, ha), b, hb), Report(Report(prev, b, hb), a, ha);
    if a == b {
      assert Current(ab, a) == Current(ba, a);
      assert a in ab <==> a in ba;
    }
    assert forall k :: k in ab <==> k in ba;
    assert forall k :: k in ab ==> ab[k] == Current(ab, k) == Current(ba, k) == ba[k];
  }

  /**
   * After a sequence of reports, a card's stored height is the tallest
   * rounded-up height it reported, or what was stored before if that is taller.
   */
  lemma {:induction false} ReportAllTallest(prev: map<string, int>, reports: seq<(string, real)>, id: string)
    ensures Current(ReportAll(prev, reports), id) >= Current(prev, id)
    ensures forall k :: 0 <= k < |reports| && reports[k].0 == id ==> Ceil(reports[k].1) <= Current(ReportAll(prev, reports), id)
    ensures Current(ReportAll(prev, reports), id) == Current(prev, id) ||
      exists k :: 0 <= k < |reports| && reports[k].0 == id && Current(ReportAll(prev, reports), id) == Ceil(reports[k].1)
    decreases |reports|
  {
    if reports != [] {
      var next := Report(prev, reports[0].0, reports[0].1);
      var rest := reports[1..];
      ReportAllTallest(next, rest, id);
      var r := Current(ReportAll(prev, reports), id);
      assert ReportAll(prev, reports) == ReportAll(next, rest);
      forall k | 0 <= k < |reports| && reports[k].0 == id
        ensures Ceil(reports[k].1) <= r
      {
        if k > 0 {
          assert rest[k - 1] == reports[k];
        }
      }
      if r != Current(prev, id) {
        if r == Current(next, id) {
          assert reports[0].0 == id && r == Ceil(reports[0].1);
        } else {
          var k :| 0 <= k < |rest| && rest[k].0 == id && r == Ceil(rest[k].1);
          assert reports[k + 1] == rest[k];
        }
      }
    }
  }

  /** Reports of 40, 25, 60 and 10 for one card keep 60. */
  lemma ReportExample()
    ensures ReportAll(map[], [("acme", 40.0), ("acme", 25.0), ("acme", 60.0), ("acme", 10.0)]) == map["acme" := 60]
  {
    var m1 := Report(map[], "acme", 40.0);
    assert m1 == map["acme" := 40];
    var m2 := Report(m1, "acme", 25.0);
    assert m2 == m1;
    var m3 := Report(m2, "acme", 60.0);
    assert m3 == map["acme" := 60];
  }

  /**
   * With positive stored heights, the bottom padding is zero exactly when no
   * card has reported, and otherwise leaves 16 pixels below every panel.
   */
  lemma PaddingFitsPanels(heights: map<string, int>)
    requires Positive(heights)
    ensures ExtraBottomPadding(heights) == 0 <==> heights == map[]
    ensures forall k :: k in heights ==> heights[k] + 16 <= ExtraBottomPadding(heights)
    ensures heights != map[] ==> exists k :: k in heights && ExtraBottomPadding(heights) == heights[k] + 16
  {
    if heights != map[] {
      var k :| k in heights;
      assert heights[k] <= MaxDetailsHeight(heights);
    }
  }
}
