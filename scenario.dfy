/**
 * A worked example: A runs from Jan to Jun 2022, B from Mar to Dec 2022 and
 * overlaps A, and C, forced parallel, from Jul 2023 to the present.
 */
module Scenario {

  import opened Wrappers
  import opened Text
  import opened Dates
  import opened Sorting
  import opened Experience
  import opened Lanes
  import opened Geometry

  function Sample(): seq<Item> {
    [Item("a", "Alpha", "jan 2022", Some("jun 2022"), false),
     Item("b", "Beta", "mar 2022", Some("dec 2022"), false),
     Item("c", "Gamma", "jul 2023", Some("present"), true)]
  }

  /** The sample items with their resolved intervals, in input order. */
  function SampleEntries(now: Point): seq<Entry> {
    [Entry(Sample()[0], Point(2022, 0, 0), Point(2022, 5, 0)),
     Entry(Sample()[1], Point(2022, 2, 0), Point(2022, 11, 0)),
     Entry(Sample()[2], Point(2023, 6, 0), now)]
  }

  lemma Digits2022()
    ensures FormatInteger(2022) == "2022" && FormatInteger(2023) == "2023"
  {
    assert Decimal(2) == "2";
    assert Decimal(20) == "20";
    assert Decimal(202) == "202";
    assert Decimal(2022) == Decimal(202) + "2";
    assert Decimal(2023) == Decimal(202) + "3";
  }

  lemma ParsesJan()
    ensures ParseMonthYear(Some("jan 2022")) == Some(Point(2022, 0, 0))
  {
    Digits2022();
    assert MonthNames[0] == "jan";
    assert "jan 2022" == MonthNames[0] + " " + FormatInteger(2022);
    ParseFormatted(2022, 0);
  }

  lemma ParsesJun()
    ensures ParseMonthYear(Some("jun 2022")) == Some(Point(2022, 5, 0))
  {
    Digits2022();
    assert MonthNames[5] == "jun";
    assert "jun 2022" == MonthNames[5] + " " + FormatInteger(2022);
    ParseFormatted(2022, 5);
  }

  lemma ParsesMar()
    ensures ParseMonthYear(Some("mar 2022")) == Some(Point(2022, 2, 0))
  {
    Digits2022();
    assert MonthNames[2] == "mar";
    assert "mar 2022" == MonthNames[2] + " " + FormatInteger(2022);
    ParseFormatted(2022, 2);
  }

  lemma ParsesDec()
    ensures ParseMonthYear(Some("dec 2022")) == Some(Point(2022, 11, 0))
  {
    Digits2022();
    assert MonthNames[11] == "dec";
    assert "dec 2022" == MonthNames[11] + " " + FormatInteger(2022);
    ParseFormatted(2022, 11);
  }

  lemma ParsesJul()
    ensures ParseMonthYear(Some("jul 2023")) == Some(Point(2023, 6, 0))
  {
    Digits2022();
    assert MonthNames[6] == "jul";
    assert "jul 2023" == MonthNames[6] + " " + FormatInteger(2023);
    ParseFormatted(2023, 6);
  }

  lemma PresentIsOngoing()
    ensures Ongoing(Some("present"))
  {
    var p := "present";
    assert forall i :: 0 <= i < |p| ==> LowerChar(p[i]) == p[i];
    assert Lower(p) == p;
  }

  lemma ResolvedA(now: Point)
    ensures Resolve(Sample()[0], now) == SampleEntries(now)[0]
  {
    ParsesJan();
    ParsesJun();
  }

  lemma ResolvedB(now: Point)
    ensures Resolve(Sample()[1], now) == SampleEntries(now)[1]
  {
    ParsesMar();
    ParsesDec();
  }

  lemma ResolvedC(now: Point)
    ensures Resolve(Sample()[2], now) == SampleEntries(now)[2]
  {
    ParsesJul();
    PresentIsOngoing();
  }

  lemma ResolveThree(items: seq<Item>, now: Point, es: seq<Entry>)
    requires |items| == 3 && |es| == 3
    requires forall i :: 0 <= i < 3 ==> Resolve(items[i], now) == es[i]
    ensures ResolveAll(items, now) == es
  {
  }

  /** Every sample item resolves to the interval its strings spell. */
  lemma SampleResolved(now: Point)
    ensures ResolveAll(Sample(), now) == SampleEntries(now)
  {
    forall i | 0 <= i < 3
      ensures Resolve(Sample()[i], now) == SampleEntries(now)[i]
    {
      if i == 0 {
        ResolvedA(now);
      } else if i == 1 {
        ResolvedB(now);
      } else {
        ResolvedC(now);
      }
    }
    ResolveThree(Sample(), now, SampleEntries(now));
  }

  /** Three entries whose ends are strictly ordered come out newest first. */
  lemma SortNewestFirst(a: Entry, b: Entry, c: Entry)
    requires Before(a.endDate, b.endDate) && Before(b.endDate, c.endDate)
    ensures StableSort([a, b, c], EndDescending) == [c, b, a]
  {
    EndDescendingOrder(a, b);
    EndDescendingOrder(b, c);
    EndDescendingOrder(a, c);
    assert [a, b, c][1..] == [b, c];
    assert [b, c][1..] == [c];
    assert [c][1..] == [];
    assert StableSort([c], EndDescending) == [c];
    assert [c, b][1..] == [b];
    assert Insert(b, [c], EndDescending) == [c, b];
    assert Insert(a, [b], EndDescending) == [b, a];
    assert Insert(a, [c, b], EndDescending) == [c, b, a];
  }

  /** `a` opens lane 0; `b` starts before `a` ends, so it opens lane 1. */
  lemma AllocateTwo(a: Entry, b: Entry)
    requires !Before(a.endDate, b.startDate)
    ensures Allocate([a, b]) == LaneState([a.endDate, b.endDate], [0, 1], map[IdOf(a) := 0, IdOf(b) := 1])
  {
    assert [a, b][..1] == [a] && [a][..0] == [];
    assert Allocate([a]) == LaneState([a.endDate], [0], map[IdOf(a) := 0]);
    assert FirstFit([a.endDate], b.startDate) == 1;
  }

  /** The forced entry `c` and the automatic entries `b`, `a` of `[c, b, a]`, the latter by start. */
  lemma SplitThree(a: Entry, b: Entry, c: Entry)
    requires !a.item.forceParallel && !b.item.forceParallel && c.item.forceParallel
    requires Before(a.startDate, b.startDate)
    ensures Select([c, b, a], false) == [b, a]
    ensures Select([c, b, a], true) == [c]
    ensures SortedByStart([c, b, a]) == [a, b]
  {
    var p := [c, b, a];
    assert p[1..] == [b, a] && p[1..][1..] == [a] && p[1..][1..][1..] == [];
    assert Select([a], true) == [] && Select([b, a], true) == [];
    assert Select(p, false) == [b, a];
    StartAscendingOrder(a, b);
    assert [b, a][1..] == [a] && [a][1..] == [];
    assert StableSort([a], StartAscending) == [a];
  }

  /** One forced entry gets the first forced lane. */
  lemma ForcedOne(m: map<string, int>, c: Entry, start: int)
    ensures ForcedOnto(m, [c], start) == m[IdOf(c) := start]
  {
    assert [c][..0] == [];
  }

  /**
   * The lanes of `[c, b, a]` when `a` starts first and is still running when
   * `b` starts, and `c` is forced parallel.
   */
  lemma LanesOfThree(a: Entry, b: Entry, c: Entry)
    requires !a.item.forceParallel && !b.item.forceParallel && c.item.forceParallel
    requires Before(a.startDate, b.startDate) && !Before(a.endDate, b.startDate)
    requires IdOf(a) != IdOf(b) && IdOf(b) != IdOf(c) && IdOf(a) != IdOf(c)
    ensures LaneAssignments([c, b, a]) == map[IdOf(a) := 0, IdOf(b) := 1, IdOf(c) := 2]
    ensures LaneCountOf([c, b, a]) == 3
  {
    var p := [c, b, a];
    SplitThree(a, b, c);
    AllocateTwo(a, b);
    var m := Allocate(SortedByStart(p)).byId;
    assert ForcedLaneStart(p) == 2;
    ForcedOne(m, c, 2);
  }

  /** The sample's `prepared` list: C, B, A. */
  lemma SamplePrepared(now: Point)
    requires Before(Point(2023, 6, 0), now)
    ensures Prepared(Sample(), now) == [SampleEntries(now)[2], SampleEntries(now)[1], SampleEntries(now)[0]]
  {
    var es := SampleEntries(now);
    SampleResolved(now);
    SortNewestFirst(es[0], es[1], es[2]);
  }

  /**
   * Rows of `[c, b, a]` when `c` ends last: its card is on the top row, and
   * the cards of entries that end in an earlier month are below it.
   */
  lemma RowsOfThree(a: Entry, b: Entry, c: Entry, now: Point)
    requires Before(a.endDate, c.endDate) && Before(b.endDate, c.endDate)
    requires MonthDiff(a.endDate, c.endDate) >= 1 && MonthDiff(b.endDate, c.endDate) >= 1
    ensures Fits([c, b, a], GridOf([c, b, a], now))
    ensures TrackAt([c, b, a], GridOf([c, b, a], now), 0).rowStart == 1
    ensures TrackAt([c, b, a], GridOf([c, b, a], now), 1).rowStart > 1
    ensures TrackAt([c, b, a], GridOf([c, b, a], now), 2).rowStart > 1
  {
    var p := [c, b, a];
    GridOfFits(p, now);
    LatestOfThree(a, b, c, now);
  }

  /** `maxEndDate` of `[c, b, a]` when `c` ends after the other two. */
  lemma LatestOfThree(a: Entry, b: Entry, c: Entry, now: Point)
    requires Before(a.endDate, c.endDate) && Before(b.endDate, c.endDate)
    ensures MaxEndDate([c, b, a], now) == c.endDate
  {
  }

  /**
   * The three records of the example: A gets lane 0, B lane 1 because it
   * starts before A ends, and C, forced parallel, lane 2; C's card is on
   * the top row and the others below it.
   */
  lemma SampleLanes(now: Point)
    requires Before(Point(2023, 6, 0), now)
    ensures LaneAssignments(Prepared(Sample(), now)) == map["a" := 0, "b" := 1, "c" := 2]
    ensures LaneCountOf(Prepared(Sample(), now)) == 3
    ensures Fits(Prepared(Sample(), now), GridOf(Prepared(Sample(), now), now))
    ensures TrackAt(Prepared(Sample(), now), GridOf(Prepared(Sample(), now), now), 0).rowStart == 1
    ensures TrackAt(Prepared(Sample(), now), GridOf(Prepared(Sample(), now), now), 1).rowStart > 1
    ensures TrackAt(Prepared(Sample(), now), GridOf(Prepared(Sample(), now), now), 2).rowStart > 1
  {
    var es := SampleEntries(now);
    SamplePrepared(now);
    LanesOfThree(es[0], es[1], es[2]);
    RowsOfThree(es[0], es[1], es[2], now);
  }
}
