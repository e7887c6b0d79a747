/**
 * The experience records and the `prepared` list of Timeline.tsx: every item
 * with its resolved start and end, newest end first; the latest end and the
 * earliest start; the timeline height in months; and the split into forced
 * parallel and automatic entries.
 */
module Experience {

  import opened Wrappers
  import opened Text
  import opened Dates
  import opened Sorting

  /**
   * The fields of an `ExperienceItem` (experiences.ts) that the layout or the
   * card reads. `end` is optional; an absent `forceParallel` is `false`.
   */
  datatype Item = Item(id: string, company: string, start: string, end: Option<string>, forceParallel: bool)

  /** One element of `prepared`: an item and its resolved interval. */
  datatype Entry = Entry(item: Item, startDate: Point, endDate: Point)

  function IdOf(e: Entry): string {
    e.item.id
  }

  /** Record ids are unique, as the data promises. */
  ghost predicate UniqueIds(items: seq<Item>) {
    forall i, j :: 0 <= i < |items| && 0 <= j < |items| && items[i].id == items[j].id ==> i == j
  }

  /** The `end` field means "ongoing": absent, empty, or "present" in any letter case. */
  predicate Ongoing(end: Option<string>) {
    end.None? || end.value == "" || Lower(end.value) == "present"
  }

  /**
   * The `items.map(...)` step: an unparseable start falls back to `now`, and so
   * does an end that is ongoing or unparseable.
   */
  function Resolve(item: Item, now: Point): (e: Entry)
    ensures e.item == item
    ensures ParseMonthYear(Some(item.start)).None? ==> e.startDate == now
    ensures ParseMonthYear(Some(item.start)).Some? ==> e.startDate == ParseMonthYear(Some(item.start)).value
    ensures Ongoing(item.end) || ParseMonthYear(item.end).None? ==> e.endDate == now
    ensures !Ongoing(item.end) && ParseMonthYear(item.end).Some? ==> e.endDate == ParseMonthYear(item.end).value
  {
    var startDate := ParseMonthYear(Some(item.start)).GetOr(now);
    var endDate := if !Ongoing(item.end) then ParseMonthYear(item.end).GetOr(now) else now;
    Entry(item, startDate, endDate)
  }

  /** The comparator `b.endDate.getTime() - a.endDate.getTime()` as a key: later ends rank first. */
  function EndDescending(e: Entry): Rank {
    Rank(0 - (e.endDate.year * 12 + e.endDate.month), 0 - e.endDate.sub)
  }

  /** The comparator `a.startDate.getTime() - b.startDate.getTime()` as a key: earlier starts rank first. */
  function StartAscending(e: Entry): Rank {
    Rank(e.startDate.year * 12 + e.startDate.month, e.startDate.sub)
  }

  /** `items.map(...)`, before sorting. */
  function ResolveAll(items: seq<Item>, now: Point): (r: seq<Entry>)
    ensures |r| == |items|
    ensures forall i :: 0 <= i < |items| ==> r[i] == Resolve(items[i], now)
  {
    seq(|items|, i requires 0 <= i < |items| => Resolve(items[i], now))
  }

  /** `prepared`: the resolved entries, stably sorted by end date, newest first. */
  function Prepared(items: seq<Item>, now: Point): seq<Entry> {
    StableSort(ResolveAll(items, now), EndDescending)
  }

  /** The `reduce` that finds `maxEndDate`, from the running value `latest`. */
  function LatestEnd(s: seq<Entry>, latest: Point): (r: Point)
    ensures r == latest || exists i :: 0 <= i < |s| && r == s[i].endDate
    ensures !Before(r, latest)
    ensures forall i :: 0 <= i < |s| ==> !Before(r, s[i].endDate)
  {
    if s == [] then latest
    else LatestEnd(s[1..], if Before(latest, s[0].endDate) then s[0].endDate else latest)
  }

  /** The `reduce` that finds `minStartDate`, from the running value `earliest`. */
  function EarliestStart(s: seq<Entry>, earliest: Point): (r: Point)
    ensures r == earliest || exists i :: 0 <= i < |s| && r == s[i].startDate
    ensures !Before(earliest, r)
    ensures forall i :: 0 <= i < |s| ==> !Before(s[i].startDate, r)
  {
    if s == [] then earliest
    else EarliestStart(s[1..], if Before(s[0].startDate, earliest) then s[0].startDate else earliest)
  }

  /** `maxEndDate`: `now` for no entries, otherwise the latest end among them. */
  function MaxEndDate(prepared: seq<Entry>, now: Point): (r: Point)
    ensures prepared == [] ==> r == now
    ensures prepared != [] ==> exists i :: 0 <= i < |prepared| && r == prepared[i].endDate
    ensures forall i :: 0 <= i < |prepared| ==> !Before(r, prepared[i].endDate)
  {
    if prepared == [] then now else LatestEnd(prepared, prepared[0].endDate)
  }

  /** `minStartDate`: `now` for no entries, otherwise the earliest start among them. */
  function MinStartDate(prepared: seq<Entry>, now: Point): (r: Point)
    ensures prepared == [] ==> r == now
    ensures prepared != [] ==> exists i :: 0 <= i < |prepared| && r == prepared[i].startDate
    ensures forall i :: 0 <= i < |prepared| ==> !Before(prepared[i].startDate, r)
  {
    if prepared == [] then now else EarliestStart(prepared, prepared[0].startDate)
  }

  /** `totalMonths`: the months from the earliest start to the latest end, counting both, and at least 1. */
  function TotalMonths(prepared: seq<Entry>, now: Point): (r: int)
    ensures r >= 1
    ensures r >= MonthDiff(MinStartDate(prepared, now), MaxEndDate(prepared, now)) + 1
    ensures r == 1 || r == MonthDiff(MinStartDate(prepared, now), MaxEndDate(prepared, now)) + 1
    ensures prepared == [] ==> r == 1
  {
    var span := MonthDiff(MinStartDate(prepared, now), MaxEndDate(prepared, now)) + 1;
    if span > 1 then span else 1
  }

  /** `prepared.filter(...)` on the `forceParallel` flag: the entries whose flag is `forced`, in order. */
  function Select(s: seq<Entry>, forced: bool): (r: seq<Entry>)
    ensures |r| <= |s|
    ensures forall i :: 0 <= i < |r| ==> r[i].item.forceParallel == forced
    ensures forall e :: e in r <==> e in s && e.item.forceParallel == forced
  {
    if s == [] then []
    else (if s[0].item.forceParallel == forced then [s[0]] else []) + Select(s[1..], forced)
  }

  // ---------------------------------------------------------------------------
  // Lemmas
  // ---------------------------------------------------------------------------

  /** The end key orders exactly as `getTime()` on the end dates, later first. */
  lemma EndDescendingOrder(a: Entry, b: Entry)
    ensures RankLess(EndDescending(a), EndDescending(b)) <==> Before(b.endDate, a.endDate)
  {
  }

  /** The start key orders exactly as `getTime()` on the start dates, earlier first. */
  lemma StartAscendingOrder(a: Entry, b: Entry)
    ensures RankLess(StartAscending(a), StartAscending(b)) <==> Before(a.startDate, b.startDate)
  {
  }

  /** `prepared` holds the same entries as `items.map(...)`, newest end first, in a stable order. */
  lemma PreparedOrder(items: seq<Item>, now: Point)
    ensures multiset(Prepared(items, now)) == multiset(ResolveAll(items, now))
    ensures forall i, j :: 0 <= i < j < |Prepared(items, now)| ==>
      !Before(Prepared(items, now)[i].endDate, Prepared(items, now)[j].endDate)
    ensures forall k :: Tied(Prepared(items, now), EndDescending, k) == Tied(ResolveAll(items, now), EndDescending, k)
  {
    var p := Prepared(items, now);
    StableSortSorted(ResolveAll(items, now), EndDescending);
    forall i, j | 0 <= i < j < |p| ensures !Before(p[i].endDate, p[j].endDate) {
      EndDescendingOrder(p[j], p[i]);
    }
    forall k ensures Tied(p, EndDescending, k) == Tied(ResolveAll(items, now), EndDescending, k) {
      StableSortStable(ResolveAll(items, now), EndDescending, k);
    }
  }

  /** Unique item ids stay unique in `prepared`. */
  lemma PreparedDistinct(items: seq<Item>, now: Point)
    requires UniqueIds(items)
    ensures DistinctBy(Prepared(items, now), IdOf)
  {
    var r := ResolveAll(items, now);
    assert DistinctBy(r, IdOf) by {
      forall i, j | 0 <= i < |r| && 0 <= j < |r| && IdOf(r[i]) == IdOf(r[j]) ensures i == j {
        assert r[i].item == items[i] && r[j].item == items[j];
      }
    }
    PermutationDistinct(r, Prepared(items, now), IdOf);
  }

  /** Because `prepared` is newest first, the latest end is that of its first entry. */
  lemma MaxEndIsFirst(items: seq<Item>, now: Point)
    requires items != []
    ensures MaxEndDate(Prepared(items, now), now) == Prepared(items, now)[0].endDate
  {
    var p := Prepared(items, now);
    PreparedOrder(items, now);
    var m := MaxEndDate(p, now);
    var i :| 0 <= i < |p| && m == p[i].endDate;
    assert i > 0 ==> !Before(p[0].endDate, p[i].endDate);
  }

  /** Filtering on the flag and on its negation splits the list. */
  lemma {:induction false} SelectSplits(s: seq<Entry>)
    ensures |Select(s, true)| + |Select(s, false)| == |s|
  {
    if s != [] {
      SelectSplits(s[1..]);
    }
  }

  /** A filter keeps distinct ids distinct. */
  lemma {:induction false} SelectDistinct(s: seq<Entry>, forced: bool)
    requires DistinctBy(s, IdOf)
    ensures DistinctBy(Select(s, forced), IdOf)
  {
    if s != [] {
      assert DistinctBy(s[1..], IdOf) by {
        forall i, j | 0 <= i < |s[1..]| && 0 <= j < |s[1..]| && IdOf(s[1..][i]) == IdOf(s[1..][j]) ensures i == j {
          assert s[1..][i] == s[i + 1] && s[1..][j] == s[j + 1];
        }
      }
      SelectDistinct(s[1..], forced);
      var r := Select(s, forced);
      var t := Select(s[1..], forced);
      if s[0].item.forceParallel == forced {
        assert r == [s[0]] + t;
        forall k | 0 <= k < |t| ensures IdOf(t[k]) != IdOf(s[0]) {
          assert t[k] in s[1..];
          var q :| 0 <= q < |s[1..]| && s[1..][q] == t[k];
          assert s[q + 1] == t[k];
        }
      }
    }
  }

}
