/**
 * `buildStackInfo` in Timeline.tsx: the cards of one side that start on the
 * same row are fanned out. Ordered by column, the k-th card of such a group
 * is shifted `k * stackGap` pixels and told the group's size. A card alone on
 * its row gets no entry.
 */
module Stacking {

  import opened Sorting
  import opened Experience
  import opened Geometry

  /** `laneWidth`. */
  const LaneWidth := 96

  /** `stackGap = laneWidth * 4`. */
  const StackGap := LaneWidth * 4

  datatype StackInfo = StackInfo(offset: int, count: int)

  function TrackId(t: TrackItem): string {
    t.item.id
  }

  /** The comparator `a.columnIndex - b.columnIndex` as a key. */
  function ColumnRank(t: TrackItem): Rank {
    Rank(t.columnIndex, 0)
  }

  /** The group of row `row`: the items starting on that row, in order. */
  function Group(items: seq<TrackItem>, row: int): (r: seq<TrackItem>)
    ensures |r| <= |items|
  {
    if items == [] then []
    else Group(items[..|items| - 1], row) + (if items[|items| - 1].rowStart == row then [items[|items| - 1]] else [])
  }

  /** The keys of `groups` in the order a JavaScript `Map` keeps them: first appearance. */
  function RowKeys(items: seq<TrackItem>): seq<int> {
    if items == [] then []
    else
      var t := items[..|items| - 1];
      var row := items[|items| - 1].rowStart;
      RowKeys(t) + (if row in RowKeys(t) then [] else [row])
  }

  /** The groups in `groups.forEach` order. */
  function Groups(items: seq<TrackItem>): (r: seq<seq<TrackItem>>)
    ensures |r| == |RowKeys(items)|
    ensures forall j :: 0 <= j < |r| ==> r[j] == Group(items, RowKeys(items)[j])
  {
    seq(|RowKeys(items)|, j requires 0 <= j < |RowKeys(items)| => Group(items, RowKeys(items)[j]))
  }

  /** The inner `sorted.forEach`: the k-th card of `sorted` gets offset `k * stackGap`. */
  function SetOffsets(m: map<string, StackInfo>, sorted: seq<TrackItem>, count: int): map<string, StackInfo>
  {
    if sorted == [] then m
    else
      var k := |sorted| - 1;
      SetOffsets(m, sorted[..k], count)[TrackId(sorted[k]) := StackInfo(k * StackGap, count)]
  }

  /** One group of `groups.forEach`: nothing for a lone card, otherwise offsets by column order. */
  function AddGroup(m: map<string, StackInfo>, group: seq<TrackItem>): map<string, StackInfo> {
    if |group| < 2 then m else SetOffsets(m, StableSort(group, ColumnRank), |group|)
  }

  /** `groups.forEach` over the groups `gs`. */
  function Stacked(m: map<string, StackInfo>, gs: seq<seq<TrackItem>>): map<string, StackInfo> {
    if gs == [] then m else AddGroup(Stacked(m, gs[..|gs| - 1]), gs[|gs| - 1])
  }

  /** The map `buildStackInfo(items)` returns. */
  function StackInfoOf(items: seq<TrackItem>): map<string, StackInfo> {
    Stacked(map[], Groups(items))
  }

  /**
   * `groups` maps each key of `keys`, and nothing else, to the group of that
   * row, and `keys` are the rows of `items` in order of first appearance.
   */
  ghost predicate GroupedBy(items: seq<TrackItem>, groups: map<int, seq<TrackItem>>, keys: seq<int>) {
    && keys == RowKeys(items)
    && (forall row :: row in groups <==> row in keys)
    && (forall row :: row in groups ==> groups[row] == Group(items, row))
  }

  /** The `items.forEach` loop that fills `groups`, with the key order it creates. */
  method GroupByRow(items: seq<TrackItem>) returns (groups: map<int, seq<TrackItem>>, keys: seq<int>)
    ensures keys == RowKeys(items)
    ensures forall row :: row in groups <==> row in keys
    ensures forall row :: row in groups ==> groups[row] == Group(items, row)
  {
    groups, keys := map[], [];
    assert GroupedBy(items[..0], groups, keys) by {
      assert items[..0] == [];
    }
    var n := 0;
    while n < |items|
      invariant 0 <= n <= |items|
      invariant GroupedBy(items[..n], groups, keys)
    {
      var trackItem := items[n];
      GroupNext(items, n, groups, keys);
      var list := if trackItem.rowStart in groups then groups[trackItem.rowStart] else [];
      list := list + [trackItem];
      if trackItem.rowStart !in groups {
        keys := keys + [trackItem.rowStart];
      }
      groups := groups[trackItem.rowStart := list];
      n := n + 1;
    }
    assert items[..n] == items;
  }

  /** One turn of the `items.forEach` loop keeps `groups` and `keys` those of the prefix read so far. */
  lemma GroupNext(items: seq<TrackItem>, n: nat, groups: map<int, seq<TrackItem>>, keys: seq<int>)
    requires n < |items| && GroupedBy(items[..n], groups, keys)
    ensures var row := items[n].rowStart;
      GroupedBy(items[..n + 1],
        groups[row := (if row in groups then groups[row] else []) + [items[n]]],
        if row in groups then keys else keys + [row])
  {
    GroupStep(items, n);
    var prefix, row := items[..n], items[n].rowStart;
    KeylessRowEmpty(prefix, row);
  }

  /** One more item extends its own row's group, and adds its row to the keys if it is new. */
  lemma GroupStep(items: seq<TrackItem>, n: nat)
    requires n < |items|
    ensures forall row ::
      Group(items[..n + 1], row) == Group(items[..n], row) + (if items[n].rowStart == row then [items[n]] else [])
    ensures RowKeys(items[..n + 1]) ==
      RowKeys(items[..n]) + (if items[n].rowStart in RowKeys(items[..n]) then [] else [items[n].rowStart])
  {
    assert items[..n + 1][..n] == items[..n];
  }

  /** A row that is not a key has no cards. */
  lemma KeylessRowEmpty(items: seq<TrackItem>, row: int)
    ensures row !in RowKeys(items) ==> Group(items, row) == []
  {
    GroupMembers(items, row);
    RowKeysFacts(items);
  }

  /** The group of `row`: the items that start on `row`, and only those. */
  lemma {:induction false} GroupMembers(items: seq<TrackItem>, row: int)
    ensures forall t :: t in Group(items, row) <==> t in items && t.rowStart == row
    decreases |items|
  {
    if items != [] {
      var n := |items| - 1;
      GroupMembers(items[..n], row);
      assert items == items[..n] + [items[n]];
    }
  }

  /**
   * The keys are the rows of the items, each once: every item's row is a
   * key, every key has a non-empty group, and no key repeats.
   */
  lemma {:induction false} RowKeysFacts(items: seq<TrackItem>)
    ensures forall i :: 0 <= i < |items| ==> items[i].rowStart in RowKeys(items)
    ensures forall row :: row in RowKeys(items) ==> Group(items, row) != []
    ensures forall a, b :: 0 <= a < |RowKeys(items)| && 0 <= b < |RowKeys(items)| && RowKeys(items)[a] == RowKeys(items)[b] ==> a == b
    decreases |items|
  {
    if items != [] {
      var n := |items| - 1;
      var t := items[..n];
      RowKeysFacts(t);
      assert forall i :: 0 <= i < n ==> items[i] == t[i];
      GroupMembers(items, items[n].rowStart);
      assert items[n] in items;
      forall row | row in RowKeys(t) ensures Group(items, row) != [] {
        GroupMembers(t, row);
        GroupMembers(items, row);
        var x := Group(t, row)[0];
        assert x in Group(t, row);
        assert x in items;
      }
    }
  }

  /** One pass of `groups.forEach`: a group of two or more is sorted by column and given offsets. */
  method StackGroup(stackInfo: map<string, StackInfo>, group: seq<TrackItem>) returns (r: map<string, StackInfo>)
    ensures r == AddGroup(stackInfo, group)
  {
    r := stackInfo;
    if |group| < 2 {
      return;
    }
    var sorted := StableSort(group, ColumnRank);
    var index := 0;
    while index < |sorted|
      invariant 0 <= index <= |sorted|
      invariant r == SetOffsets(stackInfo, sorted[..index], |group|)
    {
      assert sorted[..index + 1][..index] == sorted[..index];
      r := r[TrackId(sorted[index]) := StackInfo(index * StackGap, |group|)];
      index := index + 1;
    }
    assert sorted[..index] == sorted;
  }

  /** `buildStackInfo(items)`. */
  method BuildStackInfo(items: seq<TrackItem>) returns (stackInfo: map<string, StackInfo>)
    ensures stackInfo == StackInfoOf(items)
  {
    var groups, keys := GroupByRow(items);
    ghost var gs := Groups(items);
    stackInfo := map[];
    var j := 0;
    while j < |keys|
      invariant 0 <= j <= |keys|
      invariant stackInfo == Stacked(map[], gs[..j])
    {
      StackedNext(gs, j);
      stackInfo := StackGroup(stackInfo, groups[keys[j]]);
      j := j + 1;
    }
    assert gs[..j] == gs;
  }

  /** `Stacked` over one more group adds that group. */
  lemma StackedNext(gs: seq<seq<TrackItem>>, j: nat)
    requires j < |gs|
    ensures Stacked(map[], gs[..j + 1]) == AddGroup(Stacked(map[], gs[..j]), gs[j])
  {
    assert gs[..j + 1][..j] == gs[..j];
  }

  // ---------------------------------------------------------------------------
  // Lemmas
  // ---------------------------------------------------------------------------

  /** No card of `s` has the id `id`. */
  ghost predicate Missing(s: seq<TrackItem>, id: string) {
    forall i :: 0 <= i < |s| ==> TrackId(s[i]) != id
  }

  /** No id occurs twice across all the groups. */
  ghost predicate Separate(gs: seq<seq<TrackItem>>) {
    forall a, b, i, j ::
      (0 <= a < |gs| && 0 <= b < |gs| && 0 <= i < |gs[a]| && 0 <= j < |gs[b]| && TrackId(gs[a][i]) == TrackId(gs[b][j]))
      ==> a == b && i == j
  }

  /** With distinct ids, the k-th card of `sorted` gets offset `k * stackGap`; other ids are untouched. */
  lemma {:induction false} SetOffsetsValues(m: map<string, StackInfo>, sorted: seq<TrackItem>, count: int)
    requires DistinctBy(sorted, TrackId)
    ensures forall k :: 0 <= k < |sorted| ==>
      TrackId(sorted[k]) in SetOffsets(m, sorted, count) &&
      SetOffsets(m, sorted, count)[TrackId(sorted[k])] == StackInfo(k * StackGap, count)
    ensures forall id :: Missing(sorted, id) ==>
      (id in SetOffsets(m, sorted, count) <==> id in m) &&
      (id in m ==> SetOffsets(m, sorted, count)[id] == m[id])
    decreases |sorted|
  {
    if sorted != [] {
      var n := |sorted| - 1;
      var t := sorted[..n];
      assert forall i :: 0 <= i < n ==> t[i] == sorted[i];
      SetOffsetsValues(m, t, count);
      forall k | 0 <= k < n ensures TrackId(sorted[k]) != TrackId(sorted[n]) {
      }
      forall id | Missing(sorted, id) ensures Missing(t, id) {
      }
    }
  }

  /** A group of distinct cards, added to the map: its own cards get their offsets, others stay. */
  lemma AddGroupValues(m: map<string, StackInfo>, g: seq<TrackItem>)
    requires DistinctBy(g, TrackId)
    ensures |g| >= 2 ==> forall k :: 0 <= k < |g| ==>
      TrackId(StableSort(g, ColumnRank)[k]) in AddGroup(m, g) &&
      AddGroup(m, g)[TrackId(StableSort(g, ColumnRank)[k])] == StackInfo(k * StackGap, |g|)
    ensures forall id :: Missing(g, id) ==>
      (id in AddGroup(m, g) <==> id in m) && (id in m ==> AddGroup(m, g)[id] == m[id])
    ensures |g| < 2 ==> AddGroup(m, g) == m
  {
    if |g| >= 2 {
      var sorted := StableSort(g, ColumnRank);
      PermutationDistinct(g, sorted, TrackId);
      SetOffsetsValues(m, sorted, |g|);
      forall id | Missing(g, id) ensures Missing(sorted, id) {
        forall k | 0 <= k < |sorted| ensures TrackId(sorted[k]) != id {
          assert sorted[k] in multiset(g);
          var i :| 0 <= i < |g| && g[i] == sorted[k];
        }
      }
    }
  }

  /** A card of the sorted group is a card of the group. */
  lemma SortedMember(g: seq<TrackItem>, k: int) returns (i: int)
    requires 0 <= k < |StableSort(g, ColumnRank)|
    ensures 0 <= i < |g| && g[i] == StableSort(g, ColumnRank)[k]
  {
    assert StableSort(g, ColumnRank)[k] in multiset(g);
    i :| 0 <= i < |g| && g[i] == StableSort(g, ColumnRank)[k];
  }

  /**
   * With no id in two places, every card of a group of two or more ends up
   * with its position in the column order times `stackGap` and the group's
   * size, and a card alone on its row gets nothing.
   */
  lemma {:induction false} StackedValues(gs: seq<seq<TrackItem>>)
    requires Separate(gs)
    ensures forall a, k :: 0 <= a < |gs| && 2 <= |gs[a]| && 0 <= k < |gs[a]| ==>
      TrackId(StableSort(gs[a], ColumnRank)[k]) in Stacked(map[], gs) &&
      Stacked(map[], gs)[TrackId(StableSort(gs[a], ColumnRank)[k])] == StackInfo(k * StackGap, |gs[a]|)
    ensures forall a, i :: 0 <= a < |gs| && |gs[a]| < 2 && 0 <= i < |gs[a]| ==>
      TrackId(gs[a][i]) !in Stacked(map[], gs)
    decreases |gs|
  {
    if gs != [] {
      var n := |gs| - 1;
      var prefix, g := gs[..n], gs[n];
      assert forall a :: 0 <= a < n ==> prefix[a] == gs[a];
      StackedValues(prefix);
      var m := Stacked(map[], prefix);
      assert DistinctBy(g, TrackId);
      AddGroupValues(m, g);
      forall a, k | 0 <= a < n && 2 <= |gs[a]| && 0 <= k < |gs[a]|
        ensures Missing(g, TrackId(StableSort(gs[a], ColumnRank)[k]))
      {
        var i := SortedMember(gs[a], k);
      }
      forall a, i | 0 <= a < n && |gs[a]| < 2 && 0 <= i < |gs[a]| ensures Missing(g, TrackId(gs[a][i])) {
      }
      if |g| < 2 {
        forall i | 0 <= i < |g| ensures TrackId(g[i]) !in m {
          LoneNotInPrefix(prefix, TrackId(g[i]));
          forall a, j | 0 <= a < n && 0 <= j < |prefix[a]| ensures TrackId(prefix[a][j]) != TrackId(g[i]) {
            assert gs[a][j] == prefix[a][j];
          }
        }
      }
    }
  }

  /** An id in no group is not in the map. */
  lemma {:induction false} LoneNotInPrefix(gs: seq<seq<TrackItem>>, id: string)
    ensures (forall a, j :: 0 <= a < |gs| && 0 <= j < |gs[a]| ==> TrackId(gs[a][j]) != id) ==> id !in Stacked(map[], gs)
    decreases |gs|
  {
    if gs != [] {
      var n := |gs| - 1;
      LoneNotInPrefix(gs[..n], id);
      if forall a, j :: 0 <= a < |gs| && 0 <= j < |gs[a]| ==> TrackId(gs[a][j]) != id {
        assert forall a :: 0 <= a < n ==> gs[..n][a] == gs[a];
        AddGroupNoNew(Stacked(map[], gs[..n]), gs[n], id);
      }
    }
  }

  /** Adding a group that does not hold `id` adds no entry for `id`. */
  lemma AddGroupNoNew(m: map<string, StackInfo>, g: seq<TrackItem>, id: string)
    requires Missing(g, id) && id !in m
    ensures id !in AddGroup(m, g)
  {
    if |g| >= 2 {
      var sorted := StableSort(g, ColumnRank);
      forall k | 0 <= k < |sorted| ensures TrackId(sorted[k]) != id {
        var i := SortedMember(g, k);
      }
      SetOffsetsNoNew(m, sorted, |g|, id);
    }
  }

  /** Setting offsets for cards other than `id` adds no entry for `id`. */
  lemma {:induction false} SetOffsetsNoNew(m: map<string, StackInfo>, sorted: seq<TrackItem>, count: int, id: string)
    requires id !in m
    ensures (forall k :: 0 <= k < |sorted| ==> TrackId(sorted[k]) != id) ==> id !in SetOffsets(m, sorted, count)
    decreases |sorted|
  {
    if sorted != [] {
      SetOffsetsNoNew(m, sorted[..|sorted| - 1], count, id);
    }
  }

  /** A group keeps distinct ids distinct. */
  lemma {:induction false} GroupDistinct(items: seq<TrackItem>, row: int)
    requires DistinctBy(items, TrackId)
    ensures DistinctBy(Group(items, row), TrackId)
    decreases |items|
  {
    if items != [] {
      var n := |items| - 1;
      var t := items[..n];
      assert forall i :: 0 <= i < n ==> t[i] == items[i];
      GroupDistinct(t, row);
      var g := Group(t, row);
      GroupMembers(t, row);
      forall k | 0 <= k < |g| ensures TrackId(g[k]) != TrackId(items[n]) {
        assert g[k] in t;
        var q :| 0 <= q < n && t[q] == g[k];
      }
    }
  }

  /** A side keeps distinct ids distinct. */
  lemma {:induction false} OnSideDistinct(tracks: seq<TrackItem>, left: bool)
    requires DistinctBy(tracks, TrackId)
    ensures DistinctBy(OnSide(tracks, left), TrackId)
    decreases |tracks|
  {
    if tracks != [] {
      var n := |tracks| - 1;
      var t := tracks[..n];
      assert forall i :: 0 <= i < n ==> t[i] == tracks[i];
      OnSideDistinct(t, left);
      var g := OnSide(t, left);
      OnSideMembers(t, left);
      forall k | 0 <= k < |g| ensures TrackId(g[k]) != TrackId(tracks[n]) {
        assert g[k] in t;
        var q :| 0 <= q < n && t[q] == g[k];
      }
    }
  }

  /**
   * With distinct ids in `prepared`, the track items, and so the cards of
   * each side that `buildStackInfo` receives, have distinct ids.
   */
  lemma SidesDistinct(prepared: seq<Entry>, grid: Grid, left: bool)
    requires Fits(prepared, grid) && DistinctBy(prepared, IdOf)
    ensures DistinctBy(Tracks(prepared, grid), TrackId)
    ensures DistinctBy(OnSide(Tracks(prepared, grid), left), TrackId)
  {
    var tracks := Tracks(prepared, grid);
    assert forall i :: 0 <= i < |tracks| ==> TrackId(tracks[i]) == IdOf(prepared[i]);
    OnSideDistinct(tracks, left);
  }

  /** With distinct ids among the items, no id is in two groups or twice in one. */
  lemma GroupsSeparate(items: seq<TrackItem>)
    requires DistinctBy(items, TrackId)
    ensures Separate(Groups(items))
  {
    var gs, keys := Groups(items), RowKeys(items);
    RowKeysFacts(items);
    forall a, b, i, j | 0 <= a < |gs| && 0 <= b < |gs| && 0 <= i < |gs[a]| && 0 <= j < |gs[b]| &&
      TrackId(gs[a][i]) == TrackId(gs[b][j])
      ensures a == b && i == j
    {
      GroupMembers(items, keys[a]);
      GroupMembers(items, keys[b]);
      assert gs[a][i] in Group(items, keys[a]) && gs[b][j] in Group(items, keys[b]);
      var p :| 0 <= p < |items| && items[p] == gs[a][i];
      var q :| 0 <= q < |items| && items[q] == gs[b][j];
      assert p == q;
      assert keys[a] == keys[b];
      GroupDistinct(items, keys[a]);
    }
  }

  /** The group of a card is one of `groups`. */
  lemma GroupIndex(items: seq<TrackItem>, i: int) returns (a: int)
    requires 0 <= i < |items|
    ensures 0 <= a < |Groups(items)| && Groups(items)[a] == Group(items, items[i].rowStart)
    ensures items[i] in Groups(items)[a]
  {
    var keys := RowKeys(items);
    RowKeysFacts(items);
    a :| 0 <= a < |keys| && keys[a] == items[i].rowStart;
    GroupMembers(items, items[i].rowStart);
  }

  /**
   * With distinct ids, a card gets stack information exactly when another card
   * of its side starts on the same row, and is then told the group's size.
   */
  lemma StackInfoMeaning(items: seq<TrackItem>, i: int)
    requires DistinctBy(items, TrackId) && 0 <= i < |items|
    ensures TrackId(items[i]) in StackInfoOf(items) <==> |Group(items, items[i].rowStart)| >= 2
    ensures TrackId(items[i]) in StackInfoOf(items) ==>
      StackInfoOf(items)[TrackId(items[i])].count == |Group(items, items[i].rowStart)|
  {
    var gs := Groups(items);
    GroupsSeparate(items);
    StackedValues(gs);
    var a := GroupIndex(items, i);
    var g := gs[a];
    var j :| 0 <= j < |g| && g[j] == items[i];
    if |g| >= 2 {
      var i' := SortedMember(g, 0);
      assert items[i] in multiset(StableSort(g, ColumnRank));
      var k :| 0 <= k < |g| && StableSort(g, ColumnRank)[k] == items[i];
    }
  }

  /**
   * With distinct ids, the offset of a card with stack information is
   * `stackGap` times its position in its group ordered by column.
   */
  lemma StackPosition(items: seq<TrackItem>, i: int) returns (k: int)
    requires DistinctBy(items, TrackId) && 0 <= i < |items|
    requires |Group(items, items[i].rowStart)| >= 2
    ensures 0 <= k < |Group(items, items[i].rowStart)|
    ensures StableSort(Group(items, items[i].rowStart), ColumnRank)[k] == items[i]
    ensures TrackId(items[i]) in StackInfoOf(items)
    ensures StackInfoOf(items)[TrackId(items[i])].offset == k * StackGap
  {
    var gs := Groups(items);
    GroupsSeparate(items);
    StackedValues(gs);
    var a := GroupIndex(items, i);
    k := SortedPosition(gs[a], items[i]);
    assert StackInfoOf(items) == Stacked(map[], gs);
    assert Stacked(map[], gs)[TrackId(StableSort(gs[a], ColumnRank)[k])] == StackInfo(k * StackGap, |gs[a]|);
  }

  /** A card of the group has a position in the sorted group. */
  lemma SortedPosition(g: seq<TrackItem>, x: TrackItem) returns (k: int)
    requires x in g
    ensures 0 <= k < |g| && StableSort(g, ColumnRank)[k] == x
  {
    assert x in multiset(StableSort(g, ColumnRank));
    k :| 0 <= k < |g| && StableSort(g, ColumnRank)[k] == x;
  }

  /** Within a group, a card in a lower column gets a smaller offset. */
  lemma StackOrder(items: seq<TrackItem>, i: int, j: int)
    requires DistinctBy(items, TrackId) && 0 <= i < |items| && 0 <= j < |items|
    requires items[i].rowStart == items[j].rowStart && items[i].columnIndex < items[j].columnIndex
    requires |Group(items, items[i].rowStart)| >= 2
    ensures TrackId(items[i]) in StackInfoOf(items) && TrackId(items[j]) in StackInfoOf(items)
    ensures StackInfoOf(items)[TrackId(items[i])].offset < StackInfoOf(items)[TrackId(items[j])].offset
  {
    var ki := StackPosition(items, i);
    var kj := StackPosition(items, j);
    StableSortSorted(Group(items, items[i].rowStart), ColumnRank);
    ColumnOrder(StableSort(Group(items, items[i].rowStart), ColumnRank), ki, kj);
  }

  /** In a list sorted by column, a lower column comes at a lower position, so at a smaller offset. */
  lemma ColumnOrder(sorted: seq<TrackItem>, ki: int, kj: int)
    requires SortedBy(sorted, ColumnRank) && 0 <= ki < |sorted| && 0 <= kj < |sorted|
    requires sorted[ki].columnIndex < sorted[kj].columnIndex
    ensures ki < kj && ki * StackGap < kj * StackGap
  {
    assert kj < ki ==> !RankLess(ColumnRank(sorted[ki]), ColumnRank(sorted[kj]));
    assert StackGap == 384;
  }
}
