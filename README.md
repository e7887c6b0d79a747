# Experience timeline layout

This project models the layout engine behind a portfolio site's work-experience timeline. The component takes a list of experience records, each with a free-text start month, an optional end month and a `forceParallel` flag. From them it computes:

- the resolved date intervals;
- a newest-first order;
- first-fit lanes, so that entries in one lane never overlap;
- extra lanes for forced-parallel entries;
- a symmetric column grid around a centre spine;
- each card's rows, column and side (left or right);
- the stacking offsets of cards that start on the same row;
- one vertical rule per non-empty lane;
- a single-column mobile layout.

A card also derives initials from a company name, reports the height of its details panel, and picks its width and side classes.

The model follows the component's body in source order, one Dafny module per step:

| module | models |
|---|---|
| `Text` | Trimming, `split(/\s+/)`, ASCII case mapping, decimal integers |
| `Dates` | `parseMonthYear`, `monthDiff` |
| `Sorting` | The stable sort JavaScript's `Array.prototype.sort` performs |
| `Experience` | `prepared`, `maxEndDate`, `minStartDate`, `totalMonths`, the flag filters |
| `Lanes` | The first-fit loop, `baseLaneCount`, `laneCount`, forced lanes |
| `Columns` | `laneOffsets`, `maxOffset`, `columnCount` |
| `Geometry` | The `prepared.forEach` loop that builds every `TrackItem` and buckets it by lane and by side |
| `Stacking` | `buildStackInfo` |
| `Lines` | `laneLines` |
| `Mobile` | The loop that builds the mobile `rows` and `cursorTop` |
| `Details` | `handleDetailsHeight`, `maxDetailsHeight`, `extraBottomPadding` |
| `Card` | `TimelineCard`'s initials, `reportHeight` and class selection |
| `Timeline` | The whole component body, as one method |
| `Scenario` | A worked three-record example |

The source's loops are methods with loop invariants, and each is proved equal to a specification function. The properties are proved as lemmas about those functions. Examples:

- Entries that share a lane never overlap in time.
- A forced-parallel entry is alone in its lane.
- Every card fits the grid.
- Rows on the mobile layout never overlap.
- On the timeline's own left and right lists, a card is compact (stacked) exactly when another card on its side starts on the same row (`Timeline.CompactOnTimeline`).

The current time (`new Date()`) is a parameter, `now`.

The code departs from the timeline's documented behaviour in three places. The model follows the code in each case:

- With no records, `minStartDate` and `maxEndDate` both fall back to `now`, so `totalMonths` is 1 (`Experience.TotalMonths`). The code also still makes one lane (`Math.max(..., 1)`), and so one grid column (`Lanes.LaneCountBounds`). Only the mobile height is 0 (`Mobile.MobileHeightZero`).
- When two records start in the same month, `sortedByStart` keeps the order of `prepared`, which is end date descending. So first-fit allocation visits records with equal starts newest end first.
- Forced-parallel lanes are numbered in `prepared` order (end date descending), not in input order.

Dates are modelled as `Point(year, month, sub)`. `sub` stands for the time within the month: parsed dates have `sub == 0` (the 1st of the month), and `now` may have any `sub`. `Before` is the `getTime()` comparison.

## Model

| member | source | states |
|---|---|---|
| Text.Trim | src/app/experiences/components/Timeline.tsx:45 | The result of `trim()` has whitespace at neither end |
| Text.TrimStart | src/app/experiences/components/Timeline.tsx:45 | The result is a suffix of the input; everything dropped is whitespace, and the result does not start with whitespace |
| Text.TrimEnd | src/app/experiences/components/Timeline.tsx:45 | The result is a prefix of the input; everything dropped is whitespace, and the result does not end with whitespace |
| Text.WordLength | src/app/experiences/components/Timeline.tsx:45 | The longest whitespace-free prefix: every character before it is not whitespace, and the one at it is |
| Text.SpaceLength | src/app/experiences/components/Timeline.tsx:45 | The longest all-whitespace prefix |
| Text.Split | src/app/experiences/components/Timeline.tsx:45 | `split(/\s+/)` always yields at least one piece |
| Text.Words | src/app/experiences/components/Timeline.tsx:45 | The tokens are non-empty and hold no whitespace |
| Text.NonEmpty | src/app/experiences/components/timeline/TimelineCard.tsx:31 | `filter(Boolean)` never lengthens the list |
| Text.Prefix | src/app/experiences/components/timeline/TimelineCard.tsx:32 | `slice(0, n)` is the first `min(n, length)` elements |
| Text.Lower | src/app/experiences/components/Timeline.tsx:49 | `toLowerCase` maps each character and keeps the length |
| Text.Upper | src/app/experiences/components/timeline/TimelineCard.tsx:34 | `toUpperCase` maps each character and keeps the length |
| Text.Decimal | src/app/experiences/components/Timeline.tsx:50 | The decimal spelling is all digits |
| Text.DecimalValue | src/app/experiences/components/Timeline.tsx:50 | Reading a decimal spelling back gives the number |
| Text.ParseFormatInteger | src/app/experiences/components/Timeline.tsx:50 | `Number` reads back every integer's canonical spelling |
| Text.WordsSkipSpaces | src/app/experiences/components/Timeline.tsx:45 | Leading whitespace does not change the tokens |
| Text.WordsOfSpaces | src/app/experiences/components/Timeline.tsx:45 | A string of whitespace has no tokens |
| Text.WordLengthAppendSpaces | src/app/experiences/components/Timeline.tsx:45 | Appending whitespace does not change the first token's length |
| Text.WordsAppendSpaces | src/app/experiences/components/Timeline.tsx:45 | Trailing whitespace does not change the tokens |
| Text.TrimEndRest | src/app/experiences/components/Timeline.tsx:45 | What `trimEnd` drops is all whitespace after what it keeps |
| Text.WordsTrim | src/app/experiences/components/Timeline.tsx:45 | Trimming does not change the tokens |
| Text.NonEmptyCons | src/app/experiences/components/timeline/TimelineCard.tsx:31 | `filter(Boolean)` works one piece at a time |
| Text.SplitCons | src/app/experiences/components/Timeline.tsx:45 | Past a first piece, `split` continues after the whitespace that ends it |
| Text.WordsCons | src/app/experiences/components/Timeline.tsx:45 | A string that starts with a token: that token, then the rest's tokens |
| Text.SplitNonEmptyIsWords | src/app/experiences/components/timeline/TimelineCard.tsx:29-31 | `split(/\s+/).filter(Boolean)` is exactly the list of tokens, whatever whitespace surrounds them |
| Text.SplitTrimmedIsWords | src/app/experiences/components/Timeline.tsx:45 | A string with whitespace at neither end splits into exactly its tokens, with no empty pieces |
| Text.TrimSplit | src/app/experiences/components/Timeline.tsx:45 | `trim().split(/\s+/)` is `[""]` for a blank value and otherwise exactly the tokens |
| Dates.MonthDiff | src/app/experiences/components/Timeline.tsx:57-59 | The difference is 0 exactly for the same month, and positive exactly when the end month is later |
| Dates.MonthIndex | src/app/experiences/components/Timeline.tsx:26-39 | The `monthIndex` table is defined exactly on its twelve keys, and is inverse to the month names |
| Dates.ParseMonthYear | src/app/experiences/components/Timeline.tsx:54 | A parsed date is the 1st of its month |
| Dates.ParseMonthYearTokens | src/app/experiences/components/Timeline.tsx:41-55 | `null` exactly when the value is absent or empty, has fewer than two tokens, its first token's three-letter key names no month, or its second token is not a number; otherwise day 1 of that month and year |
| Dates.MonthDiffChain | src/app/experiences/components/Timeline.tsx:57-59 | Month differences add up along a chain of dates |
| Dates.MonthDiffAntisymmetric | src/app/experiences/components/Timeline.tsx:57-59 | Swapping the two dates negates the difference |
| Dates.NotBeforeMonthDiff | src/app/experiences/components/Timeline.tsx:57-59 | A date not before another is not in an earlier month |
| Dates.ParseDependsOnMonthKey | src/app/experiences/components/Timeline.tsx:49 | Two month tokens that agree on their first three letters up to ASCII case parse alike |
| Dates.ParseFormatted | src/app/experiences/components/Timeline.tsx:41-55 | Every year and month round-trips through its "mon year" spelling |
| Dates.MonthNameFacts | src/app/experiences/components/Timeline.tsx:26-39 | Each key of `monthIndex` is three whitespace-free letters and is its own lookup key |
| Dates.WordsJoin | src/app/experiences/components/Timeline.tsx:45 | A token, a space and a rest tokenise as the token followed by the rest's tokens |
| Dates.FormattedIsOneWord | src/app/experiences/components/Timeline.tsx:50 | A year's spelling is a single token |
| Sorting.Insert | src/app/experiences/components/Timeline.tsx:90 | Insertion adds exactly one copy of the element |
| Sorting.StableSort | src/app/experiences/components/Timeline.tsx:90 | The sort is a permutation of its input |
| Sorting.Tied | src/app/experiences/components/Timeline.tsx:90 | Every element picked has the given rank, and there are no more of them than input elements |
| Sorting.TiedSubset | src/app/experiences/components/Timeline.tsx:90 | The elements of one rank are drawn from the input, none more often than it occurs there |
| Sorting.InsertSorted | src/app/experiences/components/Timeline.tsx:90 | Insertion keeps a list ordered by rank |
| Sorting.StableSortSorted | src/app/experiences/components/Timeline.tsx:90 | The sort orders by rank |
| Sorting.TiedInsert | src/app/experiences/components/Timeline.tsx:90 | Insertion puts the element before the other elements of its own rank, which is what stability needs, since it came first in the input |
| Sorting.StableSortStable | src/app/experiences/components/Timeline.tsx:90 | The sort is stable: elements of equal rank keep their input order |
| Sorting.PermutationDistinct | src/app/experiences/components/Timeline.tsx:90 | A permutation keeps ids distinct |
| Sorting.TwoPositions | src/app/experiences/components/Timeline.tsx:90 | An element at two positions occurs at least twice |
| Sorting.OnePosition | src/app/experiences/components/Timeline.tsx:90 | With distinct ids, each element occurs once |
| Experience.Resolve | src/app/experiences/components/Timeline.tsx:78-89 | The start is the parsed start, or `now` when it does not parse. The end is `now` when it is absent, empty, "present" in any case, or does not parse; otherwise the parsed end |
| Experience.ResolveAll | src/app/experiences/components/Timeline.tsx:77-89 | One resolved entry per item, in input order |
| Experience.LatestEnd | src/app/experiences/components/Timeline.tsx:101-104 | The `reduce` returns an end date (or its start value) that is not before any entry's end |
| Experience.EarliestStart | src/app/experiences/components/Timeline.tsx:105-108 | The `reduce` returns a start date (or its start value) that is not after any entry's start |
| Experience.MaxEndDate | src/app/experiences/components/Timeline.tsx:101-104 | `now` for no entries; otherwise the end of some entry, and the latest end |
| Experience.MinStartDate | src/app/experiences/components/Timeline.tsx:105-108 | `now` for no entries; otherwise the start of some entry, and the earliest start |
| Experience.TotalMonths | src/app/experiences/components/Timeline.tsx:109 | The months from the earliest start to the latest end, both counted, or 1 when that is smaller: the larger of the two. It is 1 for no entries |
| Experience.Select | src/app/experiences/components/Timeline.tsx:112-113 | The filter keeps exactly the entries with the given flag |
| Experience.EndDescendingOrder | src/app/experiences/components/Timeline.tsx:90 | The end key ranks `a` first exactly when `a` ends later in time |
| Experience.StartAscendingOrder | src/app/experiences/components/Timeline.tsx:115-117 | The start key ranks `a` first exactly when `a` starts earlier in time |
| Experience.PreparedOrder | src/app/experiences/components/Timeline.tsx:77-90 | `prepared` is a permutation of the resolved items, ordered newest end first, with equal ends in input order |
| Experience.PreparedDistinct | src/app/experiences/components/Timeline.tsx:77-90 | Unique item ids stay unique in `prepared` |
| Experience.MaxEndIsFirst | src/app/experiences/components/Timeline.tsx:101-104 | For a non-empty list, `maxEndDate` is the end of the first entry of `prepared` |
| Experience.SelectSplits | src/app/experiences/components/Timeline.tsx:112-113 | The forced and automatic entries partition `prepared` |
| Experience.SelectDistinct | src/app/experiences/components/Timeline.tsx:112-113 | Filtering keeps ids distinct |
| Lanes.FirstFit | src/app/experiences/components/Timeline.tsx:122-128 | The lowest lane whose end is strictly before the start, or the number of lanes when there is none |
| Lanes.Place | src/app/experiences/components/Timeline.tsx:129-134 | A new lane is pushed, or the chosen lane's end is replaced; every other lane is unchanged |
| Lanes.Allocate | src/app/experiences/components/Timeline.tsx:121-136 | One lane per entry, each within the lanes opened; every id is mapped to an opened lane; at least one lane for a non-empty list |
| Lanes.ForcedOnto | src/app/experiences/components/Timeline.tsx:142-144 | Every forced id is mapped; every other id keeps its lane, or lies in the forced range |
| Lanes.BaseLaneCount | src/app/experiences/components/Timeline.tsx:138 | Zero exactly when there are no automatic entries; otherwise the number of lanes opened, or 1 if that is larger. Forced lanes start right after |
| Lanes.LaneCount | src/app/experiences/components/Timeline.tsx:140 | At least 1 and at least base plus forced, and equal to one of the two |
| Lanes.AllocateStep | src/app/experiences/components/Timeline.tsx:121-136 | One more entry is placed first-fit on the state of the entries before it |
| Lanes.AllocateNext | src/app/experiences/components/Timeline.tsx:121-136 | A loop turn on a state equal to the first entries' state gives the state of one more entry |
| Lanes.FindLane | src/app/experiences/components/Timeline.tsx:122-131 | The inner loop with its `break` returns the first-fit lane |
| Lanes.AllocateAutoLanes | src/app/experiences/components/Timeline.tsx:118-136 | The loop leaves exactly the lane ends and assignments of the first-fit allocation |
| Lanes.AssignForcedLanes | src/app/experiences/components/Timeline.tsx:142-144 | The loop leaves exactly the forced-lane assignment |
| Lanes.AssignLanes | src/app/experiences/components/Timeline.tsx:112-144 | `laneCount` and the final `laneAssignments` are those of their specification functions |
| Lanes.InSortedByStart | src/app/experiences/components/Timeline.tsx:113-117 | `sortedByStart` holds exactly the automatic entries |
| Lanes.PlaceKeepsDisjoint | src/app/experiences/components/Timeline.tsx:121-136 | Placing one entry first-fit keeps lane ends covering their entries and keeps the lanes non-overlapping |
| Lanes.AllocateDisjoint | src/app/experiences/components/Timeline.tsx:121-136 | For entries in order, an entry placed after another in the same lane starts strictly after the other ends |
| Lanes.AllocateById | src/app/experiences/components/Timeline.tsx:135 | With distinct ids, the map records each entry's own lane |
| Lanes.ForcedOntoValues | src/app/experiences/components/Timeline.tsx:142-144 | With distinct ids, the i-th forced entry gets lane `forcedLaneStart + i`, and every other id keeps its lane |
| Lanes.SortedByStartDistinct | src/app/experiences/components/Timeline.tsx:112-117 | With distinct ids, both lists keep ids distinct, and no id is in both |
| Lanes.DistinctMembers | src/app/experiences/components/Timeline.tsx:135 | Two different members of a list with distinct ids have different ids |
| Lanes.EveryEntryAssigned | src/app/experiences/components/Timeline.tsx:166 | Every entry has a lane, so the `?? 0` fallback is never taken |
| Lanes.LaneCountBounds | src/app/experiences/components/Timeline.tsx:138-140 | At least one lane, never more lanes than entries, and exactly one for no entries |
| Lanes.AssignmentsInRange | src/app/experiences/components/Timeline.tsx:166 | Every lane looked up is in `[0, laneCount)` |
| Lanes.LaneAssignmentsValues | src/app/experiences/components/Timeline.tsx:135-144 | With distinct ids, the i-th forced entry has lane `forcedLaneStart + i`. Every automatic entry keeps its first-fit lane, which is below `forcedLaneStart` |
| Lanes.AssignedValues | src/app/experiences/components/Timeline.tsx:142-144 | The same, over the two lists and the first-fit map |
| Lanes.ForcedLaneAlone | src/app/experiences/components/Timeline.tsx:138-144 | With distinct ids, a forced-parallel entry shares its lane with no other entry |
| Lanes.ForcedPairApart | src/app/experiences/components/Timeline.tsx:138-144 | A forced entry and any other entry get different lanes |
| Lanes.SameLaneDisjoint | src/app/experiences/components/Timeline.tsx:115-144 | With distinct ids and every entry in order, two entries in the same lane do not overlap in time |
| Lanes.AutoPairApart | src/app/experiences/components/Timeline.tsx:121-136 | Two automatic entries in the same lane do not overlap in time |
| Columns.LaneOffsets | src/app/experiences/components/Timeline.tsx:145-152 | The loop gives lane i the offset 0, -1, +1, -2, +2, … and makes at least one lane |
| Columns.MaxAbs | src/app/experiences/components/Timeline.tsx:155 | The `reduce` returns the largest magnitude, or its start value |
| Columns.Offsets | src/app/experiences/components/Timeline.tsx:145-152 | `laneOffsets` has one entry per lane, with lane i's offset |
| Columns.OffsetMagnitude | src/app/experiences/components/Timeline.tsx:145-152 | Lane i's offset has magnitude `(i + 1) / 2` |
| Columns.OffsetsDistinct | src/app/experiences/components/Timeline.tsx:145-152 | Distinct lanes have distinct offsets |
| Columns.OffsetSide | src/app/experiences/components/Timeline.tsx:145-152 | Odd lanes are left of centre, and only lane 0 is on it |
| Columns.MaxOffsetValue | src/app/experiences/components/Timeline.tsx:155 | With n lanes, `maxOffset` is `n / 2` |
| Columns.ColumnsFit | src/app/experiences/components/Timeline.tsx:155-157 | Every lane's column lies in `[0, columnCount)`; distinct lanes get distinct columns; only lane 0 is in the centre column |
| Columns.ColumnCountValue | src/app/experiences/components/Timeline.tsx:156 | One column per lane, plus one for an even lane count |
| Geometry.Track | src/app/experiences/components/Timeline.tsx:166-194 | A card's row is its end month counted back from the latest end, plus 1. It spans its duration (at least 1), and its top is its row times 28 pixels. It is on the left for a negative offset, and alternates by index on the centre lane or with a single lane |
| Geometry.Tracks | src/app/experiences/components/Timeline.tsx:165-202 | One track item per entry, in `prepared` order |
| Geometry.InLane | src/app/experiences/components/Timeline.tsx:196 | Every item of a lane's list is in that lane |
| Geometry.OnSide | src/app/experiences/components/Timeline.tsx:197-201 | Every item of a side's list is on that side |
| Geometry.PlaceItems | src/app/experiences/components/Timeline.tsx:161-202 | The loop leaves one list per lane. Each lane's list is that lane's items and each side's list that side's items, all in `prepared` order |
| Geometry.TrackOfIndex | src/app/experiences/components/Timeline.tsx:165-194 | The item the loop builds at `index` is the entry's track item |
| Geometry.PlaceStep | src/app/experiences/components/Timeline.tsx:196-201 | One loop turn extends the buckets to one more item |
| Geometry.FilterStep | src/app/experiences/components/Timeline.tsx:196-201 | One more item extends its own lane and side by that item, and nothing else |
| Geometry.GridOfFits | src/app/experiences/components/Timeline.tsx:166-172 | The lane looked up for every entry indexes `laneOffsets` |
| Geometry.TrackSpansEntry | src/app/experiences/components/Timeline.tsx:167-169 | The card spans the months from its start to its end, counted inclusively, and at least one |
| Geometry.TrackInGrid | src/app/experiences/components/Timeline.tsx:165-194 | For an entry in order, its rows lie in `[1, totalMonths + 1]` and its column in `[0, columnCount)` |
| Geometry.TrackRows | src/app/experiences/components/Timeline.tsx:167-171 | Rows of an entry between the earliest start and the latest end stay inside the grid |
| Geometry.TrackSide | src/app/experiences/components/Timeline.tsx:173-182 | The side of a card: odd lanes left, even lanes other than 0 right, and lane 0 (or a single lane) alternating by index |
| Geometry.InLaneMembers | src/app/experiences/components/Timeline.tsx:196 | A lane's list holds exactly the items assigned to it |
| Geometry.OnSideMembers | src/app/experiences/components/Timeline.tsx:197-201 | A side's list holds exactly the items on that side |
| Geometry.SidesPartition | src/app/experiences/components/Timeline.tsx:197-201 | Every card is on exactly one side |
| Stacking.Group | src/app/experiences/components/Timeline.tsx:207-211 | A row's group is drawn from the items |
| Stacking.Groups | src/app/experiences/components/Timeline.tsx:214 | One group per key, in key order |
| Stacking.GroupByRow | src/app/experiences/components/Timeline.tsx:206-211 | The loop's `Map` has exactly the rows that occur, in first-appearance order, each with its items in order |
| Stacking.GroupNext | src/app/experiences/components/Timeline.tsx:207-211 | One loop turn keeps the `Map` that of the items read so far |
| Stacking.GroupStep | src/app/experiences/components/Timeline.tsx:207-211 | One more item extends its own row's group, and adds its row as a key if it is new |
| Stacking.KeylessRowEmpty | src/app/experiences/components/Timeline.tsx:208 | A row that is not a key has no items |
| Stacking.GroupMembers | src/app/experiences/components/Timeline.tsx:207-210 | A row's group holds exactly the items that start on that row |
| Stacking.RowKeysFacts | src/app/experiences/components/Timeline.tsx:206-211 | Every item's row is a key; every key has a non-empty group; no key repeats |
| Stacking.StackGroup | src/app/experiences/components/Timeline.tsx:214-222 | One group's pass gives the offsets its specification function gives |
| Stacking.BuildStackInfo | src/app/experiences/components/Timeline.tsx:205-224 | `buildStackInfo` returns the map its specification function describes |
| Stacking.StackedNext | src/app/experiences/components/Timeline.tsx:214-222 | One more group adds that group's offsets |
| Stacking.SetOffsetsValues | src/app/experiences/components/Timeline.tsx:219-221 | With distinct ids, the k-th sorted card gets offset `k * stackGap` and the group size; other ids are untouched |
| Stacking.AddGroupValues | src/app/experiences/components/Timeline.tsx:215-221 | A lone card adds nothing; the cards of a larger group get their offsets; other ids are untouched |
| Stacking.SortedMember | src/app/experiences/components/Timeline.tsx:218 | A card of the sorted group is a card of the group |
| Stacking.StackedValues | src/app/experiences/components/Timeline.tsx:214-222 | Over separate groups, cards of groups of two or more get their sorted position's offset, and lone cards get nothing |
| Stacking.LoneNotInPrefix | src/app/experiences/components/Timeline.tsx:214-222 | An id in no group is not in the map |
| Stacking.AddGroupNoNew | src/app/experiences/components/Timeline.tsx:215-221 | A group without an id adds no entry for it |
| Stacking.SetOffsetsNoNew | src/app/experiences/components/Timeline.tsx:219-221 | Setting offsets for other cards adds no entry for an id |
| Stacking.GroupDistinct | src/app/experiences/components/Timeline.tsx:207-210 | A group keeps ids distinct |
| Stacking.OnSideDistinct | src/app/experiences/components/Timeline.tsx:197-201 | A side's list keeps ids distinct |
| Stacking.SidesDistinct | src/app/experiences/components/Timeline.tsx:165-201 | With distinct ids in `prepared`, the track items and each side's list have distinct ids |
| Stacking.GroupsSeparate | src/app/experiences/components/Timeline.tsx:206-214 | With distinct ids, no id is in two groups or twice in one |
| Stacking.GroupIndex | src/app/experiences/components/Timeline.tsx:214 | A card's group is one of the groups visited |
| Stacking.StackInfoMeaning | src/app/experiences/components/Timeline.tsx:205-224 | With distinct ids, a card has stack information exactly when another card of its side starts on the same row; its `count` is then the group's size |
| Stacking.StackPosition | src/app/experiences/components/Timeline.tsx:218-221 | A stacked card's offset is its position in column order times `stackGap` |
| Stacking.SortedPosition | src/app/experiences/components/Timeline.tsx:218 | Every card of a group has a position in the sorted group |
| Stacking.StackOrder | src/app/experiences/components/Timeline.tsx:218-221 | Within a group, a card in a lower column gets a smaller offset |
| Stacking.ColumnOrder | src/app/experiences/components/Timeline.tsx:218 | In a list sorted by column, a lower column comes at a lower position |
| Lines.MinRowStart | src/app/experiences/components/Timeline.tsx:234 | The smallest `rowStart` of the lane's items |
| Lines.MaxRowEnd | src/app/experiences/components/Timeline.tsx:235 | The largest `rowEnd` of the lane's items |
| Lines.LineOf | src/app/experiences/components/Timeline.tsx:230-242 | `null` exactly for an empty lane. Otherwise a line in the first item's column, from the smallest `rowStart` to the largest `rowEnd` of its items (both attained), and full height exactly in the centre column |
| Lines.Present | src/app/experiences/components/Timeline.tsx:243-248 | The filter keeps exactly the present lines |
| Lines.LaneLinesComplete | src/app/experiences/components/Timeline.tsx:229-248 | There is exactly one line per non-empty lane, and nothing else |
| Lines.TrackColumns | src/app/experiences/components/Timeline.tsx:172-184 | Every track item stands in its lane's column |
| Lines.FirstInLane | src/app/experiences/components/Timeline.tsx:237 | The first item of a lane stands in that lane's column |
| Lines.LaneLineColumn | src/app/experiences/components/Timeline.tsx:229-242 | Lane k's line stands in lane k's column, and is full height exactly for lane 0 |
| Mobile.DurationMonths | src/app/experiences/components/Timeline.tsx:255 | The months from start to end, counted inclusively, for an entry in order; 1 otherwise |
| Mobile.GapHeight | src/app/experiences/components/Timeline.tsx:274-275 | At least `minGapPx`, and at least one month row per whole month between the next entry's end and this one's start |
| Mobile.MobileRows | src/app/experiences/components/Timeline.tsx:250-280 | The loop pushes one row per entry, each the specified row, and leaves `cursorTop` at the specified height |
| Mobile.RowStep | src/app/experiences/components/Timeline.tsx:255-279 | One loop turn pushes the specified row and moves the cursor by the row and its gap |
| Mobile.RowsApart | src/app/experiences/components/Timeline.tsx:254-280 | A later row starts at least `minGapPx` below the bottom of an earlier one |
| Mobile.RowGap | src/app/experiences/components/Timeline.tsx:255-279 | A row is 86 pixels plus its months, and the next row starts one gap below it |
| Mobile.CursorGrows | src/app/experiences/components/Timeline.tsx:276-278 | The cursor never goes back, and grows by at least a row per entry |
| Mobile.RowsInside | src/app/experiences/components/Timeline.tsx:252-284 | Every row lies inside the mobile container |
| Mobile.MobileHeightZero | src/app/experiences/components/Timeline.tsx:252-284 | The mobile container has height 0 exactly when there are no entries |
| Mobile.SameMonthOneMonth | src/app/experiences/components/Timeline.tsx:167-169 | An entry whose two dates fall in the same month lasts one month, on the mobile layout and on the desktop track |
| Mobile.RowsAlternate | src/app/experiences/components/Timeline.tsx:268 | Rows alternate sides, starting on the left |
| Mobile.MobileMatchesDesktop | src/app/experiences/components/Timeline.tsx:167-169 | An entry's mobile segment is as long as its desktop card |
| Details.Ceil | src/app/experiences/components/Timeline.tsx:65 | `Math.ceil`: the least integer not below the value |
| Details.Report | src/app/experiences/components/Timeline.tsx:63-72 | A card's height becomes the larger of its stored and its rounded-up reported height. Every other card is untouched, and the state is returned unchanged unless the height grows |
| Details.MaxDetailsHeight | src/app/experiences/components/Timeline.tsx:74 | The largest stored height, or 0: never below 0 and never below a stored height |
| Details.ReportPositive | src/app/experiences/components/Timeline.tsx:63-72 | Reporting keeps every stored height positive |
| Details.ReportIdempotent | src/app/experiences/components/Timeline.tsx:63-72 | Reporting the same height twice is reporting it once |
| Details.ReportCommutes | src/app/experiences/components/Timeline.tsx:63-72 | The order of two reports does not matter |
| Details.ReportAllTallest | src/app/experiences/components/Timeline.tsx:63-72 | After a sequence of reports, a card's height is the tallest it reported, or what was stored before if that is taller |
| Details.ReportExample | src/app/experiences/components/Timeline.tsx:63-72 | Reports of 40, 25, 60 and 10 for one card keep 60 |
| Details.PaddingFitsPanels | src/app/experiences/components/Timeline.tsx:74-75 | The bottom padding is 0 exactly when no card has reported; otherwise it is the tallest panel plus 16 |
| Card.FirstChars | src/app/experiences/components/timeline/TimelineCard.tsx:30-31 | At most one character per piece |
| Card.FirstCharsNonEmpty | src/app/experiences/components/timeline/TimelineCard.tsx:30-31 | One first character per non-empty piece, in order |
| Card.InitialsOfWords | src/app/experiences/components/timeline/TimelineCard.tsx:28-34 | The initials are the upper-cased first letters of the first two words of the company name: "" for a blank name, one letter per word |
| Card.ReportedHeight | src/app/experiences/components/timeline/TimelineCard.tsx:43-48 | The reported height is `scrollHeight`, plus 40 exactly when the panel has no padding |
| Card.ReportedHeightStable | src/app/experiences/components/timeline/TimelineCard.tsx:43-48 | A panel reports the same height collapsed and expanded |
| Card.ClassesIndependent | src/app/experiences/components/timeline/TimelineCard.tsx:21-27 | The width classes depend on `compact` alone and the side classes on `align` alone; both choices change the classes |
| Card.CompactWhenStacked | src/app/experiences/components/Timeline.tsx:306-309 | A desktop card is compact exactly when another card on its side starts on the same row |
| Timeline.Desktop | src/app/experiences/components/Timeline.tsx:112-202 | Lanes, offsets, and the cards bucketed by lane and by side, each equal to its specification |
| Timeline.CompactOnTimeline | src/app/experiences/components/Timeline.tsx:226-227 | For records with unique ids, a card on either side of the desktop track is compact exactly when another card of that side starts on its row |
| Timeline.PreparedLength | src/app/experiences/components/Timeline.tsx:77-90 | `prepared` has one entry per item |
| Timeline.ComputeLayout | src/app/experiences/components/Timeline.tsx:77-280 | Every value the component body computes equals its specification function: `prepared`, lanes, offsets, columns, months, buckets, stack info, lane lines, mobile rows and height |
| Scenario.ParsesJan | src/app/experiences/components/Timeline.tsx:41-55 | "jan 2022" parses to January 2022 |
| Scenario.PresentIsOngoing | src/app/experiences/components/Timeline.tsx:81 | "present" means ongoing |
| Scenario.SampleResolved | src/app/experiences/components/Timeline.tsx:78-89 | The three sample records resolve to the intervals their strings spell |
| Scenario.SortNewestFirst | src/app/experiences/components/Timeline.tsx:90 | Three entries with strictly ordered ends come out newest first |
| Scenario.AllocateTwo | src/app/experiences/components/Timeline.tsx:121-136 | An entry that starts before the first ends opens lane 1 |
| Scenario.LanesOfThree | src/app/experiences/components/Timeline.tsx:112-144 | Two overlapping automatic entries get lanes 0 and 1, and a forced entry gets lane 2, making 3 lanes |
| Scenario.SampleLanes | src/app/experiences/components/Timeline.tsx:77-202 | The sample: A in lane 0, B in lane 1, C (forced) in lane 2; C's card on the top row, the others below it |

## Left out

- The JSX markup, inline styles and Tailwind class semantics, beyond the four class strings a card picks.
- `totalHeight`, `centerGridWidth`, `connectorOffset` and other pixel widths that only feed styles. The model keeps rows, columns and the mobile pixel positions.
- Text.Lower: ASCII letters only; JavaScript's full Unicode case mapping is not modelled.
- Text.Upper: ASCII letters only, for the same reason.
- Card.FirstChars: `word[0]` is one UTF-16 code unit in JavaScript and one character here; surrogate pairs are not modelled.
- Text.ParseInteger: reads an optionally signed run of decimal digits. `Number(rawYear)` also accepts forms such as "1e3", "0x10", "2022.5" and "Infinity", and they would make a non-integer or far-off year; those are not modelled.
- Years are not truncated or remapped the way `new Date(year, month, 1)` maps years 0-99.
- Dates.ParseMonthYear: accepts every integer year. `new Date(year, month, 1)` gives an Invalid Date outside about years -271821 to 275760. Such a date is not null, so `?? now` does not replace it, and every later `getTime` comparison sees NaN. The model does not capture this out-of-range behaviour.
- Dates are points with a month and an abstract within-month position. Time zones and milliseconds are not modelled.
- The current time is a parameter, `now`, not a clock read.
- React state mechanics are not modelled. `useState` and `useCallback` are left out, and the `setDetailsHeights` updater is the pure function `Details.Report`.
- DOM measurement is not modelled: `getComputedStyle`, `scrollHeight` and the `ResizeObserver` effect that triggers `reportHeight`. Their readings are parameters of `Card.ReportedHeight`.
- Details.MaxDetailsHeight: a ghost function over the map's values, since `Object.values` order does not affect a maximum.
- The experience records in `experiences.ts` are not modelled; the component is modelled for any list of records.
- Hover, focus and expand interactions of the cards are not modelled, and neither is the `TimelineSegment` mobile markup. They do not affect the layout.
