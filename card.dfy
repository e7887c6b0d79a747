/**
 * TimelineCard.tsx: the initials shown when a card has no logo, the details
 * height a card reports, and the width and side classes it picks.
 */
module Card {

  import opened Wrappers
  import opened Text
  import opened Sorting
  import opened Geometry
  import opened Stacking

  /** `word[0]` for every piece, then `.filter(Boolean)`: the first character of every non-empty piece. */
  function FirstChars(pieces: seq<string>): (r: string)
    ensures |r| <= |pieces|
  {
    if pieces == [] then []
    else (if pieces[0] == [] then [] else [pieces[0][0]]) + FirstChars(pieces[1..])
  }

  /**
   * `initials`: the company name split on whitespace, the first character of
   * each word, the first two of those joined and upper-cased.
   */
  function Initials(company: string): string {
    Upper(Prefix(FirstChars(Split(company)), 2))
  }

  /** `Number.parseFloat(value) || 0`: a padding that does not parse (`NaN`, here `None`) counts as 0. */
  function PaddingOf(value: Option<real>): real {
    value.GetOr(0.0)
  }

  /** `expandedPadding`: the vertical padding the collapsed panel lacks. */
  const ExpandedPadding := 40

  /**
   * The height `reportHeight` sends: the panel's `scrollHeight`, plus the
   * padding of the expanded panel when the measured panel has none (it is
   * collapsed).
   */
  function ReportedHeight(scrollHeight: int, paddingTop: Option<real>, paddingBottom: Option<real>): (r: int)
    ensures r >= scrollHeight
    ensures r == scrollHeight <==> PaddingOf(paddingTop) + PaddingOf(paddingBottom) > 0.0
    ensures r != scrollHeight ==> r == scrollHeight + ExpandedPadding
  {
    var expandedPadding := if PaddingOf(paddingTop) + PaddingOf(paddingBottom) > 0.0 then 0 else ExpandedPadding;
    scrollHeight + expandedPadding
  }

  /** `align`: the side the card's content is pushed to. */
  datatype Align = Left | Right

  /** The four class strings a card picks from `align` and `compact`. */
  datatype CardClasses = CardClasses(
    maxWidthClass: string,
    panelWidthClass: string,
    panelSideClass: string,
    panelMotionClass: string)

  function ClassesOf(align: Align, compact: bool): CardClasses {
    var alignRight := align == Right;
    CardClasses(
      if compact then "max-w-[360px]" else "max-w-[520px]",
      if compact then "md:w-[min(360px,38vw)]" else "md:w-[min(440px,45vw)]",
      if alignRight then "md:right-full md:mr-6 md:origin-top-right" else "md:left-full md:ml-6 md:origin-top-left",
      if alignRight then "md:translate-x-2" else "md:-translate-x-2")
  }

  /** The timeline's `align` for a desktop card: cards on the left lean right, towards the track. */
  function AlignOf(trackItem: TrackItem): Align {
    if trackItem.isLeft then Right else Left
  }

  /** `(stack?.count ?? 0) > 1`. */
  function Compact(stackInfo: map<string, StackInfo>, id: string): bool {
    (if id in stackInfo then stackInfo[id].count else 0) > 1
  }

  // ---------------------------------------------------------------------------
  // Lemmas
  // ---------------------------------------------------------------------------

  /** The first characters of the non-empty pieces, piece by piece. */
  lemma {:induction false} FirstCharsNonEmpty(pieces: seq<string>)
    ensures |FirstChars(pieces)| == |NonEmpty(pieces)|
    ensures forall k :: 0 <= k < |NonEmpty(pieces)| ==> NonEmpty(pieces)[k] != [] && FirstChars(pieces)[k] == NonEmpty(pieces)[k][0]
  {
    if pieces != [] {
      FirstCharsNonEmpty(pieces[1..]);
    }
  }

  /**
   * The initials are the upper-cased first letters of the first two words of
   * the company name, whatever whitespace surrounds them: one letter per
   * word, and none for a blank name.
   */
  lemma InitialsOfWords(company: string)
    ensures Words(company) == [] ==> Initials(company) == ""
    ensures |Initials(company)| == if |Words(company)| < 2 then |Words(company)| else 2
    ensures forall k :: 0 <= k < |Initials(company)| ==>
      Words(company)[k] != [] && Initials(company)[k] == UpperChar(Words(company)[k][0])
  {
    SplitNonEmptyIsWords(company);
    FirstCharsNonEmpty(Split(company));
  }

  /**
   * A panel reports the same height whether it is measured collapsed (no
   * padding, `scrollHeight` is the content alone) or expanded (20 pixels of
   * padding above and below, counted in `scrollHeight`).
   */
  lemma ReportedHeightStable(content: int, top: real, bottom: real)
    requires top >= 0.0 && bottom >= 0.0 && top + bottom > 0.0
    requires top + bottom == ExpandedPadding as real
    ensures ReportedHeight(content, None, None) == ReportedHeight(content + ExpandedPadding, Some(top), Some(bottom))
    ensures ReportedHeight(content, Some(0.0), Some(0.0)) == content + ExpandedPadding
  {
  }

  /**
   * The width classes depend on `compact` alone and the side classes on
   * `align` alone, and the two alignments mirror each other.
   */
  lemma ClassesIndependent(a: Align, b: Align, c: bool, d: bool)
    ensures ClassesOf(a, c).maxWidthClass == ClassesOf(b, c).maxWidthClass
    ensures ClassesOf(a, c).panelWidthClass == ClassesOf(b, c).panelWidthClass
    ensures ClassesOf(a, c).panelSideClass == ClassesOf(a, d).panelSideClass
    ensures ClassesOf(a, c).panelMotionClass == ClassesOf(a, d).panelMotionClass
    ensures a != b ==> ClassesOf(a, c).panelSideClass != ClassesOf(b, c).panelSideClass
    ensures c != d ==> ClassesOf(a, c).maxWidthClass != ClassesOf(a, d).maxWidthClass
  {
  }

  /**
   * A desktop card is compact exactly when it shares its start row with
   * another card on its side of the track.
   */
  lemma CompactWhenStacked(items: seq<TrackItem>, i: int)
    requires DistinctBy(items, TrackId) && 0 <= i < |items|
    ensures Compact(StackInfoOf(items), TrackId(items[i])) <==> |Group(items, items[i].rowStart)| >= 2
  {
    StackInfoMeaning(items, i);
  }
}
