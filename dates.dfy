/**
 * Calendar points, their order, whole-month differences and the parser for
 * "Mon Year" strings (Timeline.tsx, `monthIndex`, `parseMonthYear`, `monthDiff`).
 */
module Dates {

  import opened Wrappers
  import opened Text

  /** A zero-based month, as JavaScript's `Date.getMonth()` returns it. */
  type Month = m: int | 0 <= m < 12

  /**
   * A point in time: day 1 of `month` in `year`, plus `sub`, how far into that
   * month the point lies. Parsed dates have `sub == 0`; the current time `now`
   * may lie part-way through its month.
   */
  datatype Point = Point(year: int, month: Month, sub: nat)

  /** `a.getTime() < b.getTime()`: earlier year, then earlier month, then earlier within the month. */
  predicate Before(a: Point, b: Point) {
    || a.year < b.year
    || (a.year == b.year && a.month < b.month)
    || (a.year == b.year && a.month == b.month && a.sub < b.sub)
  }

  /**
   * `monthDiff(start, end)`: the number of whole calendar months from `start` to
   * `end`, ignoring how far into the month either lies. Its sign is the calendar
   * order of the two months.
   */
  function MonthDiff(start: Point, end: Point): (r: int)
    ensures r == 0 <==> start.year == end.year && start.month == end.month
    ensures r > 0 <==> start.year < end.year || (start.year == end.year && start.month < end.month)
  {
    (end.year - start.year) * 12 + (end.month - start.month)
  }

  /** The keys of the `monthIndex` table, in month order. */
  const MonthNames: seq<string> :=
    ["jan", "feb", "mar", "apr", "may", "jun", "jul", "aug", "sep", "oct", "nov", "dec"]

  /** Lookup in the `monthIndex` table: defined exactly on the twelve keys, and inverse to `MonthNames`. */
  function MonthIndex(key: string): (r: Option<Month>)
    ensures r.Some? ==> MonthNames[r.value] == key
    ensures r.None? <==> key !in MonthNames
  {
    if key == "jan" then Some(0)
    else if key == "feb" then Some(1)
    else if key == "mar" then Some(2)
    else if key == "apr" then Some(3)
    else if key == "may" then Some(4)
    else if key == "jun" then Some(5)
    else if key == "jul" then Some(6)
    else if key == "aug" then Some(7)
    else if key == "sep" then Some(8)
    else if key == "oct" then Some(9)
    else if key == "nov" then Some(10)
    else if key == "dec" then Some(11)
    else None
  }

  /** The key a month token is looked up by: `rawMonth.slice(0, 3).toLowerCase()`. */
  function MonthKey(rawMonth: string): string {
    Lower(Prefix(rawMonth, 3))
  }

  /**
   * `parseMonthYear(value)`. `None` is JavaScript's `undefined` argument; the
   * result `None` is `null`. `ParseMonthYearTokens` states the result in terms
   * of the value's whitespace-separated tokens.
   */
  function ParseMonthYear(value: Option<string>): (r: Option<Point>)
    ensures r.Some? ==> r.value.sub == 0
  {
    if value.None? || value.value == "" then None
    else
      var parts := Split(Trim(value.value));
      var rawMonth := parts[0];
      if rawMonth == "" || |parts| < 2 || parts[1] == "" then None
      else
        var month := MonthIndex(MonthKey(rawMonth));
        var year := ParseInteger(parts[1]);
        if year.None? || month.None? then None
        else Some(Point(year.value, month.value, 0))
  }

  // ---------------------------------------------------------------------------
  // Lemmas
  // ---------------------------------------------------------------------------

  /**
   * `parseMonthYear` in terms of the whitespace-separated tokens of the value:
   * null exactly when the value is absent or empty, has fewer than two tokens,
   * the first token's key names no month, or the second token is no integer;
   * otherwise day 1 of that month and year.
   */
  lemma ParseMonthYearTokens(value: Option<string>)
    ensures ParseMonthYear(value).None? <==>
      || value.None?
      || value.value == ""
      || |Words(value.value)| < 2
      || MonthIndex(MonthKey(Words(value.value)[0])).None?
      || ParseInteger(Words(value.value)[1]).None?
    ensures ParseMonthYear(value).Some? ==>
      ParseMonthYear(value).value == Point(ParseInteger(Words(value.value)[1]).value,
                                           MonthIndex(MonthKey(Words(value.value)[0])).value, 0)
  {
    if value.Some? && value.value != "" {
      TrimSplit(value.value);
    }
  }

  /** Month differences add up along a chain of points. */
  lemma MonthDiffChain(a: Point, b: Point, c: Point)
    ensures MonthDiff(a, b) + MonthDiff(b, c) == MonthDiff(a, c)
  {
  }

  /** Swapping the two points negates the difference. */
  lemma MonthDiffAntisymmetric(a: Point, b: Point)
    ensures MonthDiff(a, b) == -MonthDiff(b, a)
  {
  }

  /** A point not before another is not in an earlier month. */
  lemma NotBeforeMonthDiff(a: Point, b: Point)
    requires !Before(b, a)
    ensures MonthDiff(a, b) >= 0
  {
  }

  /** Two month tokens that agree on their first three letters, up to ASCII case, parse alike. */
  lemma ParseDependsOnMonthKey(v: string, w: string)
    requires |Words(v)| >= 2 && |Words(w)| >= 2
    requires MonthKey(Words(v)[0]) == MonthKey(Words(w)[0])
    requires Words(v)[1] == Words(w)[1]
    ensures ParseMonthYear(Some(v)) == ParseMonthYear(Some(w))
  {
    ParseMonthYearTokens(Some(v));
    ParseMonthYearTokens(Some(w));
  }

  /** Every year and month round-trips through its "Mon Year" spelling. */
  lemma ParseFormatted(year: int, month: Month)
    ensures ParseMonthYear(Some(MonthNames[month] + " " + FormatInteger(year))) == Some(Point(year, month, 0))
  {
    var name, digits := MonthNames[month], FormatInteger(year);
    MonthNameFacts(month);
    WordsJoin(name, digits);
    FormattedIsOneWord(year);
    assert Words(name + " " + digits) == [name, digits];
    ParseFormatInteger(year);
    ParseMonthYearTokens(Some(name + " " + digits));
  }

  /** Each month name is three whitespace-free letters that are their own lookup key. */
  lemma MonthNameFacts(month: Month)
    ensures |MonthNames[month]| == 3
    ensures forall i :: 0 <= i < 3 ==> !IsSpace(MonthNames[month][i])
    ensures MonthKey(MonthNames[month]) == MonthNames[month]
    ensures MonthIndex(MonthNames[month]) == Some(month)
  {
    var name := MonthNames[month];
    assert forall i :: 0 <= i < 3 ==> 'a' <= name[i] <= 'z';
    assert Prefix(name, 3) == name;
    assert Lower(name) == name;
  }

  /** A token, a space and a rest: the token comes first, then the rest's tokens. */
  lemma WordsJoin(a: string, b: string)
    requires a != [] && forall i :: 0 <= i < |a| ==> !IsSpace(a[i])
    ensures Words(a + " " + b) == [a] + Words(b)
  {
    var v := a + " " + b;
    assert forall i :: 0 <= i < |a| ==> v[i] == a[i];
    assert v[|a|] == ' ';
    var n := WordLength(v);
    assert n == |a|;
    assert v[..n] == a;
    assert v[n..] == " " + b;
    assert (" " + b)[1..] == b;
  }

  /** The spelling of an integer is a single token. */
  lemma FormattedIsOneWord(n: int)
    ensures Words(FormatInteger(n)) == [FormatInteger(n)]
  {
    var s := FormatInteger(n);
    assert forall i :: 0 <= i < |s| ==> !IsSpace(s[i]) by {
      if n < 0 {
        var d := Decimal(-n);
        assert s == "-" + d;
        assert forall i :: 0 <= i < |d| ==> IsDigit(d[i]) && s[i + 1] == d[i];
      }
    }
    var k := WordLength(s);
    assert k == |s|;
    assert s[..k] == s && s[k..] == [];
  }
}
