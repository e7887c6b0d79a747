/**
 * The string operations the timeline relies on, with JavaScript's meaning:
 * the `\s` character class, `trim`, `split(/\s+/)`, `slice`, ASCII case mapping
 * and the decimal integer tokens `Number(...)` accepts.
 */
module Text {

  import opened Wrappers

  /** JavaScript's `\s` (also what `trim` removes): the WhiteSpace and LineTerminator characters. */
  predicate IsSpace(c: char) {
    || c == ' ' || c == '\t' || c == '\n' || c == '\r' || c == '\U{B}' || c == '\U{C}'
    || c == '\U{A0}' || c == '\U{1680}' || ('\U{2000}' <= c <= '\U{200A}')
    || c == '\U{2028}' || c == '\U{2029}' || c == '\U{202F}' || c == '\U{205F}'
    || c == '\U{3000}' || c == '\U{FEFF}'
  }

  /** Length of the longest prefix of `s` that holds no whitespace. */
  function WordLength(s: string): (n: nat)
    ensures n <= |s|
    ensures forall i :: 0 <= i < n ==> !IsSpace(s[i])
    ensures n < |s| ==> IsSpace(s[n])
  {
    if s == [] || IsSpace(s[0]) then 0 else 1 + WordLength(s[1..])
  }

  /** Length of the longest prefix of `s` that is all whitespace. */
  function SpaceLength(s: string): (n: nat)
    ensures n <= |s|
    ensures forall i :: 0 <= i < n ==> IsSpace(s[i])
    ensures n < |s| ==> !IsSpace(s[n])
  {
    if s == [] || !IsSpace(s[0]) then 0 else 1 + SpaceLength(s[1..])
  }

  /** `s.trimStart()`: a suffix of `s`; everything dropped is whitespace. */
  function TrimStart(s: string): (r: string)
    ensures |r| <= |s| && r == s[|s| - |r|..]
    ensures r == [] || !IsSpace(r[0])
    ensures forall i :: 0 <= i < |s| - |r| ==> IsSpace(s[i])
  {
    s[SpaceLength(s)..]
  }

  /** `s.trimEnd()`: a prefix of `s`; everything dropped is whitespace. */
  function TrimEnd(s: string): (r: string)
    ensures |r| <= |s| && r == s[..|r|]
    ensures r == [] || !IsSpace(r[|r| - 1])
    ensures forall i :: |r| <= i < |s| ==> IsSpace(s[i])
  {
    if s != [] && IsSpace(s[|s| - 1]) then TrimEnd(s[..|s| - 1]) else s
  }

  /** `s.trim()`: neither end of the result is whitespace. */
  function Trim(s: string): (r: string)
    ensures r == [] || (!IsSpace(r[0]) && !IsSpace(r[|r| - 1]))
  {
    TrimEnd(TrimStart(s))
  }

  /**
   * `s.split(/\s+/)`: the pieces between maximal runs of whitespace. A leading
   * or a trailing run gives an empty first or last piece, and "" gives [""].
   */
  function Split(s: string): (pieces: seq<string>)
    ensures |pieces| >= 1
    decreases |s|
  {
    var n := WordLength(s);
    if n == |s| then [s]
    else [s[..n]] + Split(s[n + SpaceLength(s[n..])..])
  }

  /** The non-empty whitespace-free tokens of `s`, in order: the reference that `Split` is compared with. */
  function Words(s: string): (ws: seq<string>)
    ensures forall k :: 0 <= k < |ws| ==> ws[k] != []
    ensures forall k, i :: 0 <= k < |ws| && 0 <= i < |ws[k]| ==> !IsSpace(ws[k][i])
    decreases |s|
  {
    if s == [] then []
    else if IsSpace(s[0]) then Words(s[1..])
    else
      var n := WordLength(s);
      [s[..n]] + Words(s[n..])
  }

  /** `pieces.filter(Boolean)` on strings: the pieces that are not "". */
  function NonEmpty(pieces: seq<string>): (r: seq<string>)
    ensures |r| <= |pieces|
  {
    if pieces == [] then []
    else (if pieces[0] == [] then [] else [pieces[0]]) + NonEmpty(pieces[1..])
  }

  /** `s.slice(0, n)` */
  function Prefix(s: string, n: nat): (r: string)
    ensures |r| == if n < |s| then n else |s|
    ensures r == s[..|r|]
  {
    if n < |s| then s[..n] else s
  }

  function LowerChar(c: char): char {
    if 'A' <= c <= 'Z' then (c as int + 32) as char else c
  }

  function UpperChar(c: char): char {
    if 'a' <= c <= 'z' then (c as int - 32) as char else c
  }

  /** `s.toLowerCase()` restricted to ASCII letters. */
  function Lower(s: string): (r: string)
    ensures |r| == |s|
    ensures forall i :: 0 <= i < |s| ==> r[i] == LowerChar(s[i])
  {
    seq(|s|, i requires 0 <= i < |s| => LowerChar(s[i]))
  }

  /** `s.toUpperCase()` restricted to ASCII letters. */
  function Upper(s: string): (r: string)
    ensures |r| == |s|
    ensures forall i :: 0 <= i < |s| ==> r[i] == UpperChar(s[i])
  {
    seq(|s|, i requires 0 <= i < |s| => UpperChar(s[i]))
  }

  predicate IsDigit(c: char) {
    '0' <= c <= '9'
  }

  predicate AllDigits(s: string) {
    |s| > 0 && forall i :: 0 <= i < |s| ==> IsDigit(s[i])
  }

  function DigitValue(c: char): nat
    requires IsDigit(c)
  {
    c as int - '0' as int
  }

  /** The value of a string of decimal digits, most significant first. */
  function DigitsValue(s: string): nat
    requires forall i :: 0 <= i < |s| ==> IsDigit(s[i])
  {
    if s == [] then 0 else DigitsValue(s[..|s| - 1]) * 10 + DigitValue(s[|s| - 1])
  }

  /**
   * `Number(t)` for a whitespace-free token, restricted to decimal integers with
   * an optional sign; every other token counts as NaN.
   */
  function ParseInteger(t: string): Option<int> {
    if AllDigits(t) then Some(DigitsValue(t))
    else if |t| >= 2 && t[0] == '-' && AllDigits(t[1..]) then Some(0 - DigitsValue(t[1..]))
    else if |t| >= 2 && t[0] == '+' && AllDigits(t[1..]) then Some(DigitsValue(t[1..]))
    else None
  }

  /** The canonical decimal spelling of `n`. */
  function Decimal(n: nat): (s: string)
    ensures AllDigits(s)
  {
    if n < 10 then [('0' as int + n) as char]
    else Decimal(n / 10) + [('0' as int + n % 10) as char]
  }

  /** The canonical decimal spelling of an integer, with a leading '-' when negative. */
  function FormatInteger(n: int): string {
    if n < 0 then "-" + Decimal(-n) else Decimal(n)
  }

  // ---------------------------------------------------------------------------
  // Lemmas
  // ---------------------------------------------------------------------------

  /** Reading back a canonical decimal spelling gives the number. */
  lemma {:induction false} DecimalValue(n: nat)
    ensures DigitsValue(Decimal(n)) == n
  {
    if n >= 10 {
      var d := Decimal(n / 10);
      var s := d + [('0' as int + n % 10) as char];
      assert s[..|s| - 1] == d;
      DecimalValue(n / 10);
    }
  }

  /** `ParseInteger` reads back what `FormatInteger` writes. */
  lemma ParseFormatInteger(n: int)
    ensures ParseInteger(FormatInteger(n)) == Some(n)
  {
    if n < 0 {
      var t := "-" + Decimal(-n);
      assert t[1..] == Decimal(-n);
      assert !AllDigits(t) by { assert !IsDigit(t[0]); }
      DecimalValue(-n);
    } else {
      DecimalValue(n);
    }
  }

  /** Whitespace before the first token does not change the tokens. */
  lemma {:induction false} WordsSkipSpaces(s: string)
    ensures Words(s[SpaceLength(s)..]) == Words(s)
    decreases |s|
  {
    if s != [] && IsSpace(s[0]) {
      WordsSkipSpaces(s[1..]);
      assert s[1..][SpaceLength(s[1..])..] == s[SpaceLength(s)..];
    }
  }

  /** A string of whitespace has no tokens. */
  lemma {:induction false} WordsOfSpaces(w: string)
    requires forall i :: 0 <= i < |w| ==> IsSpace(w[i])
    ensures Words(w) == []
    decreases |w|
  {
    if w != [] {
      WordsOfSpaces(w[1..]);
    }
  }

  /** Appending whitespace does not change the first token's length. */
  lemma WordLengthAppendSpaces(r: string, w: string)
    requires forall i :: 0 <= i < |w| ==> IsSpace(w[i])
    ensures WordLength(r + w) == WordLength(r)
  {
    var n := WordLength(r);
    assert forall i :: 0 <= i < n ==> (r + w)[i] == r[i];
    assert n < |r + w| ==> IsSpace((r + w)[n]);
  }

  /** Whitespace after the last token does not change the tokens. */
  lemma {:induction false} WordsAppendSpaces(r: string, w: string)
    requires forall i :: 0 <= i < |w| ==> IsSpace(w[i])
    ensures Words(r + w) == Words(r)
    decreases |r|
  {
    if r == [] {
      assert r + w == w;
      WordsOfSpaces(w);
    } else if IsSpace(r[0]) {
      assert (r + w)[1..] == r[1..] + w;
      WordsAppendSpaces(r[1..], w);
    } else {
      WordLengthAppendSpaces(r, w);
      var n := WordLength(r);
      assert (r + w)[..n] == r[..n];
      assert (r + w)[n..] == r[n..] + w;
      WordsAppendSpaces(r[n..], w);
    }
  }

  /** What `trimEnd` drops is a run of whitespace after what it keeps. */
  lemma TrimEndRest(u: string)
    ensures u == TrimEnd(u) + u[|TrimEnd(u)|..]
    ensures forall i :: 0 <= i < |u[|TrimEnd(u)|..]| ==> IsSpace(u[|TrimEnd(u)|..][i])
  {
    var r := TrimEnd(u);
    var w := u[|r|..];
    assert forall i :: 0 <= i < |w| ==> w[i] == u[|r| + i];
  }

  /** Trimming does not change the tokens. */
  lemma WordsTrim(s: string)
    ensures Words(Trim(s)) == Words(s)
  {
    var u := TrimStart(s);
    WordsSkipSpaces(s);
    TrimEndRest(u);
    WordsAppendSpaces(TrimEnd(u), u[|TrimEnd(u)|..]);
  }

  /** `NonEmpty` one piece at a time. */
  lemma NonEmptyCons(x: string, t: seq<string>)
    ensures NonEmpty([x] + t) == (if x == [] then [] else [x]) + NonEmpty(t)
  {
    assert ([x] + t)[1..] == t;
  }

  /** `Split` past a first piece that is not the whole string. */
  lemma SplitCons(s: string)
    requires WordLength(s) < |s|
    ensures Split(s) == [s[..WordLength(s)]] + Split(s[WordLength(s)..][SpaceLength(s[WordLength(s)..])..])
  {
    var n := WordLength(s);
    var m := SpaceLength(s[n..]);
    var rest := s[n..][m..];
    assert rest == s[n + m..];
  }

  /** `Words` past a first token. */
  lemma WordsCons(s: string)
    requires s != [] && !IsSpace(s[0])
    ensures Words(s) == [s[..WordLength(s)]] + Words(s[WordLength(s)..])
  {
  }

  /** Dropping the empty pieces of `Split(s)` leaves exactly the tokens of `s`. */
  lemma {:induction false} SplitNonEmptyIsWords(s: string)
    ensures NonEmpty(Split(s)) == Words(s)
    decreases |s|
  {
    var n := WordLength(s);
    if n == |s| {
      if s != [] {
        assert s[..n] == s && s[n..] == [];
        WordsCons(s);
        NonEmptyCons(s, []);
      }
    } else {
      var u := s[n..];
      var rest := u[SpaceLength(u)..];
      SplitCons(s);
      NonEmptyCons(s[..n], Split(rest));
      SplitNonEmptyIsWords(rest);
      WordsSkipSpaces(u);
      if n > 0 {
        WordsCons(s);
      } else {
        assert u == s;
      }
    }
  }

  /** A string with no whitespace at either end splits into exactly its tokens. */
  lemma {:induction false} SplitTrimmedIsWords(t: string)
    requires t != [] && !IsSpace(t[0]) && !IsSpace(t[|t| - 1])
    ensures Split(t) == Words(t)
    decreases |t|
  {
    var n := WordLength(t);
    if n == |t| {
      assert t[..n] == t && t[n..] == [];
    } else {
      var u := t[n..];
      var m := SpaceLength(u);
      var rest := u[m..];
      SplitCons(t);
      WordsCons(t);
      WordsSkipSpaces(u);
      assert u[|u| - 1] == t[|t| - 1];
      assert m < |u|;
      assert rest[0] == u[m];
      assert rest[|rest| - 1] == t[|t| - 1];
      SplitTrimmedIsWords(rest);
    }
  }

  /** What `value.trim().split(/\s+/)` yields, in terms of the tokens of `value`. */
  lemma TrimSplit(value: string)
    ensures Words(value) == [] ==> Split(Trim(value)) == [""]
    ensures Words(value) != [] ==> Split(Trim(value)) == Words(value)
  {
    var t := Trim(value);
    WordsTrim(value);
    if t == [] {
      assert Words(t) == [];
    } else {
      SplitTrimmedIsWords(t);
    }
  }
}
