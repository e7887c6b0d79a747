/**
 * JavaScript's `Array.prototype.sort` with a numeric comparator, which is
 * stable. Every sort in the timeline orders by a key; a key is a `Rank`, compared
 * lexicographically, and an element goes before another exactly when the
 * comparator is negative, that is, when its rank is smaller.
 */
module Sorting {

  /** A sort key: `major` first, then `minor`. */
  datatype Rank = Rank(major: int, minor: int)

  predicate RankLess(a: Rank, b: Rank) {
    a.major < b.major || (a.major == b.major && a.minor < b.minor)
  }

  /** No element is followed by one of strictly smaller rank. */
  ghost predicate SortedBy<T>(s: seq<T>, key: T -> Rank) {
    forall i, j :: 0 <= i < j < |s| ==> !RankLess(key(s[j]), key(s[i]))
  }

  /** The elements of `s` whose rank is `k`, in their order in `s`. */
  function Tied<T>(s: seq<T>, key: T -> Rank, k: Rank): (r: seq<T>)
    ensures |r| <= |s|
    ensures forall i :: 0 <= i < |r| ==> key(r[i]) == k
  {
    if s == [] then []
    else
      (if key(s[0]) == k then [s[0]] else []) + Tied(s[1..], key, k)
  }

  /** The elements of one rank are drawn from `s`, no more often than they occur in it. */
  lemma {:induction false} TiedSubset<T>(s: seq<T>, key: T -> Rank, k: Rank)
    ensures multiset(Tied(s, key, k)) <= multiset(s)
  {
    if s != [] {
      TiedSubset(s[1..], key, k);
      assert s == [s[0]] + s[1..];
    }
  }

  /** Inserts `x` after every element of smaller rank and before the rest. */
  function Insert<T>(x: T, s: seq<T>, key: T -> Rank): (r: seq<T>)
    ensures |r| == |s| + 1
    ensures multiset(r) == multiset(s) + multiset{x}
  {
    if s == [] then [x]
    else if RankLess(key(s[0]), key(x)) then
      assert s == [s[0]] + s[1..];
      [s[0]] + Insert(x, s[1..], key)
    else [x] + s
  }

  /** The stable sort: a permutation of `s`, ordered by rank, ties in the order of `s` (see the lemmas). */
  function StableSort<T>(s: seq<T>, key: T -> Rank): (r: seq<T>)
    ensures |r| == |s|
    ensures multiset(r) == multiset(s)
  {
    if s == [] then []
    else
      assert s == [s[0]] + s[1..];
      Insert(s[0], StableSort(s[1..], key), key)
  }

  /** No two elements of `s` share a value of `f`. */
  ghost predicate DistinctBy<T, K>(s: seq<T>, f: T -> K) {
    forall i, j :: 0 <= i < |s| && 0 <= j < |s| && f(s[i]) == f(s[j]) ==> i == j
  }

  // ---------------------------------------------------------------------------
  // Lemmas
  // ---------------------------------------------------------------------------

  lemma {:induction false} InsertSorted<T>(x: T, s: seq<T>, key: T -> Rank)
    requires SortedBy(s, key)
    ensures SortedBy(Insert(x, s, key), key)
  {
    if s != [] && RankLess(key(s[0]), key(x)) {
      InsertSorted(x, s[1..], key);
      var r := Insert(x, s, key);
      assert r == [s[0]] + Insert(x, s[1..], key);
      forall i, j | 0 <= i < j < |r| ensures !RankLess(key(r[j]), key(r[i])) {
        if i == 0 {
          assert r[j] in multiset(Insert(x, s[1..], key));
          assert r[j] == x || r[j] in s[1..];
        }
      }
    }
  }

  /** The stable sort orders by rank. */
  lemma {:induction false} StableSortSorted<T>(s: seq<T>, key: T -> Rank)
    ensures SortedBy(StableSort(s, key), key)
  {
    if s != [] {
      StableSortSorted(s[1..], key);
      InsertSorted(s[0], StableSort(s[1..], key), key);
    }
  }

  lemma {:induction false} TiedInsert<T>(x: T, s: seq<T>, key: T -> Rank, k: Rank)
    ensures Tied(Insert(x, s, key), key, k) == (if key(x) == k then [x] else []) + Tied(s, key, k)
  {
    if s == [] {
    } else if RankLess(key(s[0]), key(x)) {
      var r := Insert(x, s, key);
      assert r[0] == s[0] && r[1..] == Insert(x, s[1..], key);
      TiedInsert(x, s[1..], key, k);
    } else {
      var r := [x] + s;
      assert r[0] == x && r[1..] == s;
    }
  }

  /**
   * The sort is stable: the elements of any one rank come out in the order they
   * went in.
   */
  lemma {:induction false} StableSortStable<T>(s: seq<T>, key: T -> Rank, k: Rank)
    ensures Tied(StableSort(s, key), key, k) == Tied(s, key, k)
  {
    if s != [] {
      StableSortStable(s[1..], key, k);
      TiedInsert(s[0], StableSort(s[1..], key), key, k);
    }
  }

  /** A permutation keeps the values of `f` distinct. */
  lemma PermutationDistinct<T, K>(a: seq<T>, b: seq<T>, f: T -> K)
    requires multiset(a) == multiset(b)
    requires DistinctBy(a, f)
    ensures DistinctBy(b, f)
  {
    forall i, j | 0 <= i < |b| && 0 <= j < |b| && f(b[i]) == f(b[j]) ensures i == j {
      assert b[i] in multiset(a) && b[j] in multiset(a);
      var p :| 0 <= p < |a| && a[p] == b[i];
      var q :| 0 <= q < |a| && a[q] == b[j];
      assert p == q;
      TwoPositions(b, i, j);
      OnePosition(a, p, f);
    }
  }

  /** An element at two positions occurs at least twice. */
  lemma TwoPositions<T>(s: seq<T>, i: int, j: int)
    requires 0 <= i < |s| && 0 <= j < |s|
    ensures i != j && s[i] == s[j] ==> multiset(s)[s[i]] >= 2
  {
    if i != j {
      var lo, hi := if i < j then i else j, if i < j then j else i;
      assert s == s[..lo] + [s[lo]] + s[lo + 1..hi] + [s[hi]] + s[hi + 1..];
    }
  }

  /** In a sequence whose elements have distinct `f`, each element occurs once. */
  lemma OnePosition<T, K>(s: seq<T>, p: int, f: T -> K)
    requires DistinctBy(s, f) && 0 <= p < |s|
    ensures multiset(s)[s[p]] == 1
  {
    var front, back := s[..p], s[p + 1..];
    assert s == front + [s[p]] + back;
    forall q | 0 <= q < |front| ensures front[q] != s[p] {
      assert front[q] == s[q];
    }
    forall q | 0 <= q < |back| ensures back[q] != s[p] {
      assert back[q] == s[p + 1 + q];
    }
  }
}
