/**
  The recommender: the two weakest elements of a tally select a pool of lucky
  digits, and each suggestion is four digits drawn from that pool.

  The tally arrives as its (element, count) items in insertion order. The
  pseudo-random generator is an oracle: `draws` holds the pool positions it
  picks, four per suggestion, in the order they are consumed.
 */
module Recommend {
  import opened Tables

  /** A suggested number with its explanation: the weak elements and the eligible digits. */
  datatype Recommendation = Recommendation(number: string, weak: seq<Element>, eligible: seq<int>)

  // ---- Stable sort of the items by count ----

  /**
    An item is sorted as the entry (count, position). A stable sort by count
    puts entry x before entry y exactly when x is smaller in this order.
   */
  predicate Before(x: (int, int), y: (int, int)) {
    x.0 < y.0 || (x.0 == y.0 && x.1 < y.1)
  }

  predicate Sorted(s: seq<(int, int)>) {
    forall a, b :: 0 <= a < b < |s| ==> Before(s[a], s[b])
  }

  /** Positions strictly increase along s: the order the items were inserted in. */
  predicate InInsertionOrder(s: seq<(int, int)>) {
    forall a, b :: 0 <= a < b < |s| ==> s[a].1 < s[b].1
  }

  /** Item i sorts before item j. */
  predicate Precedes(items: seq<(Element, int)>, i: int, j: int)
    requires 0 <= i < |items| && 0 <= j < |items|
  {
    Before((items[i].1, i), (items[j].1, j))
  }

  /** The items as (count, position) entries, in insertion order. */
  function Entries(items: seq<(Element, int)>): (es: seq<(int, int)>)
    ensures |es| == |items|
    ensures forall i :: 0 <= i < |es| ==> es[i] == (items[i].1, i)
  {
    seq(|items|, i requires 0 <= i < |items| => (items[i].1, i))
  }

  lemma EntriesMembers(items: seq<(Element, int)>, x: (int, int))
    ensures x in multiset(Entries(items)) <==> 0 <= x.1 < |items| && x.0 == items[x.1].1
  {
    var es := Entries(items);
    if 0 <= x.1 < |items| && x.0 == items[x.1].1 {
      assert es[x.1] == x;
    }
  }

  /** Inserts x in front of the first entry whose count is not smaller. */
  function InsertByCount(x: (int, int), s: seq<(int, int)>): (r: seq<(int, int)>)
    ensures |r| == |s| + 1
    ensures multiset(r) == multiset(s) + multiset{x}
  {
    if s == [] then [x]
    else if x.0 <= s[0].0 then [x] + s
    else
      assert s == [s[0]] + s[1..];
      [s[0]] + InsertByCount(x, s[1..])
  }

  /** Insertion sort by count, inserting the entries from last to first. */
  function SortByCount(s: seq<(int, int)>): (r: seq<(int, int)>)
    ensures |r| == |s|
    ensures multiset(r) == multiset(s)
  {
    if s == [] then []
    else
      assert s == [s[0]] + s[1..];
      InsertByCount(s[0], SortByCount(s[1..]))
  }

  lemma {:induction false} InsertKeepsSorted(x: (int, int), s: seq<(int, int)>)
    requires Sorted(s)
    requires forall m :: 0 <= m < |s| ==> x.1 < s[m].1
    ensures Sorted(InsertByCount(x, s))
  {
    if s == [] {
    } else if x.0 <= s[0].0 {
      var r := InsertByCount(x, s);
      forall b | 0 < b < |r| ensures Before(r[0], r[b]) {
        if b > 1 {
          assert Before(s[0], s[b - 1]);
        }
      }
    } else {
      var tail := s[1..];
      var rest := InsertByCount(x, tail);
      InsertKeepsSorted(x, tail);
      var r := [s[0]] + rest;
      forall m | 0 <= m < |rest| ensures Before(s[0], rest[m]) {
        assert rest[m] in multiset(rest);
        if rest[m] != x {
          assert rest[m] in multiset(tail);
          var b :| 0 <= b < |tail| && tail[b] == rest[m];
          assert Before(s[0], s[b + 1]);
        }
      }
      forall a, b | 0 <= a < b < |r| ensures Before(r[a], r[b]) {
        if a > 0 {
          assert Before(rest[a - 1], rest[b - 1]);
        } else {
          assert Before(s[0], rest[b - 1]);
        }
      }
    }
  }

  /** The sort is stable: entries in insertion order come out ordered by count, ties by position. */
  lemma {:induction false} SortByCountSorted(s: seq<(int, int)>)
    requires InInsertionOrder(s)
    ensures Sorted(SortByCount(s))
  {
    if s != [] {
      var tail := SortByCount(s[1..]);
      SortByCountSorted(s[1..]);
      forall m | 0 <= m < |tail| ensures s[0].1 < tail[m].1 {
        assert tail[m] in multiset(tail);
        assert tail[m] in multiset(s[1..]);
        var b :| 0 <= b < |s[1..]| && s[1..][b] == tail[m];
        assert s[b + 1] == tail[m];
      }
      InsertKeepsSorted(s[0], tail);
    }
  }

  // ---- Weak elements and the digit pool ----

  /** Positions of the (at most) two items first in sorted order. */
  function WeakPositions(items: seq<(Element, int)>): (w: seq<int>)
    ensures |w| == if |items| < 2 then |items| else 2
    ensures forall m :: 0 <= m < |w| ==> 0 <= w[m] < |items|
  {
    var r := SortByCount(Entries(items));
    var n := if |r| < 2 then |r| else 2;
    assert forall m :: 0 <= m < n ==> 0 <= r[m].1 < |items| by {
      forall m | 0 <= m < n ensures 0 <= r[m].1 < |items| {
        assert r[m] in multiset(r);
        EntriesMembers(items, r[m]);
      }
    }
    seq(n, m requires 0 <= m < n => r[m].1)
  }

  /** The elements of the weak items: each one is a key of the tally. */
  function WeakElements(items: seq<(Element, int)>): (weak: seq<Element>)
    ensures |weak| == |WeakPositions(items)|
    ensures forall m :: 0 <= m < |weak| ==> exists j :: 0 <= j < |items| && items[j].0 == weak[m]
  {
    var w := WeakPositions(items);
    seq(|w|, m requires 0 <= m < |w| => items[w[m]].0)
  }

  /** Each sorted entry is the (count, position) of an item. */
  lemma SortedEntry(items: seq<(Element, int)>, m: int)
    requires 0 <= m < |items|
    ensures var r := SortByCount(Entries(items));
      0 <= r[m].1 < |items| && r[m].0 == items[r[m].1].1
  {
    var r := SortByCount(Entries(items));
    assert r[m] in multiset(r);
    EntriesMembers(items, r[m]);
  }

  /** Where the entry of item j ends up in sorted order. */
  lemma SortedPlace(items: seq<(Element, int)>, j: int) returns (m: int)
    requires 0 <= j < |items|
    ensures 0 <= m < |items| && SortByCount(Entries(items))[m] == (items[j].1, j)
  {
    var r := SortByCount(Entries(items));
    EntriesMembers(items, (items[j].1, j));
    assert (items[j].1, j) in multiset(r);
    m :| 0 <= m < |r| && r[m] == (items[j].1, j);
  }

  /** The weak positions are the positions of the first sorted entries. */
  lemma WeakPositionAt(items: seq<(Element, int)>, a: int)
    requires 0 <= a < |WeakPositions(items)|
    ensures WeakPositions(items)[a] == SortByCount(Entries(items))[a].1
  {
  }

  /** The weak positions come first in sorted order: before each other, and before every other position. */
  lemma WeakestFirst(items: seq<(Element, int)>)
    ensures var w := WeakPositions(items);
      forall a, b :: 0 <= a < b < |w| ==> Precedes(items, w[a], w[b])
    ensures var w := WeakPositions(items);
      forall a, j :: 0 <= a < |w| && 0 <= j < |items| && j !in w ==> Precedes(items, w[a], j)
  {
    var w := WeakPositions(items);
    forall a, b | 0 <= a < b < |w| ensures Precedes(items, w[a], w[b]) {
      SortedBefore(items, a, b);
      WeakPositionAt(items, a);
      WeakPositionAt(items, b);
    }
    forall a, j | 0 <= a < |w| && 0 <= j < |items| && j !in w ensures Precedes(items, w[a], j) {
      var m := SortedPlace(items, j);
      if m < |w| {
        WeakPositionAt(items, m);
      }
      SortedBefore(items, a, m);
      WeakPositionAt(items, a);
    }
  }

  /** An earlier sorted entry belongs to an item that precedes the later one's. */
  lemma SortedBefore(items: seq<(Element, int)>, a: int, b: int)
    requires 0 <= a < b < |items|
    ensures var r := SortByCount(Entries(items));
      0 <= r[a].1 < |items| && 0 <= r[b].1 < |items| && Precedes(items, r[a].1, r[b].1)
  {
    var r := SortByCount(Entries(items));
    SortByCountSorted(Entries(items));
    SortedEntry(items, a);
    SortedEntry(items, b);
    assert Before(r[a], r[b]);
  }

  predicate DecimalDigits(ds: seq<int>) {
    forall k :: 0 <= k < |ds| ==> 0 <= ds[k] <= 9
  }

  /** The digits of the elements, list after list. */
  function DigitsOf(es: seq<Element>): (ds: seq<int>)
    ensures |ds| >= |es|
    ensures DecimalDigits(ds)
  {
    if es == [] then [] else ElementDigits(es[0]) + DigitsOf(es[1..])
  }

  /** The pool: the weak elements' digits, or every element's digits if that is empty. */
  function PoolOf(weak: seq<Element>): (pool: seq<int>)
    ensures |pool| >= 1
    ensures DecimalDigits(pool)
  {
    var ds := DigitsOf(weak);
    if ds == [] then DigitsOf(ELEMENTS) else ds
  }

  /** The pool of a tally: never empty, and only decimal digits. */
  function Pool(items: seq<(Element, int)>): (pool: seq<int>)
    ensures |pool| >= 1 && DecimalDigits(pool)
  {
    PoolOf(WeakElements(items))
  }

  /** The fallback is taken only for an empty tally; otherwise the pool is the weak elements' digits. */
  lemma PoolOfWeak(items: seq<(Element, int)>)
    ensures DigitsOf(WeakElements(items)) == [] <==> |items| == 0
    ensures |items| == 0 ==> Pool(items) == [3, 4, 9, 2, 5, 8, 6, 7, 0, 1]
    ensures |items| >= 2 ==>
      |WeakElements(items)| == 2 &&
      Pool(items) == ElementDigits(WeakElements(items)[0]) + ElementDigits(WeakElements(items)[1])
  {
    var weak := WeakElements(items);
    if |items| >= 2 {
      assert weak[1..][1..] == [];
    }
  }

  /** The digits 0..9 from d upwards that occur in the pool, in increasing order. */
  function DistinctFrom(pool: seq<int>, d: int): (r: seq<int>)
    requires 0 <= d <= 10
    ensures |r| <= 10 - d && DecimalDigits(r)
    decreases 10 - d
  {
    if d == 10 then [] else (if d in pool then [d] else []) + DistinctFrom(pool, d + 1)
  }

  lemma {:induction false} DistinctFromMembers(pool: seq<int>, d: int, x: int)
    requires 0 <= d <= 10
    ensures x in DistinctFrom(pool, d) <==> x in pool && d <= x <= 9
    decreases 10 - d
  {
    if d < 10 {
      DistinctFromMembers(pool, d + 1, x);
    }
  }

  lemma {:induction false} DistinctFromIncreasing(pool: seq<int>, d: int)
    requires 0 <= d <= 10
    ensures forall a, b :: 0 <= a < b < |DistinctFrom(pool, d)| ==> DistinctFrom(pool, d)[a] < DistinctFrom(pool, d)[b]
    decreases 10 - d
  {
    if d < 10 {
      var rest := DistinctFrom(pool, d + 1);
      DistinctFromIncreasing(pool, d + 1);
      forall m | 0 <= m < |rest| ensures d < rest[m] {
        DistinctFromMembers(pool, d + 1, rest[m]);
      }
    }
  }

  /** The pool's digits, sorted, each once. */
  function EligibleDigits(pool: seq<int>): (ds: seq<int>)
    ensures |ds| <= 10 && DecimalDigits(ds)
  {
    DistinctFrom(pool, 0)
  }

  /** For a pool of decimal digits the eligible digits are exactly the pool's digits, strictly increasing. */
  lemma EligibleDigitsSortedSet(pool: seq<int>)
    requires DecimalDigits(pool)
    ensures forall x :: x in EligibleDigits(pool) <==> x in pool
    ensures forall a, b :: 0 <= a < b < |EligibleDigits(pool)| ==> EligibleDigits(pool)[a] < EligibleDigits(pool)[b]
  {
    forall x {
      DistinctFromMembers(pool, 0, x);
    }
    DistinctFromIncreasing(pool, 0);
  }

  // ---- Emitting the suggestions ----

  /** The decimal character of a digit. */
  function DigitChar(d: int): char
    requires 0 <= d <= 9
  {
    (48 + d) as char
  }

  /** Every character is a decimal digit. */
  predicate DecimalString(s: string) {
    forall j :: 0 <= j < |s| ==> '0' <= s[j] <= '9'
  }

  /** Every draw of the oracle is a position in the pool. */
  predicate DrawsInPool(pool: seq<int>, draws: seq<int>) {
    forall k :: 0 <= k < |draws| ==> 0 <= draws[k] < |pool|
  }

  /** The i-th suggestion: the pool digits at the draws 4i, 4i+1, 4i+2, 4i+3, as a string. */
  function DrawNumber(pool: seq<int>, draws: seq<int>, i: nat): (number: string)
    requires 4 * i + 4 <= |draws| && DrawsInPool(pool, draws)
    requires DecimalDigits(pool)
    ensures |number| == 4 && DecimalString(number)
  {
    [DigitChar(pool[draws[4 * i]]), DigitChar(pool[draws[4 * i + 1]]),
     DigitChar(pool[draws[4 * i + 2]]), DigitChar(pool[draws[4 * i + 3]])]
  }

  /** A drawn number is four decimal characters, each the character of some pool digit. */
  lemma DrawNumberShape(pool: seq<int>, draws: seq<int>, i: nat)
    requires 4 * i + 4 <= |draws| && DrawsInPool(pool, draws)
    requires DecimalDigits(pool)
    ensures |DrawNumber(pool, draws, i)| == 4
    ensures forall j :: 0 <= j < 4 ==>
      '0' <= DrawNumber(pool, draws, i)[j] <= '9' &&
      exists k :: 0 <= k < |pool| && DrawNumber(pool, draws, i)[j] == DigitChar(pool[k])
  {
    var number := DrawNumber(pool, draws, i);
    forall j | 0 <= j < 4
      ensures exists k :: 0 <= k < |pool| && number[j] == DigitChar(pool[k])
    {
      assert number[j] == DigitChar(pool[draws[4 * i + j]]);
    }
  }

  /** The number of suggestions: a negative request yields none. */
  function Rounds(sets: int): nat {
    if sets < 0 then 0 else sets
  }

  /** The first n suggestions, each with the same explanation. */
  function Suggestions(pool: seq<int>, draws: seq<int>, weak: seq<Element>, eligible: seq<int>, n: nat)
    : (recs: seq<Recommendation>)
    requires 4 * n <= |draws| && DrawsInPool(pool, draws) && DecimalDigits(pool)
    ensures |recs| == n
    ensures forall i :: 0 <= i < n ==> recs[i] == Recommendation(DrawNumber(pool, draws, i), weak, eligible)
  {
    if n == 0 then []
    else Suggestions(pool, draws, weak, eligible, n - 1) + [Recommendation(DrawNumber(pool, draws, n - 1), weak, eligible)]
  }

  method RecommendNumbers(items: seq<(Element, int)>, sets: int, draws: seq<int>)
    returns (recs: seq<Recommendation>)
    requires |draws| == 4 * Rounds(sets)
    requires DrawsInPool(Pool(items), draws)
    ensures |recs| == Rounds(sets)
    ensures forall i :: 0 <= i < |recs| ==>
      recs[i].weak == WeakElements(items) && recs[i].eligible == EligibleDigits(Pool(items))
    ensures forall i :: 0 <= i < |recs| ==>
      recs[i].number == DrawNumber(Pool(items), draws, i)
  {
    var weak := WeakElements(items);
    var pool := PoolOf(weak);
    var eligible := EligibleDigits(pool);
    var rounds := Rounds(sets);
    recs := [];
    var i := 0;
    while i < rounds
      invariant 0 <= i <= rounds
      invariant recs == Suggestions(pool, draws, weak, eligible, i)
    {
      var number := DrawNumber(pool, draws, i);
      recs := recs + [Recommendation(number, weak, eligible)];
      i := i + 1;
    }
  }

  // ---- The tally of a reading ----

  /** A full tally's items in insertion order: wood, fire, earth, metal, water. */
  function ItemsOf(counts: map<Element, int>): (items: seq<(Element, int)>)
    requires counts.Keys == set e | e in ELEMENTS
    ensures |items| == 5
    ensures forall i :: 0 <= i < |items| ==> Rank(items[i].0) == i && items[i].1 == counts[items[i].0]
  {
    seq(5, i requires 0 <= i < 5 => (ELEMENTS[i], counts[ELEMENTS[i]]))
  }

  /** For a full tally the weak elements are the two smallest counts, ties going to the earlier element. */
  lemma WeakestOfTally(counts: map<Element, int>)
    requires counts.Keys == set e | e in ELEMENTS
    ensures |WeakElements(ItemsOf(counts))| == 2
    ensures var weak := WeakElements(ItemsOf(counts));
      weak[0] != weak[1]
      && (counts[weak[0]] < counts[weak[1]]
          || (counts[weak[0]] == counts[weak[1]] && Rank(weak[0]) < Rank(weak[1])))
      && forall e :: e in counts && e !in weak ==>
        counts[weak[1]] < counts[e] || (counts[weak[1]] == counts[e] && Rank(weak[1]) < Rank(e))
    ensures Pool(ItemsOf(counts)) ==
      ElementDigits(WeakElements(ItemsOf(counts))[0]) + ElementDigits(WeakElements(ItemsOf(counts))[1])
  {
    var items := ItemsOf(counts);
    var w := WeakPositions(items);
    var weak := WeakElements(items);
    WeakestFirst(items);
    PoolOfWeak(items);
    forall m | 0 <= m < 2 ensures weak[m] == ELEMENTS[w[m]] && Rank(weak[m]) == w[m] {
      assert weak[m] == items[w[m]].0;
    }
    assert Precedes(items, w[0], w[1]);
    forall e | e in counts && e !in weak
      ensures counts[weak[1]] < counts[e] || (counts[weak[1]] == counts[e] && Rank(weak[1]) < Rank(e))
    {
      var j := Rank(e);
      assert j != w[0] && j != w[1];
      assert |w| == 2 && j !in w;
      assert Precedes(items, w[1], j);
      assert items[j].1 == counts[e] && items[w[1]].1 == counts[weak[1]];
    }
  }
}
