/** The listing page's sort step: a stable sort on price or rating, reversal
    for `newest`, and no reordering for anything else
    (src/pages/Products.tsx:45-59). */
module Sorting {
  import opened Types
  import opened Seqs

  /** The three comparator-based orders. `Array.prototype.sort` is stable, so
      each is a stable sort ascending in `Key`. */
  datatype Ordering = PriceAscending | PriceDescending | RatingDescending

  /** The comparator `(a, b) => key(a) - key(b)` as a sort key. */
  function Key(o: Ordering, p: Product): real
  {
    match o
    case PriceAscending => p.price as real
    case PriceDescending => -(p.price as real)
    case RatingDescending => -p.rating
  }

  ghost predicate Sorted(o: Ordering, s: seq<Product>)
  {
    forall i, j :: 0 <= i < j < |s| ==> Key(o, s[i]) <= Key(o, s[j])
  }

  /** Inserts `x` before the first element whose key is not smaller, so that
      `x` precedes everything it ties with. */
  function Insert(o: Ordering, x: Product, s: seq<Product>): (r: seq<Product>)
    ensures multiset(r) == multiset(s) + multiset{x}
    decreases |s|
  {
    if |s| == 0 then [x]
    else if Key(o, x) <= Key(o, s[0]) then [x] + s
    else
      assert s == [s[0]] + s[1..];
      [s[0]] + Insert(o, x, s[1..])
  }

  /** A sorted list stays sorted under a head no greater than any element. */
  lemma SortedCons(o: Ordering, h: Product, t: seq<Product>)
    requires Sorted(o, t)
    requires forall y :: y in t ==> Key(o, h) <= Key(o, y)
    ensures Sorted(o, [h] + t)
  {
    var r := [h] + t;
    forall i, j | 0 <= i < j < |r| ensures Key(o, r[i]) <= Key(o, r[j]) {
      if i == 0 {
        assert r[j] == t[j - 1];
        assert r[j] in t;
      } else {
        assert r[i] == t[i - 1] && r[j] == t[j - 1];
      }
    }
  }

  lemma {:induction false} InsertSorted(o: Ordering, x: Product, s: seq<Product>)
    requires Sorted(o, s)
    ensures Sorted(o, Insert(o, x, s))
    decreases |s|
  {
    if |s| == 0 {
    } else if Key(o, x) <= Key(o, s[0]) {
      forall y | y in s ensures Key(o, x) <= Key(o, y) {
        var j :| 0 <= j < |s| && s[j] == y;
        if j > 0 {
          assert Key(o, s[0]) <= Key(o, s[j]);
        }
      }
      SortedCons(o, x, s);
    } else {
      var t := Insert(o, x, s[1..]);
      InsertSorted(o, x, s[1..]);
      forall y | y in t ensures Key(o, s[0]) <= Key(o, y) {
        assert y in multiset(t);
        if y != x {
          assert y in s[1..];
          var j :| 0 <= j < |s[1..]| && s[1..][j] == y;
          assert s[j + 1] == y;
        }
      }
      SortedCons(o, s[0], t);
    }
  }

  /** Stable insertion sort ascending in `Key(o, _)`. */
  function SortBy(o: Ordering, s: seq<Product>): (r: seq<Product>)
    ensures multiset(r) == multiset(s)
    ensures Sorted(o, r)
    decreases |s|
  {
    if |s| == 0 then []
    else
      assert s == [s[0]] + s[1..];
      InsertSorted(o, s[0], SortBy(o, s[1..]));
      Insert(o, s[0], SortBy(o, s[1..]))
  }

  /** The products of `s` whose key is `k`, in the order of `s`. */
  function Ties(o: Ordering, s: seq<Product>, k: real): (r: seq<Product>)
    ensures forall p :: p in r ==> p in s && Key(o, p) == k
    ensures IsSubsequence(r, s)
    decreases |s|
  {
    if |s| == 0 then []
    else if Key(o, s[0]) == k then [s[0]] + Ties(o, s[1..], k)
    else Ties(o, s[1..], k)
  }

  /** `x` goes in front of the products it ties with. */
  lemma {:induction false} InsertTies(o: Ordering, x: Product, s: seq<Product>, k: real)
    requires Sorted(o, s)
    ensures Ties(o, Insert(o, x, s), k) ==
            (if Key(o, x) == k then [x] + Ties(o, s, k) else Ties(o, s, k))
    decreases |s|
  {
    if |s| == 0 {
    } else if Key(o, x) <= Key(o, s[0]) {
      var r := [x] + s;
      assert r[0] == x && r[1..] == s;
    } else {
      var t := Insert(o, x, s[1..]);
      var r := [s[0]] + t;
      assert r[0] == s[0] && r[1..] == t;
      InsertTies(o, x, s[1..], k);
      if Key(o, x) == k {
        assert Key(o, s[0]) != k;
      }
    }
  }

  /** Stability: among products with equal keys, the sorted list keeps the
      input order. */
  lemma {:induction false} SortStable(o: Ordering, s: seq<Product>, k: real)
    ensures Ties(o, SortBy(o, s), k) == Ties(o, s, k)
    decreases |s|
  {
    if |s| > 0 {
      SortStable(o, s[1..], k);
      InsertTies(o, s[0], SortBy(o, s[1..]), k);
    }
  }

  /** The `switch (sortBy)` of the listing page; any other key, including the
      default `featured`, leaves the order as it is. */
  function Arrange(sortBy: string, s: seq<Product>): (r: seq<Product>)
    ensures multiset(r) == multiset(s)
  {
    if sortBy == "price-low" then SortBy(PriceAscending, s)
    else if sortBy == "price-high" then SortBy(PriceDescending, s)
    else if sortBy == "rating" then SortBy(RatingDescending, s)
    else if sortBy == "newest" then (ReversePermutes(s); Reverse(s))
    else s
  }

  /** `newest` reverses the list. */
  lemma ArrangeNewest(s: seq<Product>)
    ensures Arrange("newest", s) == Reverse(s)
  {
  }

  /** Names of the sort keys the page recognises. */
  predicate KnownSortKey(sortBy: string)
  {
    sortBy in {"price-low", "price-high", "rating", "newest"}
  }
}
