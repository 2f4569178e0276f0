/** The product listing page: the filter/sort effect that turns the catalog
    and the page's query into the visible list (src/pages/Products.tsx). */
module ProductsPage {
  import opened Types
  import opened Seqs
  import opened Catalog
  import opened Sorting

  /** Initial sort key and price slider position. */
  const DefaultSortKey: string := "featured"
  const DefaultLow: int := 0
  const DefaultHigh: int := 10000

  /** Everything the listing effect depends on: the `category` and `search`
      URL parameters (absent reads as `None`), the slider bounds and the sort
      key. */
  datatype Query = Query(
    category: Option<string>,
    search: Option<string>,
    low: int,
    high: int,
    sortBy: string)

  /** The page's state right after it mounts, for the given URL parameters. */
  function InitialQuery(category: Option<string>, search: Option<string>): (q: Query)
    ensures q.sortBy == "featured" && q.low == 0 && q.high == 10000
  {
    Query(category, search, DefaultLow, DefaultHigh, DefaultSortKey)
  }

  /** The conjunction of the three filters as one criterion. */
  function ListingFilter(q: Query): Filter
  {
    Listing(q.category, q.search, q.low, q.high)
  }

  /** Filtering stage: category, then search, then price, each a
      `filter` that keeps catalog order. */
  function Narrow(catalog: seq<Product>, q: Query): seq<Product>
  {
    var byCategory := if Given(q.category) then Keep(catalog, InCategory(q.category.value)) else catalog;
    var bySearch := if Given(q.search) then Keep(byCategory, Mentions(q.search.value)) else byCategory;
    Keep(bySearch, PricedWithin(q.low, q.high))
  }

  /** The list handed to `setFilteredProducts`: the sort switch only
      reorders what the filters let through. */
  function Visible(catalog: seq<Product>, q: Query): (r: seq<Product>)
    ensures multiset(r) == multiset(Narrow(catalog, q))
  {
    Arrange(q.sortBy, Narrow(catalog, q))
  }

  /** Whether the "No products found" panel is shown; an empty list is an
      ordinary outcome, not an error. */
  predicate NoProductsFound(catalog: seq<Product>, q: Query)
  {
    |Visible(catalog, q)| == 0
  }

  /** The empty panel appears exactly when no catalog product passes all the
      filters, whatever the sort key. */
  lemma NoProductsFoundIffNoneQualify(catalog: seq<Product>, q: Query)
    ensures NoProductsFound(catalog, q) <==>
      forall p :: p in catalog ==> !Holds(ListingFilter(q), p)
  {
    ListedExactly(catalog, q);
    var v := Visible(catalog, q);
    if |v| > 0 {
      assert v[0] in v;
    } else {
      assert forall p :: p !in v;
    }
  }

  /** Narrowing a concatenation narrows each part. */
  lemma NarrowConcat(a: seq<Product>, b: seq<Product>, q: Query)
    ensures Narrow(a + b, q) == Narrow(a, q) + Narrow(b, q)
  {
    if Given(q.category) {
      KeepConcat(a, b, InCategory(q.category.value));
    }
    var ca := if Given(q.category) then Keep(a, InCategory(q.category.value)) else a;
    var cb := if Given(q.category) then Keep(b, InCategory(q.category.value)) else b;
    if Given(q.search) {
      KeepConcat(ca, cb, Mentions(q.search.value));
    }
    var sa := if Given(q.search) then Keep(ca, Mentions(q.search.value)) else ca;
    var sb := if Given(q.search) then Keep(cb, Mentions(q.search.value)) else cb;
    KeepConcat(sa, sb, PricedWithin(q.low, q.high));
  }

  /** On one product, narrowing keeps it exactly when the combined filter holds. */
  lemma NarrowSingle(x: Product, q: Query)
    ensures Narrow([x], q) == Keep([x], ListingFilter(q))
  {
    KeepSingle(x, ListingFilter(q));
    KeepSingle(x, PricedWithin(q.low, q.high));
    if Given(q.category) {
      KeepSingle(x, InCategory(q.category.value));
    }
    var c := if Given(q.category) then Keep([x], InCategory(q.category.value)) else [x];
    if Given(q.search) {
      if c == [x] {
        KeepSingle(x, Mentions(q.search.value));
      }
    }
  }

  /** The three successive filters select exactly the products that pass all
      of them at once, in catalog order. */
  lemma {:induction false} NarrowIsListing(catalog: seq<Product>, q: Query)
    ensures Narrow(catalog, q) == Keep(catalog, ListingFilter(q))
    decreases |catalog|
  {
    if |catalog| > 0 {
      var x, rest := catalog[0], catalog[1..];
      assert catalog == [x] + rest;
      NarrowConcat([x], rest, q);
      NarrowIsListing(rest, q);
      NarrowSingle(x, q);
      KeepConcat([x], rest, ListingFilter(q));
    }
  }

  /** Soundness and completeness of the filters, for every sort key: a
      product is listed exactly when it is in the catalog, has the requested
      category (exact match) when one is given, mentions the search term
      (ignoring case) when one is given, and is priced within the inclusive
      range. */
  lemma ListedExactly(catalog: seq<Product>, q: Query)
    ensures forall p :: p in Visible(catalog, q) <==>
      && p in catalog
      && (Given(q.category) ==> p.category == q.category.value)
      && (Given(q.search) ==> MentionsTerm(p, q.search.value))
      && q.low <= p.price <= q.high
  {
    NarrowIsListing(catalog, q);
    var n := Narrow(catalog, q);
    SameMembers(Visible(catalog, q), n);
  }

  /** An inverted price range lists nothing. */
  lemma InvertedRangeIsEmpty(catalog: seq<Product>, q: Query)
    requires q.low > q.high
    ensures Visible(catalog, q) == []
  {
    NarrowIsListing(catalog, q);
    KeepNone(catalog, ListingFilter(q));
  }

  /** With `featured` or any key the page does not recognise, the listing is
      the filtered catalog in catalog order. */
  lemma UnsortedKeepsCatalogOrder(catalog: seq<Product>, q: Query)
    requires !KnownSortKey(q.sortBy)
    ensures Visible(catalog, q) == Keep(catalog, ListingFilter(q))
    ensures IsSubsequence(Visible(catalog, q), catalog)
  {
    NarrowIsListing(catalog, q);
  }

  /** `price-low` is a reordering of the filtered catalog by non-decreasing price. */
  lemma PriceLowSorted(catalog: seq<Product>, q: Query)
    requires q.sortBy == "price-low"
    ensures multiset(Visible(catalog, q)) == multiset(Keep(catalog, ListingFilter(q)))
    ensures forall i, j :: 0 <= i < j < |Visible(catalog, q)| ==>
      Visible(catalog, q)[i].price <= Visible(catalog, q)[j].price
  {
    NarrowIsListing(catalog, q);
    var r := Visible(catalog, q);
    assert Sorted(PriceAscending, r);
    forall i, j | 0 <= i < j < |r| ensures r[i].price <= r[j].price {
      assert Key(PriceAscending, r[i]) <= Key(PriceAscending, r[j]);
    }
  }

  /** `price-high` is a reordering of the filtered catalog by non-increasing price. */
  lemma PriceHighSorted(catalog: seq<Product>, q: Query)
    requires q.sortBy == "price-high"
    ensures multiset(Visible(catalog, q)) == multiset(Keep(catalog, ListingFilter(q)))
    ensures forall i, j :: 0 <= i < j < |Visible(catalog, q)| ==>
      Visible(catalog, q)[i].price >= Visible(catalog, q)[j].price
  {
    NarrowIsListing(catalog, q);
    var r := Visible(catalog, q);
    assert Sorted(PriceDescending, r);
    forall i, j | 0 <= i < j < |r| ensures r[i].price >= r[j].price {
      assert Key(PriceDescending, r[i]) <= Key(PriceDescending, r[j]);
    }
  }

  /** `rating` lists the filtered catalog by non-increasing rating, and the
      products sharing one rating appear in catalog order. */
  lemma RatingSortedStable(catalog: seq<Product>, q: Query, k: real)
    requires q.sortBy == "rating"
    ensures multiset(Visible(catalog, q)) == multiset(Keep(catalog, ListingFilter(q)))
    ensures forall i, j :: 0 <= i < j < |Visible(catalog, q)| ==>
      Visible(catalog, q)[i].rating >= Visible(catalog, q)[j].rating
    ensures Ties(RatingDescending, Visible(catalog, q), k) ==
            Ties(RatingDescending, Keep(catalog, ListingFilter(q)), k)
    ensures IsSubsequence(Ties(RatingDescending, Visible(catalog, q), k), catalog)
  {
    NarrowIsListing(catalog, q);
    var n := Narrow(catalog, q);
    var r := Visible(catalog, q);
    assert Sorted(RatingDescending, r);
    forall i, j | 0 <= i < j < |r| ensures r[i].rating >= r[j].rating {
      assert Key(RatingDescending, r[i]) <= Key(RatingDescending, r[j]);
    }
    SortStable(RatingDescending, n, k);
    SubsequenceTransitive(Ties(RatingDescending, n, k), n, catalog);
  }

  /** `newest` is exactly the filtered catalog read backwards. */
  lemma NewestReversed(catalog: seq<Product>, q: Query)
    requires q.sortBy == "newest"
    ensures Visible(catalog, q) == Reverse(Keep(catalog, ListingFilter(q)))
    ensures forall i :: 0 <= i < |Visible(catalog, q)| ==>
      Visible(catalog, q)[i] == Keep(catalog, ListingFilter(q))[|Visible(catalog, q)| - 1 - i]
  {
    NarrowIsListing(catalog, q);
    ArrangeNewest(Narrow(catalog, q));
    ReversedAt(Visible(catalog, q), Keep(catalog, ListingFilter(q)));
  }
}
