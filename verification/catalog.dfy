/** Filtering the product list: one criterion type and one order-keeping
    filter, shared by the listing page, the related-products strip and the
    admin delete. */
module Catalog {
  import opened Types
  import opened Text
  import opened Seqs

  /** The criteria the storefront filters products by. `Listing` is the
      conjunction of the listing page's three filters, each skipped when its
      parameter is absent or empty. */
  datatype Filter =
    | InCategory(category: string)
    | Mentions(term: string)
    | PricedWithin(lo: int, hi: int)
    | RelatedTo(category: string, id: string)
    | OtherThan(id: string)
    | Available
    | Listing(categoryParam: Option<string>, searchParam: Option<string>, lo: int, hi: int)

  /** Case-insensitive substring test over the name or the description. */
  predicate MentionsTerm(p: Product, term: string)
  {
    Contains(Lower(p.name), Lower(term)) || Contains(Lower(p.description), Lower(term))
  }

  predicate Holds(f: Filter, p: Product)
  {
    match f
    case InCategory(c) => p.category == c
    case Mentions(t) => MentionsTerm(p, t)
    case PricedWithin(lo, hi) => lo <= p.price && p.price <= hi
    case RelatedTo(c, id) => p.category == c && p.id != id
    case OtherThan(id) => p.id != id
    case Available => p.inStock
    case Listing(c, t, lo, hi) =>
      && (Given(c) ==> p.category == c.value)
      && (Given(t) ==> MentionsTerm(p, t.value))
      && lo <= p.price && p.price <= hi
  }

  /** `products.filter(...)`: the products satisfying `f`, in their original
      order, each as many times as it occurs in `s`. */
  function Keep(s: seq<Product>, f: Filter): (r: seq<Product>)
    ensures forall p :: p in r <==> p in s && Holds(f, p)
    ensures forall p {:trigger multiset(r)[p]} :: multiset(r)[p] == if Holds(f, p) then multiset(s)[p] else 0
    ensures IsSubsequence(r, s)
    decreases |s|
  {
    if |s| == 0 then []
    else
      assert s == [s[0]] + s[1..];
      if Holds(f, s[0]) then [s[0]] + Keep(s[1..], f)
      else Keep(s[1..], f)
  }

  /** Filtering distributes over concatenation. */
  lemma {:induction false} KeepConcat(a: seq<Product>, b: seq<Product>, f: Filter)
    ensures Keep(a + b, f) == Keep(a, f) + Keep(b, f)
    decreases |a|
  {
    if |a| == 0 {
      assert a + b == b;
    } else {
      assert (a + b)[0] == a[0];
      assert (a + b)[1..] == a[1..] + b;
      KeepConcat(a[1..], b, f);
    }
  }

  /** Filtering one product. */
  lemma KeepSingle(x: Product, f: Filter)
    ensures Keep([x], f) == (if Holds(f, x) then [x] else [])
  {
    assert [x][1..] == [];
  }

  /** A filter that accepts nothing in `s` returns the empty list. */
  lemma {:induction false} KeepNone(s: seq<Product>, f: Filter)
    requires forall p :: p in s ==> !Holds(f, p)
    ensures Keep(s, f) == []
    decreases |s|
  {
    if |s| > 0 {
      assert s[0] in s;
      assert forall p :: p in s[1..] ==> p in s;
      KeepNone(s[1..], f);
    }
  }

  /** A filter that rejects nothing in `s` returns `s` itself. */
  lemma {:induction false} KeepAll(s: seq<Product>, f: Filter)
    requires forall p :: p in s ==> Holds(f, p)
    ensures Keep(s, f) == s
    decreases |s|
  {
    if |s| > 0 {
      assert s[0] in s;
      assert forall p :: p in s[1..] ==> p in s;
      KeepAll(s[1..], f);
    }
  }
}
