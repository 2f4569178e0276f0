/** The product detail page (src/pages/ProductDetail.tsx): lookup by route
    id, the related-products strip, the quantity selector and the price and
    rating header. */
module ProductDetail {
  import opened Types
  import opened Seqs
  import opened Catalog
  import opened ProductCard

  /** `products.find(p => p.id === id)` as a position: the first index whose
      id matches, if any. */
  function FindIndex(catalog: seq<Product>, id: string): (r: Option<nat>)
    ensures r.Some? ==> r.value < |catalog| && catalog[r.value].id == id
    ensures r.Some? ==> forall j :: 0 <= j < r.value ==> catalog[j].id != id
    ensures r.None? ==> forall j :: 0 <= j < |catalog| ==> catalog[j].id != id
    decreases |catalog|
  {
    if |catalog| == 0 then None
    else if catalog[0].id == id then Some(0)
    else match FindIndex(catalog[1..], id)
      case None => None
      case Some(k) => Some(k + 1)
  }

  /** The product the page shows, or `None` for the "Product not found" view. */
  function Lookup(catalog: seq<Product>, id: string): (r: Option<Product>)
    ensures r.Some? ==> r.value in catalog && r.value.id == id
    ensures r.None? <==> forall p :: p in catalog ==> p.id != id
  {
    match FindIndex(catalog, id)
    case None => None
    case Some(i) => Some(catalog[i])
  }

  /** How many related products the strip shows at most. */
  const RelatedLimit: nat := 4

  /** Same category, different id, first four in catalog order. */
  function Related(catalog: seq<Product>, product: Product): (r: seq<Product>)
    ensures |r| <= 4
    ensures forall p :: p in r ==> p.category == product.category && p.id != product.id
    ensures IsSubsequence(r, catalog)
    ensures r <= Keep(catalog, RelatedTo(product.category, product.id))
    ensures |r| == Min(4, |Keep(catalog, RelatedTo(product.category, product.id))|)
  {
    var all := Keep(catalog, RelatedTo(product.category, product.id));
    var r := all[..Min(RelatedLimit, |all|)];
    PrefixOfSubsequence(all, catalog, |r|);
    assert forall p :: p in r ==> p in all;
    r
  }

  /** When at most four products qualify, every one of them is shown. */
  lemma RelatedCompleteWhenFew(catalog: seq<Product>, product: Product)
    requires |Keep(catalog, RelatedTo(product.category, product.id))| <= 4
    ensures forall p :: p in Related(catalog, product) <==>
      p in catalog && p.category == product.category && p.id != product.id
  {
  }

  // Quantity selector

  const InitialQuantity: int := 1

  /** The minus button: `Math.max(1, quantity - 1)`. */
  function Decrement(q: int): (r: int)
    ensures r >= 1
    ensures q > 1 ==> r == q - 1
    ensures q <= 1 ==> r == 1
  {
    if q - 1 >= 1 then q - 1 else 1
  }

  datatype SelectorEvent = Minus | Plus | AddToCart

  /** The selector after one click, and the quantity handed to `addToCart`
      when the click was "Add to Cart". */
  function Click(q: int, e: SelectorEvent): (r: (int, Option<int>))
    ensures e == Plus ==> r == (q + 1, None)
    ensures e == Minus ==> r == (Decrement(q), None) && r.0 >= 1
    ensures e == AddToCart ==> r == (InitialQuantity, Some(q))
  {
    match e
    case Minus => (Decrement(q), None)
    case Plus => (q + 1, None)
    case AddToCart => (InitialQuantity, Some(q))
  }

  /** Replays clicks; returns the final quantity and the quantities passed
      to `addToCart`, in order. */
  function Clicks(q: int, es: seq<SelectorEvent>): (r: (int, seq<int>))
    decreases |es|
  {
    if |es| == 0 then (q, [])
    else
      var (q1, added) := Click(q, es[0]);
      var (q2, rest) := Clicks(q1, es[1..]);
      (q2, (if added.Some? then [added.value] else []) + rest)
  }

  /** From the initial quantity, no sequence of clicks takes the selector
      below 1, and every quantity added to the cart is at least 1. */
  lemma {:induction false} QuantityStaysPositive(q: int, es: seq<SelectorEvent>)
    requires q >= 1
    ensures Clicks(q, es).0 >= 1
    ensures forall k :: 0 <= k < |Clicks(q, es).1| ==> Clicks(q, es).1[k] >= 1
    decreases |es|
  {
    if |es| > 0 {
      QuantityStaysPositive(Click(q, es[0]).0, es[1..]);
    }
  }

  /** Minus undoes plus on any reachable quantity. */
  lemma MinusUndoesPlus(q: int)
    requires q >= 1
    ensures Click(Click(q, Plus).0, Minus).0 == q
  {
  }

  /** The struck-through original price and the `% OFF` pill, which one
      guard shows or hides together. */
  datatype PriceCut = PriceCut(original: int, percent: int)

  /** The price and rating header of the detail view. */
  datatype Header = Header(filledStars: nat, price: int, cut: Slot<PriceCut>)

  function DetailHeader(reading: Reading, p: Product): (h: Header)
    ensures h.filledStars == FilledStars(p.rating)
    ensures h.price == p.price
    ensures h.cut.Element? <==> Truthy(p.originalPrice)
    ensures h.cut.Element? ==>
      h.cut.content == PriceCut(p.originalPrice.value, PercentOff(p.price, p.originalPrice.value))
    ensures h.cut == StrayZero <==> reading == AsWritten && p.originalPrice == Some(0)
  {
    // The pill's figure is only computed, and only shown, for a truthy price.
    var cut := if Truthy(p.originalPrice)
      then PriceCut(p.originalPrice.value, PercentOff(p.price, p.originalPrice.value))
      else PriceCut(0, 0);
    Header(FilledStars(p.rating), p.price, Show(reading, p.originalPrice, cut))
  }
}
