/** The product card's derived display values (src/components/ProductCard.tsx):
    merchandising badges, the `% OFF` figure, the five-star row and the
    struck-through original price. */
module ProductCard {
  import opened Types
  import opened Seqs

  /** `Math.round`: the nearest integer, halves rounding up. */
  function Round(x: real): (n: int)
    ensures n as real - 0.5 <= x < n as real + 0.5
  {
    (x + 0.5).Floor
  }

  /** `Math.round(((originalPrice - price) / originalPrice) * 100)`, over
      exact reals. */
  function PercentOff(price: int, original: int): (r: int)
    requires original != 0
    ensures var exact := (original - price) as real / original as real * 100.0;
            r as real - 0.5 <= exact < r as real + 0.5
  {
    Round((original - price) as real / original as real * 100.0)
  }

  /** A discount from a positive list price lies between 0% and 100%. */
  lemma PercentOffBounded(price: int, original: int)
    requires 0 <= price <= original
    requires original != 0
    ensures 0 <= PercentOff(price, original) <= 100
  {
    var o := original as real;
    var d := (original - price) as real;
    assert 0.0 <= d <= o;
    assert 0.0 <= d / o <= 1.0 by {
      assert d / o * o == d;
    }
  }

  /** The JSX `{originalPrice && <…/>}` as React renders it: a missing price
      renders nothing, a zero price renders the number itself, any other
      price renders the element. */
  datatype Slot<+T> = Nothing | StrayZero | Element(content: T)

  function GuardAsWritten<T>(n: Option<int>, content: T): (r: Slot<T>)
    ensures r == Nothing <==> n.None?
    ensures r == StrayZero <==> n == Some(0)
    ensures r.Element? <==> Truthy(n)
    ensures r.Element? ==> r.content == content
  {
    if n.None? then Nothing
    else if n.value == 0 then StrayZero
    else Element(content)
  }

  /** The guard as intended: the element when the price is truthy, otherwise
      nothing at all. */
  function Guard<T>(n: Option<int>, content: T): (r: Slot<T>)
    ensures r != StrayZero
    ensures r.Element? <==> Truthy(n)
    ensures r.Element? ==> r.content == content
  {
    if Truthy(n) then Element(content) else Nothing
  }

  /** The written guard and the intended one disagree exactly on a zero
      original price, where the page shows a stray "0". */
  lemma GuardDiffersOnlyAtZero<T>(n: Option<int>, content: T)
    ensures GuardAsWritten(n, content) != Guard(n, content) <==> n == Some(0)
    ensures n == Some(0) ==> GuardAsWritten(n, content) == StrayZero
  {
  }

  /** Which guard a view is rendered with: the one the page is written with,
      or the intended one. */
  datatype Reading = AsWritten | Intended

  function Show<T>(reading: Reading, n: Option<int>, content: T): (r: Slot<T>)
    ensures r.Element? <==> Truthy(n)
    ensures r.Element? ==> r.content == content
    ensures r == StrayZero <==> reading == AsWritten && n == Some(0)
  {
    match reading
    case AsWritten => GuardAsWritten(n, content)
    case Intended => Guard(n, content)
  }

  /** An entry of the badge stack; `ZeroText` is the bare "0" the written
      guard leaves there for a zero original price. */
  datatype Badge = FestiveSpecial | Bestseller | PercentOffBadge(percent: int) | ZeroText

  /** The `% OFF` badge, shown only for a truthy original price (so the
      division never sees a zero). */
  function DiscountBadge(reading: Reading, p: Product): (r: Slot<Badge>)
    ensures r.Element? <==> Truthy(p.originalPrice)
    ensures r.Element? ==> r.content == PercentOffBadge(PercentOff(p.price, p.originalPrice.value))
    ensures r == StrayZero <==> reading == AsWritten && p.originalPrice == Some(0)
  {
    // The badge content is only computed, and only shown, for a truthy price.
    var content := if Truthy(p.originalPrice)
      then PercentOffBadge(PercentOff(p.price, p.originalPrice.value))
      else ZeroText;
    Show(reading, p.originalPrice, content)
  }

  /** The badge stack, top to bottom. */
  function Badges(reading: Reading, p: Product): (r: seq<Badge>)
    ensures FestiveSpecial in r <==> p.festive
    ensures Bestseller in r <==> p.bestseller
    ensures forall b :: b in r && b.PercentOffBadge? ==>
      Truthy(p.originalPrice) && b.percent == PercentOff(p.price, p.originalPrice.value)
    ensures Truthy(p.originalPrice) ==> PercentOffBadge(PercentOff(p.price, p.originalPrice.value)) in r
    ensures ZeroText in r <==> reading == AsWritten && p.originalPrice == Some(0)
  {
    (if p.festive then [FestiveSpecial] else [])
    + (if p.bestseller then [Bestseller] else [])
    + (match DiscountBadge(reading, p)
       case Element(b) => [b]
       case StrayZero => [ZeroText]
       case Nothing => [])
  }

  /** The five stars; star `i` is filled when `i < Math.floor(rating)`. */
  function StarRow(rating: real): (r: seq<bool>)
    ensures |r| == 5
  {
    seq(5, i => i < rating.Floor)
  }

  /** A row whose entry `i` is `i < m` has `m` filled entries, clamped to the row. */
  lemma {:induction false} CountBelowThreshold(s: seq<bool>, m: int)
    requires forall i :: 0 <= i < |s| ==> s[i] == (i < m)
    ensures CountTrue(s) == if m <= 0 then 0 else Min(m, |s|)
    decreases |s|
  {
    if |s| > 0 {
      forall i | 0 <= i < |s[1..]| ensures s[1..][i] == (i < m - 1) {
        assert s[1..][i] == s[i + 1];
      }
      CountBelowThreshold(s[1..], m - 1);
    }
  }

  /** Number of filled stars. */
  function FilledStars(rating: real): (n: nat)
    ensures n <= 5
  {
    CountTrue(StarRow(rating))
  }

  /** The filled-star count is `floor(rating)` clamped to 0..5; for a
      non-negative rating that is `min(5, floor(rating))`. */
  lemma FilledStarsIsClampedFloor(rating: real)
    ensures FilledStars(rating) == if rating.Floor <= 0 then 0 else Min(5, rating.Floor)
    ensures rating >= 0.0 ==> FilledStars(rating) == Min(5, rating.Floor)
  {
    CountBelowThreshold(StarRow(rating), rating.Floor);
  }

  /** What the card shows for one product. */
  datatype CardView = CardView(
    badges: seq<Badge>,
    stars: seq<bool>,
    price: int,
    struckPrice: Slot<int>)

  function Card(reading: Reading, p: Product): (v: CardView)
    ensures FestiveSpecial in v.badges <==> p.festive
    ensures Bestseller in v.badges <==> p.bestseller
    ensures (exists b :: b in v.badges && b.PercentOffBadge?) <==> Truthy(p.originalPrice)
    ensures |v.stars| == 5 && CountTrue(v.stars) == FilledStars(p.rating)
    ensures v.struckPrice.Element? <==> Truthy(p.originalPrice)
    ensures v.struckPrice.Element? ==> v.struckPrice.content == p.originalPrice.value
    ensures v.struckPrice == StrayZero <==> reading == AsWritten && p.originalPrice == Some(0)
    ensures ZeroText in v.badges <==> reading == AsWritten && p.originalPrice == Some(0)
    ensures v.price == p.price
  {
    var original := if p.originalPrice.Some? then p.originalPrice.value else 0;
    CardView(Badges(reading, p), StarRow(p.rating), p.price, Show(reading, p.originalPrice, original))
  }

  /** The card as written and the card as intended differ exactly for a zero
      original price. */
  lemma CardReadingsDifferOnlyAtZero(p: Product)
    ensures Card(AsWritten, p) != Card(Intended, p) <==> p.originalPrice == Some(0)
  {
  }
}
