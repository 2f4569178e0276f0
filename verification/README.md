# Decorakart storefront core in Dafny

This project models the logic of the Decorakart handicrafts storefront. It
covers these parts:

- the product listing's filter and sort pipeline;
- the cart page's coupon, shipping and total;
- the product detail page: lookup, related products, quantity selector, price header;
- the product card's badges, `% OFF` figure and star row;
- the admin dashboard's delete, status update and statistics;
- the four rotating banners: `Hero`, `TestimonialsCarousel`, `CreativeHero` and `SuperHeader`.

The operations are pure functions over immutable datatypes. The two
exceptions are the revenue sum and the dashboard statistics, which are
methods with a loop. Each banner is a small state machine over a shared
`Carousel` index module.

Modules and files:

| file | module | models |
|---|---|---|
| types.dfy | `Types` | `Product`, `CartItem`, `Order`, `OrderStatus`, `Testimonial`; JavaScript truthiness of optional values |
| seqs.dfy | `Seqs` | subsequence, reversal, counting |
| text.dfy | `Text` | ASCII `toLowerCase`/`toUpperCase`, `includes` |
| catalog.dfy | `Catalog` | the one `Filter` criterion type and the order-keeping `Keep` filter |
| sorting.dfy | `Sorting` | the stable comparator sorts, `reverse`, and the `sortBy` switch |
| products_page.dfy | `ProductsPage` | the listing effect of `src/pages/Products.tsx` |
| cart_page.dfy | `CartPage` | `src/pages/Cart.tsx` |
| product_card.dfy | `ProductCard` | `src/components/ProductCard.tsx` |
| product_detail.dfy | `ProductDetail` | `src/pages/ProductDetail.tsx` |
| admin.dfy | `Admin` | `src/pages/AdminDashboard.tsx` |
| carousel.dfy | `Carousel` | the generic slide index: `(i+1) % n`, `(i-1+n) % n`, dots |
| hero.dfy, testimonials.dfy, creative_hero.dfy, super_header.dfy | one module each | the four banners |

Modelling choices:

- Prices and order totals are whole rupees (`int`). Ratings are exact `real`s.
- The 10% coupon discount is the exact rational `cartTotal / 10`, not the
  floating-point `* 0.1`.
- `Math.round(x)` is `floor(x + 1/2)`. The `% OFF` figure is computed over exact reals.
- Case mapping covers ASCII letters only.
- JavaScript's `%` is `Carousel.Rem`, which truncates toward zero.
- The optional merchandising flags are `bool`; a missing flag is `false`.
- A missing `originalPrice` is `None`. "Truthy" means present and not zero.
- The card, its badge stack and the detail header take a `Reading`.
  `AsWritten` is the page's `originalPrice && …` guard, which shows a bare
  "0" for a zero original price. `Intended` is the guard without that defect.
- A missing URL parameter is `None`. A filter applies only when its parameter
  is present and non-empty.
- The sort is modelled as a stable insertion sort ascending in a key:
  `price`, `-price` or `-rating`. This matches a stable
  `Array.prototype.sort` with the page's comparators. Stability is stated
  through `Sorting.Ties`: for every key value, the products with that key
  appear in the same order before and after sorting.
- Timers are events. One firing of `setInterval` is `Tick` or `NextOffer`.
  One `setTimeout` callback is `TimeoutFires`.
- `getCartTotal()` is an input to the cart summary. The cart store
  (`src/contexts/CartContext`) is not part of this model.

## Model

| member | source | states |
|---|---|---|
| Catalog.Keep | src/pages/Products.tsx:32 | a filter keeps exactly the products meeting its criterion, each as many times as it occurs in the input, as a subsequence of the input (catalog order kept) |
| ProductsPage.Visible | src/pages/Products.tsx:25-62 | the listing effect: the sort switch only reorders the list the three filters produce (same products, same multiplicities) |
| ProductsPage.InitialQuery | src/pages/Products.tsx:19-20 | the page starts sorted by `featured` with the price range [0, 10000] |
| ProductsPage.NarrowIsListing | src/pages/Products.tsx:26-43 | the three successive filters (category, search, price) select the same list, in catalog order, as the single conjunction of the active filters |
| ProductsPage.ListedExactly | src/pages/Products.tsx:28-43 | for any sort key, a product is listed iff it is in the catalog, has exactly the given category when one is given, contains the search term in its lower-cased name or description when one is given, and has a price in the inclusive range |
| ProductsPage.InvertedRangeIsEmpty | src/pages/Products.tsx:43 | a range with low > high lists nothing |
| ProductsPage.UnsortedKeepsCatalogOrder | src/pages/Products.tsx:46-59 | with `featured` or any unrecognised key the result is the filtered catalog in catalog order, a subsequence of the catalog |
| ProductsPage.PriceLowSorted | src/pages/Products.tsx:47-49 | `price-low` is a permutation of the filtered catalog with non-decreasing prices |
| ProductsPage.PriceHighSorted | src/pages/Products.tsx:50-52 | `price-high` is a permutation of the filtered catalog with non-increasing prices |
| ProductsPage.RatingSortedStable | src/pages/Products.tsx:53-55 | `rating` is a permutation with non-increasing ratings; products with equal rating keep their filtered order, which is a subsequence of the catalog |
| ProductsPage.NewestReversed | src/pages/Products.tsx:56-58 | `newest` is exactly the filtered catalog reversed, element by element |
| ProductsPage.NoProductsFoundIffNoneQualify | src/pages/Products.tsx:227-229 | the "No products found" panel shows exactly when no catalog product passes all filters; an empty list is a normal result |
| Sorting.SortBy | src/pages/Products.tsx:47-55 | the comparator sort returns a permutation of its input, sorted by the key |
| Sorting.SortStable | src/pages/Products.tsx:47-55 | the sort is stable: for every key value, the tied products keep their input order |
| Sorting.Arrange | src/pages/Products.tsx:46-59 | every branch of the `sortBy` switch only reorders its input |
| Seqs.Reverse | src/pages/Products.tsx:57 | `reverse` puts element `i` at position `n-1-i` |
| Text.Lower | src/pages/Products.tsx:37-38 | `toLowerCase` keeps the length, leaves no ASCII capital, turns each capital into its own small letter and keeps every other character |
| Text.Upper | src/pages/Cart.tsx:21 | `toUpperCase` keeps the length, leaves no ASCII small letter, turns each into its capital and keeps every other character |
| Text.ContainsAtOffset | src/pages/Products.tsx:37-38 | `includes` holds iff the term occurs at some offset of the text |
| CartPage.Accepts | src/pages/Cart.tsx:21 | a code is accepted iff it has eight characters and each upper-cases to the matching character of DIWALI10 |
| CartPage.AcceptsIgnoresCase | src/pages/Cart.tsx:21 | the coupon test ignores ASCII case: a code is accepted iff its lower-case or upper-case spelling is; `diwali10` and `Diwali10` are accepted, `DIWALI1` is not |
| CartPage.ApplyCoupon | src/pages/Cart.tsx:20-34 | the coupon is applied iff the upper-cased code is DIWALI10; then the discount is 10% of the cart total at that moment, otherwise the page is unchanged |
| CartPage.DiscountIsLastAcceptedApply | src/pages/Cart.tsx:16-36 | after any sequence of typing and pressing Apply, the box holds the last code typed, and the discount is 0 if no press had an accepted code, otherwise a tenth of the cart total at the latest press with an accepted code; rejected presses and later typing leave it alone, and it is never recomputed from the current total |
| CartPage.NoAcceptedTotalIffNoAcceptedPress | src/pages/Cart.tsx:17-22 | the backward scan for the latest accepted press finds none exactly when no press of Apply was made with an accepted code in the box |
| CartPage.LastAcceptedTotalIsLatest | src/pages/Cart.tsx:17-22 | the total the backward scan finds belongs to a press made with an accepted code and followed by no other such press |
| CartPage.Shipping | src/pages/Cart.tsx:37 | shipping is 0 iff the subtotal is strictly above 999, otherwise 99 (999 itself pays) |
| CartPage.Render | src/pages/Cart.tsx:36-40 | an empty cart gives the empty view, otherwise the summary; total = subtotal - discount + shipping; the discount line shows iff the discount is positive |
| CartPage.FreshCouponAboveThreshold | src/pages/Cart.tsx:20-38 | a freshly applied valid coupon on a subtotal above 999 gives a total of exactly 90% of the subtotal |
| CartPage.MinusPressed | src/pages/Cart.tsx:127 | the minus button requests quantity - 1 for that line's product id |
| CartPage.PlusPressed | src/pages/Cart.tsx:134 | the plus button requests quantity + 1 for that line's product id |
| CartPage.FrozenDiscountCanExceedSubtotal | src/pages/Cart.tsx:22-38 | apply at a cart total of 10000, then shrink the cart to 500: the total is -401 |
| CartPage.RenderCurrentDiscount | src/pages/Cart.tsx:36-38 | corrected summary: with the coupon the total is 90% of the current subtotal plus shipping; it is never negative for a non-negative subtotal |
| CartPage.CurrentDiscountAgreesUntilCartChanges | src/pages/Cart.tsx:20-38 | right after applying, the written and the corrected summaries agree |
| ProductDetail.FindIndex | src/pages/ProductDetail.tsx:21 | `find` returns the first position whose id matches, or none when no product has that id |
| ProductDetail.Lookup | src/pages/ProductDetail.tsx:21-32 | the shown product is a catalog product with the route id; not found iff no catalog product has that id |
| ProductDetail.Related | src/pages/ProductDetail.tsx:34-36 | related products share the category, never have the product's id, number min(4, qualifying), form a prefix of the qualifying list and a subsequence of the catalog |
| ProductDetail.RelatedCompleteWhenFew | src/pages/ProductDetail.tsx:34-36 | when at most four products qualify, all of them are shown |
| ProductDetail.Decrement | src/pages/ProductDetail.tsx:127 | minus never goes below 1 and otherwise subtracts one |
| ProductDetail.Click | src/pages/ProductDetail.tsx:126-150 | minus gives `Math.max(1, q - 1)`; plus adds exactly 1; add-to-cart passes the current quantity and resets the selector to 1 |
| ProductDetail.QuantityStaysPositive | src/pages/ProductDetail.tsx:19-150 | from a quantity of at least 1, no click sequence goes below 1 and every quantity added to the cart is at least 1 |
| ProductDetail.MinusUndoesPlus | src/pages/ProductDetail.tsx:126-138 | minus after plus restores any quantity of at least 1 |
| ProductDetail.DetailHeader | src/pages/ProductDetail.tsx:94-117 | the header uses the card's star count and the price; the struck price and `% OFF` pill show together iff the original price is truthy, with the rounded percentage; as written, a zero original price shows a bare "0" in their place, and the intended reading never does |
| ProductCard.Round | src/components/ProductCard.tsx:41 | `Math.round` returns the integer within one half of its argument, halves rounding up |
| ProductCard.PercentOff | src/components/ProductCard.tsx:41 | the `% OFF` figure is the nearest integer to 100·(original - price)/original |
| ProductCard.PercentOffBounded | src/components/ProductCard.tsx:41 | for 0 ≤ price ≤ original, the figure lies in [0, 100] |
| ProductCard.GuardAsWritten | src/components/ProductCard.tsx:39 | `n && element` as React renders it: nothing iff the value is absent, a bare "0" iff it is 0, the element iff it is truthy |
| ProductCard.GuardDiffersOnlyAtZero | src/components/ProductCard.tsx:39 | the written `originalPrice && …` guard and the intended one differ exactly when the original price is 0, where a stray "0" is rendered |
| ProductCard.Guard | src/components/ProductCard.tsx:39-43 | corrected guard: shows the element iff the price is truthy and never renders a stray value |
| ProductCard.Show | src/components/ProductCard.tsx:39 | either reading shows the element iff the value is truthy; a bare "0" appears iff the reading is as written and the value is 0 |
| ProductCard.DiscountBadge | src/components/ProductCard.tsx:39-43 | the `% OFF` badge appears iff the original price is truthy (so the divisor is never 0) and carries the rounded percentage; as written, a zero original price leaves a bare "0" instead |
| ProductCard.Badges | src/components/ProductCard.tsx:32-44 | "Festive Special" appears iff `festive`, "Bestseller" iff `bestseller`, a `% OFF` badge with the rounded figure iff the original price is truthy, and a bare "0" iff the reading is as written and the original price is 0 |
| ProductCard.FilledStars | src/components/ProductCard.tsx:77-84 | the number of filled stars in the five-star row, never more than five; its exact value is stated by `FilledStarsIsClampedFloor` |
| ProductCard.FilledStarsIsClampedFloor | src/components/ProductCard.tsx:77-84 | the filled-star count is floor(rating) clamped to 0..5, i.e. min(5, floor(rating)) for rating ≥ 0 |
| ProductCard.Card | src/components/ProductCard.tsx:24-100 | the card shows the badges above, five stars with the filled count, the price, and a struck original price iff it is truthy; as written, a zero original price shows a bare "0" both in the badge stack and beside the price (lines 39 and 95) |
| ProductCard.CardReadingsDifferOnlyAtZero | src/components/ProductCard.tsx:39-99 | the card as written and the card as intended differ exactly for a zero original price |
| Admin.DeleteProduct | src/pages/AdminDashboard.tsx:54-55 | delete removes every product with the id and keeps all others, duplicates included, in their original order |
| Admin.DeleteAbsentUnchanged | src/pages/AdminDashboard.tsx:54-55 | deleting an absent id leaves the list unchanged |
| Admin.UpdateOrderStatus | src/pages/AdminDashboard.tsx:59-62 | a status update keeps length and order, sets the status of matching orders, leaves other orders and all other fields unchanged |
| Admin.UpdateAbsentUnchanged | src/pages/AdminDashboard.tsx:59-62 | updating an absent order id leaves the list unchanged |
| Admin.UpdateIdempotent | src/pages/AdminDashboard.tsx:59-62 | repeating a status update changes nothing further |
| Admin.TotalRevenue | src/pages/AdminDashboard.tsx:66 | the left fold of order totals from 0 equals the sum of totals, 0 for no orders |
| Admin.UpdateKeepsRevenue | src/pages/AdminDashboard.tsx:59-66 | status updates never change total revenue |
| Admin.InStockFilterCounts | src/pages/AdminDashboard.tsx:133 | the in-stock filter's length counts the in-stock products; it equals the product count iff every product is in stock |
| Admin.Dashboard | src/pages/AdminDashboard.tsx:66-68 | the cards show the revenue sum, the order and product counts, and an in-stock count no larger than the product count |
| Admin.SelectableStatusesComplete | src/pages/AdminDashboard.tsx:298-303 | the picker offers pending, processing, shipped and delivered, each once, and nothing else |
| Carousel.Rem | src/components/Hero.tsx:43-44 | JavaScript `%` agrees with the mathematical remainder on non-negative dividends |
| Carousel.Next | src/components/Hero.tsx:43 | next moves to i+1, wrapping from n-1 to 0, and stays in [0, n) |
| Carousel.Prev | src/components/Hero.tsx:44 | prev moves to i-1, wrapping from 0 to n-1, and stays in [0, n) |
| Carousel.PrevNextInverse | src/components/Hero.tsx:43-44 | next and prev are mutual inverses on valid indices |
| Carousel.FullRound | src/components/TestimonialsCarousel.tsx:17 | n next steps return to the starting index |
| Carousel.ReplayInRange | src/components/CreativeHero.tsx:59-67 | from a valid index, any sequence of next, prev and dot moves stays in [0, n) |
| Carousel.ExactlyOneDot | src/components/Hero.tsx:110-113 | for a valid index exactly one dot is styled active |
| Hero.Step | src/components/Hero.tsx:35-44 | timer ticks and the next arrow go to the next slide, the prev arrow to the previous one, a dot to its index |
| Hero.RunInRange | src/components/Hero.tsx:32-44 | from slide 0, the index stays in [0, 3) under any events |
| Hero.ArrowsInverse | src/components/Hero.tsx:43-44 | prevSlide and nextSlide undo each other |
| Hero.DotMarksCurrent | src/components/Hero.tsx:110-112 | after a dot click exactly that dot is marked active |
| Testimonials.Step | src/components/TestimonialsCarousel.tsx:10-18 | ticks and next advance to (i+1) mod n, prev goes to (i-1+n) mod n, a dot jumps to its index |
| Testimonials.RunInRange | src/components/TestimonialsCarousel.tsx:8-18 | from index 0 the current testimonial index stays in [0, n) |
| Testimonials.TicksComeAround | src/components/TestimonialsCarousel.tsx:10-17 | n timer ticks return to the starting testimonial |
| Testimonials.Stars | src/components/TestimonialsCarousel.tsx:70-72 | the number of stars rendered equals the current testimonial's rating |
| Testimonials.DotMarksCurrent | src/components/TestimonialsCarousel.tsx:97-99 | a dot click sets the index to that dot, and only that dot is active |
| CreativeHero.Step | src/components/CreativeHero.tsx:48-67 | next sets direction 1, prev sets -1; a tick advances only while playing; a dot sets direction 1 iff its index is greater; play/pause toggles |
| CreativeHero.RunValid | src/components/CreativeHero.tsx:42-67 | from a valid state the slide stays in [0, 3) and the direction in {-1, 0, 1} under any events |
| CreativeHero.PausedTicksIdle | src/components/CreativeHero.tsx:48-57 | while paused, any number of ticks leaves the state unchanged |
| CreativeHero.ArrowsInverse | src/components/CreativeHero.tsx:59-67 | prevSlide then nextSlide (and the reverse) return to the same slide |
| CreativeHero.PlayPauseTwice | src/components/CreativeHero.tsx:246 | pressing play/pause twice restores the state |
| CreativeHero.CurrentDotGoesBackward | src/components/CreativeHero.tsx:228-231 | clicking the current slide's dot sets direction -1 and changes nothing else |
| SuperHeader.Step | src/components/SuperHeader.tsx:16-30 | nextOffer and prevOffer hide the text and schedule a switch; a timeout applies the oldest switch and shows the text again |
| SuperHeader.NextOfferTwoPhases | src/components/SuperHeader.tsx:16-22 | nextOffer hides the text with the offer unchanged; its timeout shows offer (i+1) mod 5 |
| SuperHeader.PrevOfferTwoPhases | src/components/SuperHeader.tsx:24-30 | prevOffer hides the text with the offer unchanged; its timeout shows offer (i-1+5) mod 5 |
| SuperHeader.WiredStepForward | src/components/SuperHeader.tsx:32-35 | with only the interval wired, each event leaves the offer or moves it one step forward |
| SuperHeader.RunReachable | src/components/SuperHeader.tsx:13-35 | from offer 0, wired events keep the offer in [0, 5), and every scheduled switch goes forward |
| SuperHeader.OfferStyle | src/components/SuperHeader.tsx:58-61 | the offer text has its hidden style exactly while animating |

## Left out

- The cart store (`addToCart` merging, update-to-zero removal, `getCartCount`, `getCartTotal`) is not part of this model. The cart page takes the store's total as an input.
- Rendering, animation, page titles, toasts, routing (`navigate`, links, `window.location`) and the image gallery are presentation only.
- Real time is not modelled. Interval and timeout durations (5000, 6000, 300 ms) become events.
- The admin `localStorage` flag and logout are browser storage and navigation. The add-product dialog has no handler.
- Floating point is not modelled. The discount is exactly `cartTotal / 10`. The `% OFF` figure is exact before rounding. `toLocaleString` is not modelled.
- Unicode case mapping is not modelled; only ASCII letters change case. For example, JavaScript upper-cases `ı` to `I`, so it would also accept `dıwalı10`; this model rejects it.
- Before its first run, the listing effect shows the unfiltered catalog. The model describes the list after the effect has run.
- The navbar search, the menus, the static pages and the mock-data fixture are not modelled.
- Testimonials.Stars: the rating is a `nat`, while the source types it as a `number`. `Array(rating)` throws a `RangeError` for a negative or fractional rating, and that error path is not modelled.
- Testimonials.Step: the testimonial list is a parameter assumed non-empty. With an empty list, JavaScript's `% 0` gives `NaN` and the page would fail.
- CartPage.Render: takes the number of cart lines, not the lines themselves. The lines are drawn from the cart store, which is not modelled.

## Findings

| source | as written | input that shows it | evidently intended | confidence | as-written member | corrected member |
|---|---|---|---|---|---|---|
| src/pages/Cart.tsx:22-38 | the discount is fixed at 10% of the cart total when the coupon is applied and never recomputed | apply DIWALI10 at a cart total of 10000, then reduce the cart to 500: the total shown is 500 - 1000 + 99 = -401 | 10% of the current subtotal, so the total is never negative | not executed; medium | CartPage.FrozenDiscountCanExceedSubtotal | CartPage.RenderCurrentDiscount |
| src/components/ProductCard.tsx:39 | `{product.originalPrice && (…)}` renders its left operand when that is falsy | a product whose `originalPrice` is 0: React prints the number 0 in the badge stack (the same guard is at src/components/ProductCard.tsx:95 and src/pages/ProductDetail.tsx:108); `Card(AsWritten, p)` and `DetailHeader(AsWritten, p)` carry the stray "0" | render nothing when there is no real original price | not executed; high for the rendering, low that such data occurs | ProductCard.GuardDiffersOnlyAtZero | ProductCard.Guard |
