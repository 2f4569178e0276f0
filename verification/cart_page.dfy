/** The cart page's order summary (src/pages/Cart.tsx): the DIWALI10 coupon,
    shipping and the total. The cart's contents and `getCartTotal()` come
    from the cart store, which is not part of this model; the store's total
    is an input here. */
module CartPage {
  import opened Types
  import opened Text

  const CouponCode: string := "DIWALI10"
  /** Orders strictly above this subtotal ship free. */
  const FreeShippingAbove: int := 999
  const ShippingFee: int := 99

  /** The coupon check: the entered code, upper-cased, is DIWALI10; that is,
      it has eight characters, each DIWALI10's character in either case. */
  predicate Accepts(code: string)
    ensures Accepts(code) <==>
      |code| == |CouponCode| && forall i :: 0 <= i < |code| ==> UpperChar(code[i]) == CouponCode[i]
  {
    Upper(code) == CouponCode
  }

  /** The check ignores case: a code is accepted exactly when its lower-case
      (or upper-case) spelling is. */
  lemma AcceptsIgnoresCase(code: string)
    ensures Accepts(code) <==> Accepts(Lower(code))
    ensures Accepts(code) <==> Accepts(Upper(code))
    ensures Accepts("diwali10") && Accepts("Diwali10") && !Accepts("DIWALI1")
  {
    CaseForgotten(code);
    CaseForgotten(Upper(code));
    assert Upper("diwali10") == CouponCode;
    assert Upper("Diwali10") == CouponCode;
  }

  /** The page's own state: the coupon input and the applied discount. */
  datatype Page = Page(couponCode: string, discount: real)

  const Initial: Page := Page("", 0.0)

  datatype Notice = CouponApplied | InvalidCoupon

  /** `applyCoupon`: an accepted code fixes the discount at 10% of the cart
      total at this moment; a rejected one changes nothing. */
  function ApplyCoupon(page: Page, cartTotal: int): (r: (Page, Notice))
    ensures r.1 == CouponApplied <==> Accepts(page.couponCode)
    ensures r.1 == CouponApplied ==> r.0 == page.(discount := cartTotal as real / 10.0)
    ensures r.1 == InvalidCoupon ==> r.0 == page
  {
    if Accepts(page.couponCode)
    then (page.(discount := cartTotal as real * 0.1), CouponApplied)
    else (page, InvalidCoupon)
  }

  /** What the shopper can do to the page's state: type into the coupon
      box, or press Apply while the cart totals `cartTotal`. */
  datatype Action = TypeCode(code: string) | PressApply(cartTotal: int)

  function Step(page: Page, a: Action): Page
  {
    match a
    case TypeCode(code) => page.(couponCode := code)
    case PressApply(total) => ApplyCoupon(page, total).0
  }

  /** The page state after the actions, applied first to last. */
  function Run(page: Page, actions: seq<Action>): Page
    decreases |actions|
  {
    if |actions| == 0 then page
    else Step(Run(page, actions[..|actions| - 1]), actions[|actions| - 1])
  }

  /** The code in the coupon box after the actions: the last one typed, or
      the empty string. */
  function TypedCode(actions: seq<Action>): (code: string)
    ensures (forall i :: 0 <= i < |actions| ==> !actions[i].TypeCode?) ==> code == ""
    decreases |actions|
  {
    if |actions| == 0 then ""
    else if actions[|actions| - 1].TypeCode? then actions[|actions| - 1].code
    else TypedCode(actions[..|actions| - 1])
  }

  /** The press of Apply at index `i` was made while the box held an
      accepted code. */
  predicate AcceptedPress(actions: seq<Action>, i: int)
  {
    0 <= i < |actions| && actions[i].PressApply? && Accepts(TypedCode(actions[..i]))
  }

  /** The cart total at the latest press of Apply with an accepted code, if
      there was one, found by scanning backwards. */
  function LastAcceptedTotal(actions: seq<Action>): Option<int>
    decreases |actions|
  {
    if |actions| == 0 then None
    else if AcceptedPress(actions, |actions| - 1) then Some(actions[|actions| - 1].cartTotal)
    else LastAcceptedTotal(actions[..|actions| - 1])
  }

  /** Whether a press was accepted depends only on what came before it. */
  lemma AcceptedPressPrefix(actions: seq<Action>, n: nat)
    requires n <= |actions|
    ensures forall i :: 0 <= i < n ==> (AcceptedPress(actions, i) <==> AcceptedPress(actions[..n], i))
  {
    forall i | 0 <= i < n ensures AcceptedPress(actions, i) <==> AcceptedPress(actions[..n], i) {
      assert actions[..i] == actions[..n][..i];
    }
  }

  /** The backward scan finds nothing exactly when no press was accepted. */
  lemma {:induction false} NoAcceptedTotalIffNoAcceptedPress(actions: seq<Action>)
    ensures LastAcceptedTotal(actions).None? <==>
      forall i :: 0 <= i < |actions| ==> !AcceptedPress(actions, i)
    decreases |actions|
  {
    if |actions| > 0 {
      var n := |actions| - 1;
      var init := actions[..n];
      if !AcceptedPress(actions, n) {
        AcceptedPressPrefix(actions, n);
        NoAcceptedTotalIffNoAcceptedPress(init);
        assert LastAcceptedTotal(actions) == LastAcceptedTotal(init);
      }
    }
  }

  /** The press at index `i` is accepted and no later press is. */
  predicate LatestAcceptedPress(actions: seq<Action>, i: int)
  {
    AcceptedPress(actions, i) && forall j :: i < j < |actions| ==> !AcceptedPress(actions, j)
  }

  /** What the backward scan finds is the total of an accepted press with no
      accepted press after it. */
  lemma {:induction false} LastAcceptedTotalIsLatest(actions: seq<Action>)
    requires LastAcceptedTotal(actions).Some?
    ensures exists i :: LatestAcceptedPress(actions, i) && actions[i].cartTotal == LastAcceptedTotal(actions).value
    decreases |actions|
  {
    var n := |actions| - 1;
    var init := actions[..n];
    var last := LastAcceptedTotal(actions).value;
    if AcceptedPress(actions, n) {
      assert LatestAcceptedPress(actions, n) && actions[n].cartTotal == last;
    } else {
      assert LastAcceptedTotal(init) == LastAcceptedTotal(actions);
      LastAcceptedTotalIsLatest(init);
      var i :| LatestAcceptedPress(init, i) && init[i].cartTotal == last;
      AcceptedPressPrefix(actions, n);
      forall j | i < j < |actions| ensures !AcceptedPress(actions, j) {
        if j < n {
          assert !AcceptedPress(init, j);
        }
      }
      assert LatestAcceptedPress(actions, i) && actions[i].cartTotal == last;
    }
  }

  /** The discount is frozen: it is 0 until a coupon is accepted, and after
      that it is a tenth of the cart total at the latest accepted press of
      Apply, whatever the cart did since and whatever was typed or rejected
      afterwards. */
  lemma {:induction false} DiscountIsLastAcceptedApply(actions: seq<Action>)
    ensures Run(Initial, actions).couponCode == TypedCode(actions)
    ensures Run(Initial, actions).discount ==
      match LastAcceptedTotal(actions)
      case None => 0.0
      case Some(total) => total as real / 10.0
    decreases |actions|
  {
    if |actions| > 0 {
      var n := |actions| - 1;
      var init := actions[..n];
      DiscountIsLastAcceptedApply(init);
      var before := Run(Initial, init);
      assert Run(Initial, actions) == Step(before, actions[n]);
      assert actions[..n] == init;
      match actions[n]
      case TypeCode(code) =>
        assert !AcceptedPress(actions, n);
        assert LastAcceptedTotal(actions) == LastAcceptedTotal(init);
      case PressApply(total) =>
        assert TypedCode(actions) == TypedCode(init);
        assert AcceptedPress(actions, n) <==> Accepts(before.couponCode);
    }
  }

  /** Shipping: free strictly above 999, otherwise 99. */
  function Shipping(subtotal: int): (r: int)
    ensures r == 0 <==> subtotal > FreeShippingAbove
    ensures r == 0 || r == ShippingFee
  {
    if subtotal > FreeShippingAbove then 0 else ShippingFee
  }

  datatype Summary = Summary(
    subtotal: int,
    discountLine: Option<real>,
    shipping: int,
    total: real)

  datatype CartView = EmptyCart | OrderSummary(summary: Summary)

  /** The page for a cart with `lineCount` lines whose store total is
      `cartTotal`: the empty state, or the order summary, which shows the
      discount line only while the discount is positive. */
  function Render(lineCount: nat, cartTotal: int, page: Page): (v: CartView)
    ensures v.EmptyCart? <==> lineCount == 0
    ensures v.OrderSummary? ==>
      && v.summary.subtotal == cartTotal
      && v.summary.total == cartTotal as real - page.discount + Shipping(cartTotal) as real
      && (v.summary.discountLine.Some? <==> page.discount > 0.0)
      && (v.summary.discountLine.Some? ==> v.summary.discountLine.value == page.discount)
  {
    if lineCount == 0 then EmptyCart
    else
      var shipping := Shipping(cartTotal);
      OrderSummary(Summary(
        cartTotal,
        if page.discount > 0.0 then Some(page.discount) else None,
        shipping,
        cartTotal as real - page.discount + shipping as real))
  }

  /** Applying DIWALI10 to a cart above the free-shipping threshold makes
      the total exactly 90% of the subtotal. */
  lemma FreshCouponAboveThreshold(page: Page, lineCount: nat, cartTotal: int)
    requires Accepts(page.couponCode)
    requires lineCount > 0 && cartTotal > FreeShippingAbove
    ensures Render(lineCount, cartTotal, ApplyCoupon(page, cartTotal).0).summary.total
            == cartTotal as real * 0.9
  {
  }

  /** Because the discount is frozen, shrinking the cart after applying the
      coupon can make the total negative: apply DIWALI10 at a cart total of
      10000, then reduce the cart to 500, and the total is 500 - 1000 + 99. */
  lemma FrozenDiscountCanExceedSubtotal()
    ensures var page := ApplyCoupon(Page("diwali10", 0.0), 10000).0;
      Render(1, 500, page).summary.total == -401.0
  {
  }

  /** The summary as evidently intended: the coupon, once accepted, is a
      flag, and the discount is 10% of the cart's current total. */
  function RenderCurrentDiscount(lineCount: nat, cartTotal: int, couponApplied: bool): (v: CartView)
    ensures v.EmptyCart? <==> lineCount == 0
    ensures v.OrderSummary? ==>
      && v.summary.subtotal == cartTotal
      && (couponApplied ==> v.summary.total == cartTotal as real * 0.9 + Shipping(cartTotal) as real)
      && (!couponApplied ==> v.summary.total == (cartTotal + Shipping(cartTotal)) as real)
      && (cartTotal >= 0 ==> v.summary.total >= 0.0)
  {
    Render(lineCount, cartTotal, Page("", if couponApplied then cartTotal as real / 10.0 else 0.0))
  }

  /** While the cart total has not changed since the coupon was applied, the
      written summary and the intended one agree. */
  lemma CurrentDiscountAgreesUntilCartChanges(page: Page, lineCount: nat, cartTotal: int)
    requires Accepts(page.couponCode)
    ensures Render(lineCount, cartTotal, ApplyCoupon(page, cartTotal).0)
            == RenderCurrentDiscount(lineCount, cartTotal, true)
  {
  }

  /** A change request from the minus or plus button of one cart line. */
  datatype QuantityUpdate = QuantityUpdate(productId: string, quantity: int)

  /** The minus and plus buttons request one less and one more of that
      line's product; the store decides what a quantity of 0 means. */
  function MinusPressed(line: CartItem): (u: QuantityUpdate)
    ensures u.productId == line.product.id && u.quantity + 1 == line.quantity
  {
    QuantityUpdate(line.product.id, line.quantity - 1)
  }

  function PlusPressed(line: CartItem): (u: QuantityUpdate)
    ensures u.productId == line.product.id && u.quantity - 1 == line.quantity
  {
    QuantityUpdate(line.product.id, line.quantity + 1)
  }
}
