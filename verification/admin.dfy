/** The admin dashboard's list operations and statistics
    (src/pages/AdminDashboard.tsx). */
module Admin {
  import opened Types
  import opened Seqs
  import opened Catalog

  /** `handleDeleteProduct`: every product with the id goes, the rest stay
      in order. */
  function DeleteProduct(products: seq<Product>, id: string): (r: seq<Product>)
    ensures forall p :: p in r <==> p in products && p.id != id
    ensures forall p {:trigger multiset(r)[p]} :: multiset(r)[p] == if p.id != id then multiset(products)[p] else 0
    ensures IsSubsequence(r, products)
  {
    Keep(products, OtherThan(id))
  }

  /** Deleting an id that no product has changes nothing. */
  lemma DeleteAbsentUnchanged(products: seq<Product>, id: string)
    requires forall p :: p in products ==> p.id != id
    ensures DeleteProduct(products, id) == products
  {
    KeepAll(products, OtherThan(id));
  }

  /** `handleUpdateOrderStatus`: orders with the id get the new status; no
      other field and no other order changes, and the list keeps its length
      and order. */
  function UpdateOrderStatus(orders: seq<Order>, id: string, status: OrderStatus): (r: seq<Order>)
    ensures |r| == |orders|
    ensures forall i :: 0 <= i < |r| && orders[i].id == id ==> r[i].status == status
    ensures forall i :: 0 <= i < |r| && orders[i].id != id ==> r[i] == orders[i]
    ensures forall i :: 0 <= i < |r| ==> r[i].(status := orders[i].status) == orders[i]
  {
    seq(|orders|, i requires 0 <= i < |orders| =>
      if orders[i].id == id then orders[i].(status := status) else orders[i])
  }

  /** Updating an order id that does not occur changes nothing. */
  lemma UpdateAbsentUnchanged(orders: seq<Order>, id: string, status: OrderStatus)
    requires forall i :: 0 <= i < |orders| ==> orders[i].id != id
    ensures UpdateOrderStatus(orders, id, status) == orders
  {
  }

  /** Repeating a status update has no further effect. */
  lemma UpdateIdempotent(orders: seq<Order>, id: string, status: OrderStatus)
    ensures UpdateOrderStatus(UpdateOrderStatus(orders, id, status), id, status)
            == UpdateOrderStatus(orders, id, status)
  {
  }

  /** Sum of order totals, folding from the right (reference definition). */
  function Revenue(orders: seq<Order>): int
    decreases |orders|
  {
    if |orders| == 0 then 0 else orders[0].total + Revenue(orders[1..])
  }

  /** Revenue of a concatenation is the sum of the revenues. */
  lemma {:induction false} RevenueConcat(a: seq<Order>, b: seq<Order>)
    ensures Revenue(a + b) == Revenue(a) + Revenue(b)
    decreases |a|
  {
    if |a| == 0 {
      assert a + b == b;
    } else {
      assert (a + b)[1..] == a[1..] + b;
      RevenueConcat(a[1..], b);
    }
  }

  /** `orders.reduce((sum, order) => sum + order.total, 0)`: a left fold
      starting at 0 that agrees with the reference sum. */
  method TotalRevenue(orders: seq<Order>) returns (sum: int)
    ensures sum == Revenue(orders)
    ensures |orders| == 0 ==> sum == 0
  {
    sum := 0;
    var i := 0;
    while i < |orders|
      invariant 0 <= i <= |orders|
      invariant sum == Revenue(orders[..i])
    {
      RevenueConcat(orders[..i], [orders[i]]);
      assert orders[..i + 1] == orders[..i] + [orders[i]];
      sum := sum + orders[i].total;
      i := i + 1;
    }
    assert orders[..i] == orders;
  }

  /** A status change never changes revenue. */
  lemma {:induction false} UpdateKeepsRevenue(orders: seq<Order>, id: string, status: OrderStatus)
    ensures Revenue(UpdateOrderStatus(orders, id, status)) == Revenue(orders)
    decreases |orders|
  {
    if |orders| > 0 {
      UpdateKeepsRevenue(orders[1..], id, status);
      assert UpdateOrderStatus(orders, id, status)[1..] == UpdateOrderStatus(orders[1..], id, status);
    }
  }

  /** Number of in-stock products, counted one by one (reference definition). */
  function InStockCount(products: seq<Product>): (n: nat)
    ensures n <= |products|
    decreases |products|
  {
    if |products| == 0 then 0
    else (if products[0].inStock then 1 else 0) + InStockCount(products[1..])
  }

  /** `products.filter(p => p.inStock).length` counts the in-stock products,
      and equals the whole catalog size exactly when every product is in stock. */
  lemma {:induction false} InStockFilterCounts(products: seq<Product>)
    ensures |Keep(products, Available)| == InStockCount(products)
    ensures InStockCount(products) == |products| <==> forall p :: p in products ==> p.inStock
    decreases |products|
  {
    if |products| > 0 {
      InStockFilterCounts(products[1..]);
      assert products == [products[0]] + products[1..];
      assert forall p :: p in products <==> p == products[0] || p in products[1..];
    }
  }

  /** The four statistic cards. */
  datatype Stats = Stats(totalRevenue: int, totalOrders: nat, totalProducts: nat, inStock: nat)

  method Dashboard(products: seq<Product>, orders: seq<Order>) returns (s: Stats)
    ensures s.totalRevenue == Revenue(orders)
    ensures s.totalOrders == |orders| && s.totalProducts == |products|
    ensures s.inStock == InStockCount(products) && s.inStock <= s.totalProducts
  {
    var revenue := TotalRevenue(orders);
    InStockFilterCounts(products);
    s := Stats(revenue, |orders|, |products|, |Keep(products, Available)|);
  }

  /** The statuses offered by the status picker: all four, each once. */
  const SelectableStatuses: seq<OrderStatus> := [Pending, Processing, Shipped, Delivered]

  lemma SelectableStatusesComplete()
    ensures forall s: OrderStatus :: s in SelectableStatuses
    ensures |SelectableStatuses| == 4
    ensures forall i, j :: 0 <= i < j < 4 ==> SelectableStatuses[i] != SelectableStatuses[j]
  {
    forall s: OrderStatus ensures s in SelectableStatuses {
      match s
      case Pending => assert SelectableStatuses[0] == s;
      case Processing => assert SelectableStatuses[1] == s;
      case Shipped => assert SelectableStatuses[2] == s;
      case Delivered => assert SelectableStatuses[3] == s;
    }
  }
}
