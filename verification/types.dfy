/** The storefront's records (src/types/index.ts). Prices and order totals
    are whole rupees; ratings are exact reals. */
module Types {

  datatype Option<+T> = None | Some(value: T)

  /** A catalog entry. The optional merchandising flags are `false` when
      absent, which is how the views read them (an absent flag is falsy). */
  datatype Product = Product(
    id: string,
    name: string,
    description: string,
    price: int,
    originalPrice: Option<int>,
    category: string,
    images: seq<string>,
    rating: real,
    reviews: int,
    inStock: bool,
    featured: bool,
    bestseller: bool,
    festive: bool,
    tags: seq<string>)

  datatype CartItem = CartItem(product: Product, quantity: int)

  /** A customer review shown by the testimonials carousel. The star row is
      built with `Array(rating)`, so the rating is a whole, non-negative count. */
  datatype Testimonial = Testimonial(
    id: string,
    name: string,
    rating: nat,
    comment: string,
    image: string,
    location: string)

  datatype OrderStatus = Pending | Processing | Shipped | Delivered

  datatype Order = Order(
    id: string,
    customerName: string,
    email: string,
    items: seq<CartItem>,
    total: int,
    status: OrderStatus,
    createdAt: string,
    shippingAddress: string)

  /** JavaScript truthiness of an optional number: present and not zero. */
  predicate Truthy(n: Option<int>)
  {
    n.Some? && n.value != 0
  }

  /** JavaScript truthiness of an optional string (a missing query parameter
      reads as `null`): present and not empty. */
  predicate Given(s: Option<string>)
  {
    s.Some? && s.value != ""
  }
}
