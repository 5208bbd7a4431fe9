/** The records of the shop store: users, categories, products, orders and
    their line items, and the errors the endpoints raise.
    Prices and totals are integer cents, so sums are exact. */
module Models {

  datatype Option<+T> = None | Some(value: T)

  /** An endpoint either returns a value or raises one of the errors below. */
  datatype Result<+T> = Success(value: T) | Failure(error: Error)

  /** One constructor per `HTTPException` the core raises. */
  datatype Error =
    | Unauthenticated                                  // invalid or expired token
    | UserNotFound                                     // the token's email matches no user
    | InactiveUser                                     // the matched user is not active
    | Forbidden                                        // not admin, or not the order's owner
    | ProductNotFound(productId: int)
    | InsufficientStock(productName: string, available: int)
    | OrderNotFound
    | CategoryNotFound
    | CategoryNameTaken
    | CategoryHasProducts(count: nat)

  /** A field of an update request: left out by the client, or set to a value
      (what `dict(exclude_unset=True)` keeps). */
  datatype Patch<+T> = Unset | Set(value: T)

  datatype User = User(id: int, email: string, isActive: bool, isAdmin: bool)

  datatype Category = Category(id: int, name: string, description: Option<string>)

  datatype Product = Product(
    id: int,
    name: string,
    description: Option<string>,
    price: int,
    stock: int,
    categoryId: int,
    imageUrl: Option<string>)

  /** `PENDING` is the status of a new order; the others follow the order life cycle. */
  datatype OrderStatus = Pending | Processing | Shipped | Delivered | Cancelled

  /** A persisted line: the price is a snapshot taken when the order was placed. */
  datatype OrderItem = OrderItem(id: int, orderId: int, productId: int, quantity: int, price: int)

  datatype Order = Order(id: int, userId: int, total: int, status: OrderStatus, items: seq<OrderItem>)

  /** A priced line of an order, without the identities of the stored item. */
  datatype Line = Line(productId: int, quantity: int, price: int)

  /** The sum of price × quantity over the lines. */
  function LinesTotal(lines: seq<Line>): int
  {
    if lines == [] then 0
    else LinesTotal(lines[..|lines| - 1]) + lines[|lines| - 1].price * lines[|lines| - 1].quantity
  }

  /** The priced lines recorded by a sequence of order items. */
  function ItemLines(items: seq<OrderItem>): (r: seq<Line>)
    ensures |r| == |items|
    ensures forall i :: 0 <= i < |items| ==>
      r[i] == Line(items[i].productId, items[i].quantity, items[i].price)
  {
    seq(|items|, i requires 0 <= i < |items| => Line(items[i].productId, items[i].quantity, items[i].price))
  }

  /** Every line of positive price and quantity adds to the total, so a
      non-empty such order has a positive total. */
  lemma {:induction false} LinesTotalPositive(lines: seq<Line>)
    requires |lines| > 0
    requires forall i :: 0 <= i < |lines| ==> lines[i].price > 0 && lines[i].quantity > 0
    ensures LinesTotal(lines) > 0
  {
    var n := |lines| - 1;
    var last := lines[n];
    assert last.price * last.quantity > 0 by {
      assert last.price >= 1 && last.quantity >= 1;
    }
    if n > 0 {
      LinesTotalPositive(lines[..n]);
    }
  }
}
