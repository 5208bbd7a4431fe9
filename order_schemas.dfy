/** The request and response shapes of the order endpoints, and the field
    constraints the request validator enforces before an endpoint runs. */
module OrderSchemas {
  import opened Models
  import opened Query

  /** One requested line: a product id and a quantity. */
  datatype OrderItemCreate = OrderItemCreate(productId: int, quantity: int)

  /** The body of an order placement. */
  datatype OrderCreate = OrderCreate(items: seq<OrderItemCreate>)

  /** The body of a status update; only members of `OrderStatus` can be given. */
  datatype OrderStatusUpdate = OrderStatusUpdate(status: OrderStatus)

  /** The quantity of a requested line must be greater than 0. */
  predicate OrderItemCreateValid(item: OrderItemCreate)
  {
    item.quantity > 0
  }

  /** An order must have at least one line, each of them valid. */
  predicate OrderCreateValid(order: OrderCreate)
  {
    && |order.items| >= 1
    && forall i :: 0 <= i < |order.items| ==> OrderItemCreateValid(order.items[i])
  }

  /** A line as the client sees it. The product's name is read from the
      product the line refers to; it is absent once that product is gone. */
  datatype OrderItemResponse = OrderItemResponse(
    id: int, productId: int, quantity: int, price: int, productName: Option<string>)

  datatype OrderResponse = OrderResponse(
    id: int, userId: int, total: int, status: OrderStatus, items: seq<OrderItemResponse>)

  /** The name of the product with id `productId`, if there is one. */
  function ProductName(products: seq<Product>, productId: int): (r: Option<string>)
    ensures r.Some? ==> exists p :: p in products && p.id == productId && p.name == r.value
    ensures r.None? ==> forall p :: p in products ==> p.id != productId
  {
    match First(products, (p: Product) => p.id == productId)
    case None => None
    case Some(k) => Some(products[k].name)
  }

  /** The response of an order: its own fields, and every one of its items
      in order, each with its snapshot price and its product's name. */
  function ToOrderResponse(order: Order, products: seq<Product>): (r: OrderResponse)
    ensures r.id == order.id && r.userId == order.userId
    ensures r.total == order.total && r.status == order.status
    ensures |r.items| == |order.items|
    ensures forall i :: 0 <= i < |order.items| ==>
      && r.items[i].id == order.items[i].id
      && r.items[i].productId == order.items[i].productId
      && r.items[i].quantity == order.items[i].quantity
      && r.items[i].price == order.items[i].price
      && r.items[i].productName == ProductName(products, order.items[i].productId)
      && (forall p :: p in products && p.id == order.items[i].productId ==> r.items[i].productName.Some?)
  {
    var items := order.items;
    OrderResponse(order.id, order.userId, order.total, order.status,
      seq(|items|, i requires 0 <= i < |items| =>
        OrderItemResponse(items[i].id, items[i].productId, items[i].quantity, items[i].price,
                          ProductName(products, items[i].productId))))
  }

  /** The order of 2 units of "Test Product" at 100.00: its response totals
      200.00 and its one item carries quantity 2, price 100.00 and the
      product's name. */
  lemma {:induction false} OrderResponseScenario()
    ensures
      var products := [Product(1, "Test Product", None, 10000, 8, 1, None)];
      var r := ToOrderResponse(Order(1, 1, 20000, Pending, [OrderItem(1, 1, 1, 2, 10000)]), products);
      && r.total == 20000 && |r.items| == 1
      && r.items[0].quantity == 2 && r.items[0].price == 10000
      && r.items[0].productName == Some("Test Product")
  {
    var products := [Product(1, "Test Product", None, 10000, 8, 1, None)];
    assert First(products, (p: Product) => p.id == 1) == Some(0);
  }
}
