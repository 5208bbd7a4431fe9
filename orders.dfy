/** Order placement and the order queries. */
module Orders {
  import opened Models
  import opened Query
  import opened OrderSchemas
  import opened Database

  /** The check and pricing of one requested line against the products:
      the product must exist and hold at least the requested quantity; the
      line then takes the product's current price. */
  function PriceLine(products: seq<Product>, item: OrderItemCreate): (r: Result<Line>)
    ensures r == Failure(ProductNotFound(item.productId)) <==>
      forall i :: 0 <= i < |products| ==> products[i].id != item.productId
    ensures r.Failure? ==> r.error == ProductNotFound(item.productId) || r.error.InsufficientStock?
    ensures r.Failure? && r.error.InsufficientStock? ==>
      exists i :: 0 <= i < |products| && products[i].id == item.productId
        && products[i].stock < item.quantity
        && r.error == InsufficientStock(products[i].name, products[i].stock)
    ensures r.Success? ==>
      && r.value.productId == item.productId && r.value.quantity == item.quantity
      && exists i :: 0 <= i < |products| && products[i].id == item.productId
           && products[i].price == r.value.price && products[i].stock >= item.quantity
  {
    match First(products, (p: Product) => p.id == item.productId)
    case None => Failure(ProductNotFound(item.productId))
    case Some(k) =>
      if products[k].stock < item.quantity then
        Failure(InsufficientStock(products[k].name, products[k].stock))
      else
        Success(Line(products[k].id, item.quantity, products[k].price))
  }

  /** A line is priced exactly when the first product with its id holds at
      least the requested quantity; with unique ids, exactly when some
      product with its id does. */
  lemma {:induction false} PriceLineSucceeds(products: seq<Product>, item: OrderItemCreate)
    ensures PriceLine(products, item).Success? <==>
      exists i :: 0 <= i < |products| && products[i].id == item.productId && products[i].stock >= item.quantity
        && forall j :: 0 <= j < i ==> products[j].id != item.productId
    ensures ProductIdsUnique(products) ==>
      (PriceLine(products, item).Success? <==>
        exists i :: 0 <= i < |products| && products[i].id == item.productId && products[i].stock >= item.quantity)
  {
    var found := First(products, (p: Product) => p.id == item.productId);
    if found.Some? {
      var k := found.value;
      assert products[k].id == item.productId;
    }
  }

  /** The first loop of `create_order`: the lines checked and priced in the
      order they were submitted, every one against the stock as it was before
      the placement; the first failing line decides the error. */
  function Snapshot(products: seq<Product>, items: seq<OrderItemCreate>): (r: Result<seq<Line>>)
    ensures r.Success? ==> |r.value| == |items|
  {
    if items == [] then Success([])
    else match Snapshot(products, items[..|items| - 1])
      case Failure(e) => Failure(e)
      case Success(lines) =>
        match PriceLine(products, items[|items| - 1])
        case Failure(e) => Failure(e)
        case Success(line) => Success(lines + [line])
  }

  /** The total quantity the lines order of product `id`. */
  function Quantity(lines: seq<Line>, id: int): int
  {
    if lines == [] then 0
    else Quantity(lines[..|lines| - 1], id)
         + (if lines[|lines| - 1].productId == id then lines[|lines| - 1].quantity else 0)
  }

  /** The products after a placement of `lines`: every product's stock drops
      by the quantity ordered of it, nothing else changes. */
  function AfterPlacement(products: seq<Product>, lines: seq<Line>): (r: seq<Product>)
    ensures |r| == |products|
    ensures forall i :: 0 <= i < |products| ==>
      r[i] == products[i].(stock := products[i].stock - Quantity(lines, products[i].id))
  {
    seq(|products|, i requires 0 <= i < |products| =>
      products[i].(stock := products[i].stock - Quantity(lines, products[i].id)))
  }

  /** Placement succeeds exactly when every line passes its own check, and
      then it records one line per request, in order, each carrying the
      product's id, the requested quantity and the product's current price. */
  lemma {:induction false} SnapshotSucceeds(products: seq<Product>, items: seq<OrderItemCreate>)
    ensures Snapshot(products, items).Success? <==>
      forall i :: 0 <= i < |items| ==> PriceLine(products, items[i]).Success?
    ensures Snapshot(products, items).Success? ==>
      && |Snapshot(products, items).value| == |items|
      && forall i :: 0 <= i < |items| ==> Snapshot(products, items).value[i] == PriceLine(products, items[i]).value
  {
    if items != [] {
      var n := |items| - 1;
      var prefix := items[..n];
      SnapshotSucceeds(products, prefix);
      SnapshotExtend(products, prefix, items[n]);
      assert items == prefix + [items[n]];
    }
  }

  /** A failed placement fails with the error of the first failing line. */
  lemma {:induction false} SnapshotFailsAtFirstBadLine(products: seq<Product>, items: seq<OrderItemCreate>)
    requires Snapshot(products, items).Failure?
    ensures exists i ::
      && 0 <= i < |items|
      && PriceLine(products, items[i]) == Failure(Snapshot(products, items).error)
      && forall j :: 0 <= j < i ==> PriceLine(products, items[j]).Success?
  {
    var n := |items| - 1;
    var prefix := items[..n];
    assert forall i :: 0 <= i < n ==> prefix[i] == items[i];
    if Snapshot(products, prefix).Failure? {
      SnapshotFailsAtFirstBadLine(products, prefix);
      var i :| 0 <= i < |prefix|
        && PriceLine(products, prefix[i]) == Failure(Snapshot(products, prefix).error)
        && forall j :: 0 <= j < i ==> PriceLine(products, prefix[j]).Success?;
      assert PriceLine(products, items[i]) == Failure(Snapshot(products, items).error);
    } else {
      SnapshotSucceeds(products, prefix);
      assert PriceLine(products, items[n]) == Failure(Snapshot(products, items).error);
    }
  }

  /** Once a prefix of the lines fails, the whole placement fails the same way. */
  lemma {:induction false} SnapshotFailurePersists(products: seq<Product>, items: seq<OrderItemCreate>, n: nat)
    requires n <= |items|
    requires Snapshot(products, items[..n]).Failure?
    ensures Snapshot(products, items) == Snapshot(products, items[..n])
    decreases |items|
  {
    if n < |items| {
      var prefix := items[..|items| - 1];
      assert prefix[..n] == items[..n];
      SnapshotFailurePersists(products, prefix, n);
    } else {
      assert items[..n] == items;
    }
  }

  /** Lines for other products add nothing to a product's ordered quantity. */
  lemma {:induction false} QuantityOfUnorderedProduct(lines: seq<Line>, id: int)
    requires forall i :: 0 <= i < |lines| ==> lines[i].productId != id
    ensures Quantity(lines, id) == 0
  {
    if lines != [] {
      QuantityOfUnorderedProduct(lines[..|lines| - 1], id);
    }
  }

  /** A product ordered on exactly one line is ordered in that line's quantity. */
  lemma {:induction false} QuantityOfSingleLine(lines: seq<Line>, id: int, k: nat)
    requires k < |lines| && lines[k].productId == id
    requires forall i :: 0 <= i < |lines| && i != k ==> lines[i].productId != id
    ensures Quantity(lines, id) == lines[k].quantity
  {
    var n := |lines| - 1;
    if k == n {
      QuantityOfUnorderedProduct(lines[..n], id);
    } else {
      QuantityOfSingleLine(lines[..n], id, k);
    }
  }

  /** Ordering one more line lowers the stock of that line's product only. */
  lemma {:induction false} AfterPlacementStep(products: seq<Product>, lines: seq<Line>, j: nat, k: nat)
    requires ProductIdsUnique(products)
    requires j < |lines| && k < |products| && products[k].id == lines[j].productId
    ensures AfterPlacement(products, lines[..j + 1])
      == AfterPlacement(products, lines[..j])[k := AfterPlacement(products, lines[..j])[k].(stock := AfterPlacement(products, lines[..j])[k].stock - lines[j].quantity)]
  {
    assert lines[..j + 1][..j] == lines[..j];
  }

  /** No product is requested on two lines. */
  predicate DistinctProducts(items: seq<OrderItemCreate>)
  {
    forall i, j :: 0 <= i < j < |items| ==> items[i].productId != items[j].productId
  }

  /** When every product is requested on one line at most, a placement that
      passes its checks leaves no stock negative. */
  lemma {:induction false} DistinctProductsKeepStockNonNegative(products: seq<Product>, items: seq<OrderItemCreate>)
    requires ProductIdsUnique(products)
    requires forall i :: 0 <= i < |products| ==> products[i].stock >= 0
    requires DistinctProducts(items)
    requires Snapshot(products, items).Success?
    ensures forall i :: 0 <= i < |products| ==>
      AfterPlacement(products, Snapshot(products, items).value)[i].stock >= 0
  {
    var lines := Snapshot(products, items).value;
    SnapshotSucceeds(products, items);
    forall i | 0 <= i < |products|
      ensures AfterPlacement(products, lines)[i].stock >= 0
    {
      var id := products[i].id;
      if k :| 0 <= k < |lines| && lines[k].productId == id {
        QuantityOfSingleLine(lines, id, k);
        assert PriceLine(products, items[k]).Success?;
        var m :| 0 <= m < |products| && products[m].id == items[k].productId
          && products[m].price == lines[k].price && products[m].stock >= items[k].quantity;
        assert m == i;
      } else {
        QuantityOfUnorderedProduct(lines, id);
      }
    }
  }

  /** One more requested line: a failure so far stands, otherwise the new
      line's own check decides. */
  lemma {:induction false} SnapshotExtend(products: seq<Product>, items: seq<OrderItemCreate>, item: OrderItemCreate)
    ensures Snapshot(products, items + [item]) ==
      if Snapshot(products, items).Failure? then Snapshot(products, items)
      else if PriceLine(products, item).Failure? then Failure(PriceLine(products, item).error)
      else Success(Snapshot(products, items).value + [PriceLine(products, item).value])
  {
    assert (items + [item])[..|items|] == items;
  }

  /** Every line is checked against the stock before any decrement, so two
      lines of the same product can together take more than its stock: here
      two lines of 3 pass against a stock of 5 and leave it at -1. */
  lemma {:induction false} RepeatedProductCanDriveStockNegative()
    ensures
      var products := [Product(1, "Mouse", None, 5000, 5, 1, None)];
      var items := [OrderItemCreate(1, 3), OrderItemCreate(1, 3)];
      && Snapshot(products, items) == Success([Line(1, 3, 5000), Line(1, 3, 5000)])
      && AfterPlacement(products, Snapshot(products, items).value)[0].stock == -1
  {
    var products := [Product(1, "Mouse", None, 5000, 5, 1, None)];
    var item := OrderItemCreate(1, 3);
    assert First(products, (p: Product) => p.id == 1) == Some(0);
    assert PriceLine(products, item) == Success(Line(1, 3, 5000));
    SnapshotExtend(products, [], item);
    assert [] + [item] == [item];
    assert [] + [Line(1, 3, 5000)] == [Line(1, 3, 5000)];
    SnapshotExtend(products, [item], item);
    assert [item] + [item] == [item, item];
    var lines := [Line(1, 3, 5000), Line(1, 3, 5000)];
    assert [Line(1, 3, 5000)] + [Line(1, 3, 5000)] == lines;
    assert lines[..1] == [Line(1, 3, 5000)] && lines[..1][..0] == [];
    assert Quantity(lines, 1) == 6;
  }

  /** Two units of a product priced 100.00 with 10 in stock: the order totals
      200.00, its one line records the price 100.00, and 8 units remain. */
  lemma {:induction false} PlacementScenario()
    ensures
      var products := [Product(1, "Test Product", None, 10000, 10, 1, None)];
      var items := [OrderItemCreate(1, 2)];
      && Snapshot(products, items) == Success([Line(1, 2, 10000)])
      && LinesTotal(Snapshot(products, items).value) == 20000
      && AfterPlacement(products, Snapshot(products, items).value)[0].stock == 8
  {
    var products := [Product(1, "Test Product", None, 10000, 10, 1, None)];
    var item := OrderItemCreate(1, 2);
    assert First(products, (p: Product) => p.id == 1) == Some(0);
    assert PriceLine(products, item) == Success(Line(1, 2, 10000));
    SnapshotExtend(products, [], item);
    assert [] + [item] == [item];
    var lines := [Line(1, 2, 10000)];
    assert [] + lines == lines;
    assert lines[..0] == [];
  }

  /** Ten units of a product with 5 in stock are refused, naming the stock left. */
  lemma {:induction false} InsufficientStockScenario()
    ensures Snapshot([Product(1, "Test Product", None, 10000, 5, 1, None)], [OrderItemCreate(1, 10)])
      == Failure(InsufficientStock("Test Product", 5))
  {
    var products := [Product(1, "Test Product", None, 10000, 5, 1, None)];
    var item := OrderItemCreate(1, 10);
    assert First(products, (p: Product) => p.id == 1) == Some(0);
    SnapshotExtend(products, [], item);
    assert [] + [item] == [item];
  }

  /** A valid request for products of positive price has a positive total. */
  lemma {:induction false} ValidOrderHasPositiveTotal(products: seq<Product>, request: OrderCreate)
    requires OrderCreateValid(request)
    requires forall i :: 0 <= i < |products| ==> products[i].price > 0
    requires Snapshot(products, request.items).Success?
    ensures LinesTotal(Snapshot(products, request.items).value) > 0
  {
    SnapshotSucceeds(products, request.items);
    var lines := Snapshot(products, request.items).value;
    assert forall i :: 0 <= i < |lines| ==> lines[i] == PriceLine(products, request.items[i]).value;
    LinesTotalPositive(lines);
  }

  /** The placement of the first `i + 1` lines, given that of the first `i`. */
  lemma {:induction false} SnapshotNext(products: seq<Product>, items: seq<OrderItemCreate>, i: nat)
    requires i < |items|
    requires Snapshot(products, items[..i]).Success?
    ensures Snapshot(products, items[..i + 1]) ==
      if PriceLine(products, items[i]).Failure? then Failure(PriceLine(products, items[i]).error)
      else Success(Snapshot(products, items[..i]).value + [PriceLine(products, items[i]).value])
  {
    assert items[..i + 1] == items[..i] + [items[i]];
    SnapshotExtend(products, items[..i], items[i]);
  }

  /** The body of the first loop of `create_order`: the product looked up
      by id, refused when missing or short of stock, otherwise priced; also
      gives the product's row. */
  method CheckItem(products: seq<Product>, item: OrderItemCreate) returns (r: Result<Line>, row: nat)
    ensures r == PriceLine(products, item)
    ensures r.Success? ==> row < |products| && products[row].id == r.value.productId
  {
    var found := First(products, (p: Product) => p.id == item.productId);
    if found.None? {
      return Failure(ProductNotFound(item.productId)), 0;
    }
    row := found.value;
    var product := products[row];
    if product.stock < item.quantity {
      return Failure(InsufficientStock(product.name, product.stock)), row;
    }
    r := Success(Line(product.id, item.quantity, product.price));
  }

  /** The first loop of `create_order`: each requested line looked up,
      checked and priced in turn; also gives the row of each line's product
      and the running total. */
  method PriceItems(products: seq<Product>, items: seq<OrderItemCreate>)
    returns (r: Result<seq<Line>>, rows: seq<nat>, total: int)
    ensures r == Snapshot(products, items)
    ensures r.Success? ==>
      && total == LinesTotal(r.value)
      && |rows| == |r.value| == |items|
      && forall j :: 0 <= j < |rows| ==> rows[j] < |products| && products[rows[j]].id == r.value[j].productId
  {
    total := 0;
    var lines: seq<Line> := [];
    rows := [];
    var i := 0;
    while i < |items|
      invariant 0 <= i <= |items|
      invariant Snapshot(products, items[..i]) == Success(lines)
      invariant total == LinesTotal(lines)
      invariant |rows| == |lines| == i
      invariant forall j :: 0 <= j < i ==> rows[j] < |products| && products[rows[j]].id == lines[j].productId
    {
      var item := items[i];
      var priced, row := CheckItem(products, item);
      SnapshotNext(products, items, i);
      if priced.Failure? {
        r := Failure(priced.error);
        SnapshotFailurePersists(products, items, i + 1);
        return;
      }
      var line := priced.value;
      total := total + line.price * line.quantity;
      assert LinesTotal(lines + [line]) == total by {
        assert (lines + [line])[..|lines|] == lines;
      }
      lines := lines + [line];
      rows := rows + [row];
      i := i + 1;
    }
    assert items[..i] == items;
    r := Success(lines);
  }

  /** A placement keeps the store consistent: product ids are untouched, the
      new order takes the next order id, and its items the next item ids. */
  lemma {:induction false} PlacementKeepsConsistent(
    users: seq<User>, categories: seq<Category>, products: seq<Product>, orders: seq<Order>,
    nextCategoryId: int, nextProductId: int, nextOrderId: int, nextItemId: int,
    lines: seq<Line>, order: Order)
    requires Consistent(users, categories, products, orders, nextCategoryId, nextProductId, nextOrderId, nextItemId)
    requires order.id == nextOrderId
    requires OrderConsistent(order, nextItemId + |lines|)
    requires forall a :: 0 <= a < |order.items| ==> order.items[a].id == nextItemId + a
    ensures Consistent(users, categories, AfterPlacement(products, lines), orders + [order],
                       nextCategoryId, nextProductId, nextOrderId + 1, nextItemId + |lines|)
  {
    var after := AfterPlacement(products, lines);
    assert forall i :: 0 <= i < |after| ==> after[i].id == products[i].id;
    forall i | 0 <= i < |orders|
      ensures OrderConsistent(orders[i], nextItemId + |lines|)
    {
      assert OrderConsistent(orders[i], nextItemId);
    }
    var orders' := orders + [order];
    assert forall i :: 0 <= i < |orders| ==> orders'[i] == orders[i];
    NewItemIdsFresh(orders, nextItemId, order);
  }

  /** Items numbered from `nextItemId` up share no id with each other nor
      with an item of an earlier order, all of which were numbered below it. */
  lemma {:induction false} NewItemIdsFresh(orders: seq<Order>, nextItemId: int, order: Order)
    requires ItemIdsUnique(orders)
    requires forall i :: 0 <= i < |orders| ==> OrderConsistent(orders[i], nextItemId)
    requires forall a :: 0 <= a < |order.items| ==> order.items[a].id == nextItemId + a
    ensures ItemIdsUnique(orders + [order])
  {
    var orders' := orders + [order];
    forall i, j, a, b |
      0 <= i < |orders'| && 0 <= j < |orders'| && 0 <= a < |orders'[i].items| && 0 <= b < |orders'[j].items|
      && (i != j || a != b)
      ensures orders'[i].items[a].id != orders'[j].items[b].id
    {
      if i < |orders| {
        assert orders'[i] == orders[i] && OrderConsistent(orders[i], nextItemId);
      }
      if j < |orders| {
        assert orders'[j] == orders[j] && OrderConsistent(orders[j], nextItemId);
      }
    }
  }

  /** The items of an order numbered from `firstItemId`, one per line. */
  predicate ItemsOfLines(items: seq<OrderItem>, orderId: int, firstItemId: int, lines: seq<Line>)
  {
    && |items| == |lines|
    && forall k :: 0 <= k < |items| ==>
      items[k] == OrderItem(firstItemId + k, orderId, lines[k].productId, lines[k].quantity, lines[k].price)
  }

  lemma {:induction false} ItemsOfLinesConsistent(items: seq<OrderItem>, order: Order, firstItemId: int, lines: seq<Line>)
    requires 1 <= firstItemId
    requires ItemsOfLines(items, order.id, firstItemId, lines)
    requires order.items == items && order.total == LinesTotal(lines)
    ensures ItemLines(items) == lines
    ensures OrderConsistent(order, firstItemId + |lines|)
  {
    assert ItemLines(items) == lines;
  }

  /** The second loop of `create_order`: one item per line, numbered from
      the next item id, and each line's quantity taken off the product in
      its row, in place. */
  method AddItems(db: Db, orderId: int, lines: seq<Line>, rows: seq<nat>) returns (items: seq<OrderItem>)
    requires ProductIdsUnique(db.products)
    requires |rows| == |lines|
    requires forall j :: 0 <= j < |rows| ==> rows[j] < |db.products| && db.products[rows[j]].id == lines[j].productId
    modifies db
    ensures ItemsOfLines(items, orderId, old(db.nextItemId), lines)
    ensures db.nextItemId == old(db.nextItemId) + |lines|
    ensures db.products == AfterPlacement(old(db.products), lines)
    ensures db.users == old(db.users) && db.categories == old(db.categories) && db.orders == old(db.orders)
    ensures db.nextCategoryId == old(db.nextCategoryId) && db.nextProductId == old(db.nextProductId)
    ensures db.nextOrderId == old(db.nextOrderId)
  {
    items := [];
    var j := 0;
    assert lines[..0] == [];
    while j < |lines|
      invariant 0 <= j <= |lines|
      invariant ItemsOfLines(items, orderId, old(db.nextItemId), lines[..j])
      invariant db.nextItemId == old(db.nextItemId) + j
      invariant db.products == AfterPlacement(old(db.products), lines[..j])
      invariant db.users == old(db.users) && db.categories == old(db.categories) && db.orders == old(db.orders)
      invariant db.nextCategoryId == old(db.nextCategoryId) && db.nextProductId == old(db.nextProductId)
      invariant db.nextOrderId == old(db.nextOrderId)
    {
      var line := lines[j];
      assert lines[..j + 1] == lines[..j] + [line];
      items := items + [OrderItem(db.nextItemId, orderId, line.productId, line.quantity, line.price)];
      db.nextItemId := db.nextItemId + 1;
      var k := rows[j];
      AfterPlacementStep(old(db.products), lines, j, k);
      db.products := db.products[k := db.products[k].(stock := db.products[k].stock - line.quantity)];
      j := j + 1;
    }
    assert lines[..j] == lines;
  }

  /** The second half of `create_order`: the new order with one item per
      line, and each line's quantity taken off the product in its row. */
  method StoreOrder(db: Db, userId: int, total: int, lines: seq<Line>, rows: seq<nat>) returns (order: Order)
    requires db.Valid()
    requires total == LinesTotal(lines)
    requires |rows| == |lines|
    requires forall j :: 0 <= j < |rows| ==> rows[j] < |db.products| && db.products[rows[j]].id == lines[j].productId
    modifies db
    ensures db.Valid()
    ensures order.id == old(db.nextOrderId) && order.userId == userId
    ensures order.status == Pending && order.total == total
    ensures ItemLines(order.items) == lines
    ensures forall i :: 0 <= i < |order.items| ==>
      order.items[i].orderId == order.id && order.items[i].id == old(db.nextItemId) + i
    ensures db.orders == old(db.orders) + [order]
    ensures db.products == AfterPlacement(old(db.products), lines)
    ensures db.users == old(db.users) && db.categories == old(db.categories)
    ensures db.nextCategoryId == old(db.nextCategoryId) && db.nextProductId == old(db.nextProductId)
    ensures db.nextOrderId == old(db.nextOrderId) + 1
    ensures db.nextItemId == old(db.nextItemId) + |lines|
  {
    var orderId := db.nextOrderId;
    var items := AddItems(db, orderId, lines, rows);
    order := Order(orderId, userId, total, Pending, items);
    ItemsOfLinesConsistent(items, order, old(db.nextItemId), lines);
    PlacementKeepsConsistent(db.users, db.categories, old(db.products), db.orders,
      db.nextCategoryId, db.nextProductId, orderId, old(db.nextItemId), lines, order);
    db.orders := db.orders + [order];
    db.nextOrderId := orderId + 1;
  }

  /** `create_order`: check and price every line against the current stock,
      then store a `PENDING` order of the caller with one item per line, and
      take each line's quantity off its product's stock. An error raised by
      a check leaves the store as it was. */
  method CreateOrder(db: Db, request: OrderCreate, current: User) returns (r: Result<Order>)
    requires db.Valid()
    requires OrderCreateValid(request)
    modifies db
    ensures db.Valid()
    ensures r.Failure? <==> Snapshot(old(db.products), request.items).Failure?
    ensures r.Failure? ==> r.error == Snapshot(old(db.products), request.items).error && unchanged(db)
    ensures r.Success? ==>
      var lines := Snapshot(old(db.products), request.items).value;
      && r.value.id == old(db.nextOrderId)
      && r.value.userId == current.id
      && r.value.status == Pending
      && r.value.total == LinesTotal(lines)
      && ItemLines(r.value.items) == lines
      && |r.value.items| == |request.items| >= 1
      && (forall i :: 0 <= i < |r.value.items| ==>
            r.value.items[i].orderId == r.value.id && r.value.items[i].id == old(db.nextItemId) + i)
      && db.orders == old(db.orders) + [r.value]
      && db.products == AfterPlacement(old(db.products), lines)
      && db.users == old(db.users) && db.categories == old(db.categories)
      && db.nextCategoryId == old(db.nextCategoryId) && db.nextProductId == old(db.nextProductId)
      && db.nextOrderId == old(db.nextOrderId) + 1
      && db.nextItemId == old(db.nextItemId) + |lines|
  {
    var priced, rows, total := PriceItems(db.products, request.items);
    if priced.Failure? {
      return Failure(priced.error);
    }
    var order := StoreOrder(db, current.id, total, priced.value, rows);
    r := Success(order);
  }

  /** A placement keeps every product's id and name, so a product that
      existed before it is still found by id, under its old name. */
  lemma {:induction false} PlacementKeepsNames(products: seq<Product>, lines: seq<Line>, m: nat)
    requires m < |products|
    ensures exists k ::
      && 0 <= k < |products| && products[k].id == products[m].id
      && ProductName(AfterPlacement(products, lines), products[m].id) == Some(products[k].name)
  {
    var after := AfterPlacement(products, lines);
    var id := products[m].id;
    assert after[m] in after && after[m].id == id;
    var name := ProductName(after, id);
    var q :| q in after && q.id == id && q.name == name.value;
    var k :| 0 <= k < |after| && after[k] == q;
    assert products[k].id == id && products[k].name == q.name;
  }

  /** Every line of a successful placement refers to an existing product. */
  lemma {:induction false} SnapshotLinesHaveProducts(products: seq<Product>, items: seq<OrderItemCreate>)
    requires Snapshot(products, items).Success?
    ensures |Snapshot(products, items).value| == |items|
    ensures forall i :: 0 <= i < |Snapshot(products, items).value| ==>
      exists m :: 0 <= m < |products| && products[m].id == Snapshot(products, items).value[i].productId
  {
    SnapshotSucceeds(products, items);
    var lines := Snapshot(products, items).value;
    forall i | 0 <= i < |lines|
      ensures exists m :: 0 <= m < |products| && products[m].id == lines[i].productId
    {
      assert lines[i] == PriceLine(products, items[i]).value;
    }
  }

  /** An order whose lines all refer to existing products: its response,
      read against the stock after its placement, names each line's product. */
  lemma {:induction false} ResponseNamesProducts(products: seq<Product>, lines: seq<Line>, order: Order)
    requires ItemLines(order.items) == lines
    requires forall i :: 0 <= i < |lines| ==> exists m :: 0 <= m < |products| && products[m].id == lines[i].productId
    ensures forall i :: 0 <= i < |order.items| ==>
      exists k ::
        && 0 <= k < |products| && products[k].id == order.items[i].productId
        && ToOrderResponse(order, AfterPlacement(products, lines)).items[i].productName == Some(products[k].name)
  {
    forall i | 0 <= i < |order.items|
      ensures exists k ::
        && 0 <= k < |products| && products[k].id == order.items[i].productId
        && ToOrderResponse(order, AfterPlacement(products, lines)).items[i].productName == Some(products[k].name)
    {
      assert lines[i].productId == order.items[i].productId;
      var m :| 0 <= m < |products| && products[m].id == lines[i].productId;
      PlacementKeepsNames(products, lines, m);
    }
    assert forall i :: 0 <= i < |order.items| ==>
      exists k ::
        && 0 <= k < |products| && products[k].id == order.items[i].productId
        && ToOrderResponse(order, AfterPlacement(products, lines)).items[i].productName == Some(products[k].name);
  }

  /** The response of a placed order, read against the stock after the
      placement, lists every requested line and names each line's product. */
  lemma {:induction false} PlacedOrderResponse(products: seq<Product>, items: seq<OrderItemCreate>, order: Order)
    requires Snapshot(products, items).Success?
    requires ItemLines(order.items) == Snapshot(products, items).value
    ensures |order.items| == |items|
    ensures forall i :: 0 <= i < |order.items| ==>
      exists k ::
        && 0 <= k < |products| && products[k].id == order.items[i].productId
        && ToOrderResponse(order, AfterPlacement(products, Snapshot(products, items).value)).items[i].productName
             == Some(products[k].name)
  {
    SnapshotLinesHaveProducts(products, items);
    ResponseNamesProducts(products, Snapshot(products, items).value, order);
  }

  /** `get_my_orders`: a page of the caller's own orders, in table order. */
  function GetMyOrders(orders: seq<Order>, current: User, skip: nat, limit: nat): (r: seq<Order>)
    ensures |r| <= limit
    ensures forall i :: 0 <= i < |r| ==> r[i] in orders && r[i].userId == current.id
    ensures var mine := Filter(orders, (o: Order) => o.userId == current.id);
      && |r| == (if skip >= |mine| then 0 else if |mine| - skip <= limit then |mine| - skip else limit)
      && forall i :: 0 <= i < |r| ==> r[i] == mine[skip + i]
  {
    Page(Filter(orders, (o: Order) => o.userId == current.id), skip, limit)
  }

  /** A first page at least as large as the table lists every order of the caller. */
  lemma {:induction false} MyOrdersComplete(orders: seq<Order>, current: User, limit: nat)
    requires |orders| <= limit
    ensures forall i :: 0 <= i < |orders| && orders[i].userId == current.id ==>
      orders[i] in GetMyOrders(orders, current, 0, limit)
  {
    var mine := Filter(orders, (o: Order) => o.userId == current.id);
    PageAll(mine, limit);
  }

  /** `get_order`: the order with that id, shown to its owner or to an admin. */
  function GetOrder(orders: seq<Order>, orderId: int, current: User): (r: Result<Order>)
    ensures r == Failure(OrderNotFound) <==> forall i :: 0 <= i < |orders| ==> orders[i].id != orderId
    ensures r.Success? ==> r.value in orders && r.value.id == orderId
    ensures r.Success? ==> r.value.userId == current.id || current.isAdmin
    ensures r.Success? || r.error in {OrderNotFound, Forbidden}
  {
    match First(orders, (o: Order) => o.id == orderId)
    case None => Failure(OrderNotFound)
    case Some(k) =>
      if orders[k].userId != current.id && !current.isAdmin then Failure(Forbidden)
      else Success(orders[k])
  }

  /** With unique order ids, an existing order is shown exactly to its owner
      and to admins, and every other caller is refused as forbidden. */
  lemma {:induction false} GetOrderAccess(orders: seq<Order>, k: nat, current: User)
    requires OrderIdsUnique(orders)
    requires k < |orders|
    ensures GetOrder(orders, orders[k].id, current).Success? <==>
      orders[k].userId == current.id || current.isAdmin
    ensures GetOrder(orders, orders[k].id, current).Success? ==>
      GetOrder(orders, orders[k].id, current).value == orders[k]
    ensures GetOrder(orders, orders[k].id, current).Failure? ==>
      GetOrder(orders, orders[k].id, current).error == Forbidden
  {
    var found := First(orders, (o: Order) => o.id == orders[k].id);
    assert found.Some?;
    assert found.value == k;
  }

  /** `get_all_orders`: a page of all orders, of one status when a status is given. */
  function GetAllOrders(orders: seq<Order>, status: Option<OrderStatus>, skip: nat, limit: nat): (r: seq<Order>)
    ensures |r| <= limit
    ensures forall i :: 0 <= i < |r| ==> r[i] in orders
    ensures status.Some? ==> forall i :: 0 <= i < |r| ==> r[i].status == status.value
    ensures status.None? ==> forall i :: 0 <= i < |r| ==> skip + i < |orders| && r[i] == orders[skip + i]
    ensures var selected := if status.Some? then Filter(orders, (o: Order) => o.status == status.value) else orders;
      && |r| == (if skip >= |selected| then 0 else if |selected| - skip <= limit then |selected| - skip else limit)
      && forall i :: 0 <= i < |r| ==> r[i] == selected[skip + i]
  {
    // any given member of the status enumeration is truthy, so a given status always filters
    var selected := if status.Some? then Filter(orders, (o: Order) => o.status == status.value) else orders;
    Page(selected, skip, limit)
  }

  /** With no status and a page as large as the table, every order is listed. */
  lemma {:induction false} AllOrdersComplete(orders: seq<Order>, limit: nat)
    requires |orders| <= limit
    ensures GetAllOrders(orders, None, 0, limit) == orders
  {
    PageAll(orders, limit);
  }

  /** A status change keeps the store consistent: an order's consistency
      does not depend on its status. */
  lemma {:induction false} StatusChangeKeepsConsistent(
    users: seq<User>, categories: seq<Category>, products: seq<Product>, orders: seq<Order>,
    nextCategoryId: int, nextProductId: int, nextOrderId: int, nextItemId: int,
    k: nat, status: OrderStatus)
    requires Consistent(users, categories, products, orders, nextCategoryId, nextProductId, nextOrderId, nextItemId)
    requires k < |orders|
    ensures Consistent(users, categories, products, orders[k := orders[k].(status := status)],
                       nextCategoryId, nextProductId, nextOrderId, nextItemId)
  {
    var orders' := orders[k := orders[k].(status := status)];
    assert forall i :: 0 <= i < |orders| ==> orders'[i].id == orders[i].id && orders'[i].items == orders[i].items;
    assert forall i :: 0 <= i < |orders| ==> OrderConsistent(orders[i], nextItemId);
  }

  /** `update_order_status`: the order with that id takes the new status;
      nothing else changes. An unknown id is refused and changes nothing. */
  method UpdateOrderStatus(db: Db, orderId: int, update: OrderStatusUpdate) returns (r: Result<Order>)
    requires db.Valid()
    modifies db
    ensures db.Valid()
    ensures r.Failure? <==> forall i :: 0 <= i < |old(db.orders)| ==> old(db.orders)[i].id != orderId
    ensures r.Failure? ==> r.error == OrderNotFound && unchanged(db)
    ensures r.Success? ==>
      exists k :: 0 <= k < |old(db.orders)| && old(db.orders)[k].id == orderId
        && db.orders == old(db.orders)[k := old(db.orders)[k].(status := update.status)]
        && r.value == db.orders[k]
    ensures db.users == old(db.users) && db.categories == old(db.categories) && db.products == old(db.products)
    ensures db.nextCategoryId == old(db.nextCategoryId) && db.nextProductId == old(db.nextProductId)
    ensures db.nextOrderId == old(db.nextOrderId) && db.nextItemId == old(db.nextItemId)
  {
    var found := First(db.orders, (o: Order) => o.id == orderId);
    if found.None? {
      return Failure(OrderNotFound);
    }
    var k := found.value;
    StatusChangeKeepsConsistent(db.users, db.categories, db.products, db.orders,
      db.nextCategoryId, db.nextProductId, db.nextOrderId, db.nextItemId, k, update.status);
    db.orders := db.orders[k := db.orders[k].(status := update.status)];
    r := Success(db.orders[k]);
  }
}
