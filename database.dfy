/** The database session: one table per record kind, each held in insertion
    order, and the next id each auto-incremented table hands out. */
module Database {
  import opened Models

  predicate UserIdsUnique(users: seq<User>)
  {
    forall i, j :: 0 <= i < j < |users| ==> users[i].id != users[j].id
  }

  /** Ids are positive, below the next id to hand out, and pairwise distinct. */
  predicate CategoryIdsValid(categories: seq<Category>, next: int)
  {
    && (forall i :: 0 <= i < |categories| ==> 0 < categories[i].id < next)
    && (forall i, j :: 0 <= i < j < |categories| ==> categories[i].id != categories[j].id)
  }

  predicate ProductIdsUnique(products: seq<Product>)
  {
    forall i, j :: 0 <= i < j < |products| ==> products[i].id != products[j].id
  }

  predicate ProductIdsValid(products: seq<Product>, next: int)
  {
    && (forall i :: 0 <= i < |products| ==> 0 < products[i].id < next)
    && ProductIdsUnique(products)
  }

  predicate OrderIdsUnique(orders: seq<Order>)
  {
    forall i, j :: 0 <= i < j < |orders| ==> orders[i].id != orders[j].id
  }

  predicate OrderIdsValid(orders: seq<Order>, next: int)
  {
    && (forall i :: 0 <= i < |orders| ==> 0 < orders[i].id < next)
    && OrderIdsUnique(orders)
  }

  /** No two order items, in the same order or in two orders, share an id. */
  predicate ItemIdsUnique(orders: seq<Order>)
  {
    forall i, j, a, b ::
      (0 <= i < |orders| && 0 <= j < |orders| && 0 <= a < |orders[i].items| && 0 <= b < |orders[j].items|
       && (i != j || a != b)) ==> orders[i].items[a].id != orders[j].items[b].id
  }

  /** An order's items belong to it, were numbered before `nextItemId`, and
      its total is the sum of their snapshot prices times quantities. */
  predicate OrderConsistent(order: Order, nextItemId: int)
  {
    && (forall i :: 0 <= i < |order.items| ==>
          order.items[i].orderId == order.id && 0 < order.items[i].id < nextItemId)
    && order.total == LinesTotal(ItemLines(order.items))
  }

  /** The integrity the store keeps: unique ids on every table (order items
      included), each below its table's next id, and every order consistent
      with its items. */
  predicate Consistent(
    users: seq<User>, categories: seq<Category>, products: seq<Product>, orders: seq<Order>,
    nextCategoryId: int, nextProductId: int, nextOrderId: int, nextItemId: int)
  {
    && UserIdsUnique(users)
    && CategoryIdsValid(categories, nextCategoryId)
    && ProductIdsValid(products, nextProductId)
    && OrderIdsValid(orders, nextOrderId)
    && ItemIdsUnique(orders)
    && 1 <= nextCategoryId && 1 <= nextProductId && 1 <= nextOrderId && 1 <= nextItemId
    && forall i :: 0 <= i < |orders| ==> OrderConsistent(orders[i], nextItemId)
  }

  class Db {
    var users: seq<User>
    var categories: seq<Category>
    var products: seq<Product>
    var orders: seq<Order>
    var nextCategoryId: int
    var nextProductId: int
    var nextOrderId: int
    var nextItemId: int

    ghost predicate Valid()
      reads this
    {
      Consistent(users, categories, products, orders, nextCategoryId, nextProductId, nextOrderId, nextItemId)
    }

    /** A store holding the registered users and nothing else. */
    constructor (users: seq<User>)
      requires UserIdsUnique(users)
      ensures Valid()
      ensures this.users == users
      ensures categories == [] && products == [] && orders == []
      ensures nextCategoryId == 1 && nextProductId == 1 && nextOrderId == 1 && nextItemId == 1
    {
      this.users := users;
      categories, products, orders := [], [], [];
      nextCategoryId, nextProductId, nextOrderId, nextItemId := 1, 1, 1, 1;
    }
  }
}
