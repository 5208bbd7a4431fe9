# Shop store of ecommerce-api, modelled in Dafny

A model of the e-commerce API's store and endpoints:

- users, categories, products, orders and order items;
- the authorization guard that resolves a bearer token to an active user, and optionally to an admin;
- order placement, with stock checks, price snapshots, the running total and stock decrements;
- the order queries and the status update;
- the product catalogue: a filtered, paginated listing, lookup, creation, partial update and deletion;
- the categories: listing, lookup, creation under a unique name, partial update, and deletion only while empty;
- the request validation of the order and product schemas.

The database session is the class `Database.Db`. It holds one `seq` per table, in insertion order, which the model takes as the order of every listing (see "Left out"), and the next id each table hands out. The predicate `Database.Consistent` is the integrity the store keeps:

- unique ids on every table, order items included, across all orders;
- every id below its table's next id;
- every order's items belong to it, and its total is the sum of its items' price × quantity.

Every state-changing endpoint is a module-level method that takes the store `db: Db` and preserves `db.Valid()`. Each one states the whole new state in terms of the old one, and states every error path with the store unchanged. The read-only endpoints are functions. An endpoint raising an `HTTPException` is a `Failure` of the `Models.Error` datatype.

Query building blocks live in module `Query`:

- `First` is `filter(...).first()`.
- `Filter` is `filter(...)`.
- `Page` is `offset(skip).limit(limit)`.
- `RemoveAt` is `delete`.
- `Like` and `ILike` are SQL `LIKE` and `ILIKE`, with `%` and `_` as wild cards and ASCII lower-casing.

Prices and totals are integer cents. The float prices of the source become integers, so the sum `total == Σ price × quantity` is exact.

Behaviour modelled as written, with a lemma exhibiting it:

- Every line of an order is checked against the stock as it was before the placement. So two lines of the same product can together take more than its stock and leave it negative (`Orders.RepeatedProductCanDriveStockNegative`). When no product is repeated, stock stays non-negative (`Orders.DistinctProductsKeepStockNonNegative`).
- The category check of `update_product` runs only for a truthy `category_id`. The router code lets a `category_id` of 0 through unchecked and writes it onto the product, although no category has id 0 (`Products.ZeroCategoryIdIsWritten`). Whether the database's foreign key would then refuse the commit is not modelled.
- Only creation checks category names. The router code of an update writes a name that another category already has without any check (`Categories.UpdateCanDuplicateName`). Whether a unique constraint of the database would then refuse the commit is not modelled.
- Listing filters follow Python truthiness. A `category_id`, `min_price` or `max_price` of 0, or an empty search string, is not applied (`Products.FalsyFiltersIgnored`).

## Model

| member | source | states |
|---|---|---|
| Query.First | app/routers/orders.py:24 | the first index whose row satisfies the condition; none exactly when no row does |
| Query.Filter | app/routers/orders.py:80-81 | no more rows than the table: every row kept is a row of the table that satisfies the condition, and every row of the table that satisfies it is kept |
| Query.FilterFilter | app/routers/products.py:32-44 | two filters applied in turn select exactly the rows that pass both |
| Query.Page | app/routers/orders.py:82 | at most `limit` rows: the rows from position `skip` on, in order, with the exact length as offset/limit gives it |
| Query.RemoveAt | app/routers/products.py:132 | the table minus exactly the row at the index; rows before it keep their place, rows after it move up by one |
| Query.Like | app/routers/products.py:44 | SQL `LIKE` with `%` and `_` as wild cards; a pattern with no wild card matches exactly itself |
| Query.ILike | app/routers/products.py:44 | `LIKE` after ASCII lower-casing both sides; a pattern with no wild card matches exactly the texts equal to it up to case |
| Query.SubstringLike | app/routers/products.py:44 | `LIKE '%s%'` with a wild-card free `s` holds exactly when `s` occurs in the text |
| Query.SubstringILike | app/routers/products.py:44 | `ILIKE '%s%'` with a wild-card free `s` holds exactly when the lower-cased `s` occurs in the lower-cased text |
| Models.LinesTotalPositive | app/routers/orders.py:37-38 | lines of positive price and quantity give a positive total |
| Dependencies.UserByEmail | app/utils/dependencies.py:27 | the user found has the email and is in the table; none exactly when no user has that email |
| Dependencies.GetCurrentUser | app/utils/dependencies.py:10-40 | refused as unauthenticated exactly when the token does not decode to an email; user-not-found exactly when no user has the token's email; inactive exactly when the matched user is inactive; a returned user is the first user with the token's email, and is active; no other error |
| Dependencies.GetCurrentAdminUser | app/utils/dependencies.py:42-53 | succeeds exactly when the current user resolves and is an admin, and then returns that same user; passes on the guard's own errors; otherwise forbidden |
| Dependencies.InactiveAdminIsRefusedAsInactive | app/utils/dependencies.py:10-53 | the checks run token, existence, active, admin: an inactive admin is refused as inactive |
| Dependencies.ActiveCustomerIsForbidden | app/utils/dependencies.py:42-53 | an active non-admin passes `get_current_user` and is refused as forbidden by the admin guard |
| OrderSchemas.OrderItemCreateValid | app/schemas/order.py:8 | a requested line is valid exactly when its quantity is greater than 0 |
| OrderSchemas.OrderCreateValid | app/schemas/order.py:20-21 | an order request is valid exactly when it has at least one line and every line is valid |
| OrderSchemas.ProductName | app/schemas/order.py:15 | the name of a product with the item's product id, or none when no such product exists |
| OrderSchemas.ToOrderResponse | app/schemas/order.py:10-30 | the response carries the order's id, owner, total and status, and all its items in order, each with its id, product id, quantity and snapshot price, and the product name as the lookup of its product id finds it, so present whenever the product exists |
| OrderSchemas.OrderResponseScenario | tests/test_orders.py:22-28 | the response of an order of 2 units at 100.00 shows a total of 200.00 and one item of quantity 2, price 100.00 and the product's name |
| Orders.PriceLine | app/routers/orders.py:24-45 | product-not-found, carrying the requested id, exactly when no product has the id; otherwise insufficient stock, naming the product and its stock, when the stock is below the quantity; otherwise a line with the product's id, the requested quantity and the product's current price |
| Orders.PriceLineSucceeds | app/routers/orders.py:24-45 | a line is priced exactly when the first product with its id holds at least the requested quantity; with unique ids, exactly when some product with its id does |
| Orders.Snapshot | app/routers/orders.py:23-45 | the lines checked and priced in submission order, the first failure deciding; a success has one line per request (its contents and the failure case are the lemmas below) |
| Orders.SnapshotSucceeds | app/routers/orders.py:23-45 | the pricing loop succeeds exactly when every line passes its check, and then yields one line per request, in submission order, each as the line's own check priced it |
| Orders.SnapshotFailsAtFirstBadLine | app/routers/orders.py:23-35 | a failed placement fails with the error of the first failing line, every earlier line having passed |
| Orders.SnapshotFailurePersists | app/routers/orders.py:23-35 | once a prefix of the lines fails, the whole placement fails with that error |
| Orders.SnapshotExtend | app/routers/orders.py:23-45 | one more line: a failure so far stands, otherwise the new line's check decides and its line is appended |
| Orders.AfterPlacement | app/routers/orders.py:64-65 | every product keeps its fields and row, and its stock drops by the total quantity the lines order of it |
| Orders.QuantityOfUnorderedProduct | app/routers/orders.py:64-65 | a product no line orders keeps its stock |
| Orders.QuantityOfSingleLine | app/routers/orders.py:64-65 | a product ordered on exactly one line loses exactly that line's quantity |
| Orders.AfterPlacementStep | app/routers/orders.py:55-65 | decrementing one more line's product, in place in its row, gives the products after one more line |
| Orders.DistinctProductsKeepStockNonNegative | app/routers/orders.py:31-65 | with no product requested twice, a placement that passes its checks leaves every stock non-negative |
| Orders.RepeatedProductCanDriveStockNegative | app/routers/orders.py:31-65 | two lines of 3 units of a product with stock 5 both pass, and the stock ends at -1 |
| Orders.PlacementScenario | tests/test_orders.py:4-28 | 2 units at 100.00 with 10 in stock: one line priced 100.00 of quantity 2, a total of 200.00, and 8 units left |
| Orders.InsufficientStockScenario | tests/test_orders.py:30-49 | 10 units of a product with 5 in stock are refused as insufficient stock, naming the product and the 5 units left |
| Orders.ValidOrderHasPositiveTotal | app/schemas/order.py:8-21 | a valid request, which has at least one line and positive quantities, over products of positive price totals more than 0 |
| Orders.CheckItem | app/routers/orders.py:24-45 | one loop step: the result is the line's own check and pricing, and on success the row holds the product |
| Orders.PriceItems | app/routers/orders.py:20-45 | the loop's result is the placement's pricing, including its first error; on success the running total is the sum of price × quantity over the lines, and each line's row holds its product |
| Orders.PlacementKeepsConsistent | app/routers/orders.py:47-65 | appending the new order under the next order id, with items under the next item ids, and decrementing stock keeps the store consistent |
| Orders.NewItemIdsFresh | app/routers/orders.py:55-62 | items numbered from the next item id up share no id with each other or with any earlier order's item |
| Orders.ItemsOfLinesConsistent | app/routers/orders.py:55-62 | items numbered from the next item id, one per line, record exactly the lines and make the order consistent |
| Orders.AddItems | app/routers/orders.py:55-65 | one item per line, in order, numbered from the next item id, with the line's product, quantity and price; the products become those after the placement; nothing else changes |
| Orders.StoreOrder | app/routers/orders.py:47-68 | a `PENDING` order of the caller under the next order id, with the total and the items of the lines, is appended; stock drops by the ordered quantities; the store stays consistent |
| Orders.CreateOrder | app/routers/orders.py:14-70 | fails exactly when the pricing fails, with its error and the store unchanged; otherwise appends one `PENDING` order of the caller, whose total is Σ price × quantity of the lines, with one item per requested line, and takes each line's quantity off its product's stock |
| Orders.PlacementKeepsNames | app/routers/orders.py:64-65 | a placement changes only stock, so every product is still found by its id under its old name |
| Orders.SnapshotLinesHaveProducts | app/routers/orders.py:24-45 | a successful placement has one line per request, each referring to an existing product |
| Orders.ResponseNamesProducts | app/schemas/order.py:10-30 | when every line of an order refers to an existing product, its response, read after the placement, names each item's product |
| Orders.PlacedOrderResponse | app/routers/orders.py:14-70 | the `OrderResponse` that `create_order` returns lists one item per requested line and names each item's product, as it was before the placement |
| Orders.GetMyOrders | app/routers/orders.py:72-84 | at most `limit` orders, each an order of the table owned by the caller; exactly the window of the caller's orders from position `skip`, of length `min(limit, count - skip)` (0 past the end) |
| Orders.MyOrdersComplete | app/routers/orders.py:80-82 | a first page as large as the table lists every order of the caller |
| Orders.GetOrder | app/routers/orders.py:86-106 | not-found exactly when no order has the id; a returned order has the id and belongs to the caller or the caller is admin; no other error than not-found and forbidden |
| Orders.GetOrderAccess | app/routers/orders.py:92-106 | with unique ids, an existing order is returned exactly to its owner and to admins, and is that very order; anyone else is refused as forbidden |
| Orders.GetAllOrders | app/routers/orders.py:108-123 | at most `limit` orders of the table; with a status, only orders of that status; exactly the window from position `skip`, of length `min(limit, count - skip)`, of the orders with that status, or of the whole table without one |
| Orders.AllOrdersComplete | app/routers/orders.py:116-121 | with no status and a page as large as the table, every order is listed in order |
| Orders.StatusChangeKeepsConsistent | app/routers/orders.py:140 | overwriting one order's status keeps the store consistent |
| Orders.UpdateOrderStatus | app/routers/orders.py:125-144 | not-found exactly when no order has the id, then nothing changes; otherwise exactly that order's status becomes the requested one, and it is returned |
| Products.SearchPattern | app/routers/products.py:44 | the search term between two `%`: a `%`, then exactly the term, then a `%` |
| Products.ByCategory | app/routers/products.py:34-35 | keeps only rows of the table, all in the category when the id is truthy; the table unchanged otherwise |
| Products.ByMinPrice | app/routers/products.py:37-38 | keeps only rows of the table, all priced at least the minimum when it is truthy; the table unchanged otherwise |
| Products.ByMaxPrice | app/routers/products.py:40-41 | keeps only rows of the table, all priced at most the maximum when it is truthy; the table unchanged otherwise |
| Products.BySearch | app/routers/products.py:43-44 | keeps only rows of the table, all with a name matching the pattern case-insensitively when the term is non-empty; the table unchanged otherwise |
| Products.Selected | app/routers/products.py:32-44 | the four steps chained in the source's order: no more rows than the table, each a row of the table |
| Products.ByCategoryFilters | app/routers/products.py:34-35 | the category step keeps exactly the products of the category when the id is truthy, and every product otherwise |
| Products.ByMinPriceFilters | app/routers/products.py:37-38 | the minimum step keeps exactly the products priced at least the minimum when it is truthy, and every product otherwise |
| Products.ByMaxPriceFilters | app/routers/products.py:40-41 | the maximum step keeps exactly the products priced at most the maximum when it is truthy, and every product otherwise |
| Products.BySearchFilters | app/routers/products.py:43-44 | the search step keeps exactly the products whose name matches the pattern case-insensitively when the term is non-empty, and every product otherwise |
| Products.CategoryAndPriceFilters | app/routers/products.py:34-41 | the category and price steps together keep exactly the products that pass all three applied filters |
| Products.SelectedIsMatches | app/routers/products.py:32-44 | the chained query keeps, in table order, exactly the products that satisfy every applied filter |
| Products.GetProducts | app/routers/products.py:13-47 | at most `limit` products, each a product of the table that satisfies every applied filter; exactly the window of the matching products from position `skip`, of length `min(limit, count - skip)` (0 past the end) |
| Products.GetProductsComplete | app/routers/products.py:32-46 | a first page as large as the table lists every product that satisfies the filters |
| Products.FalsyFiltersIgnored | app/routers/products.py:34-44 | a filter given as 0 or as the empty string gives the same listing as leaving it out |
| Products.SearchIsCaseInsensitiveSubstring | app/routers/products.py:43-44 | a wild-card free search term matches exactly the names that contain it, ignoring the case of ASCII letters |
| Products.SearchScenario | tests/test_products.py:79-92 | searching "notebook" lists the product "Notebook Dell" |
| Products.MaxPriceScenario | tests/test_products.py:62-77 | a maximum of 100.00 lists the product at 10.00 and not the one at 1000.00 |
| Products.GetProduct | app/routers/products.py:49-60 | not-found, carrying the id, exactly when no product has the id; otherwise a product of the table with that id |
| Products.SetAttr | app/routers/products.py:110 | writing one field keeps the product's id |
| Products.ApplyFields | app/routers/products.py:109-110 | the loop over the set fields keeps the product's id |
| Products.ApplyFieldsMerges | app/routers/products.py:109-110 | the loop over the set fields is exactly the partial update: set fields take the new values, all others are kept |
| Products.CategoryCheckPasses | app/routers/products.py:101-107 | the category check passes exactly when no truthy category id is given or a category with that id exists |
| Products.ZeroCategoryIdIsWritten | app/routers/products.py:101-110 | the router's check lets a `category_id` of 0 through and the update writes it onto the product, though no category has id 0 |
| Products.ValidatedStockNonNegative | app/schemas/product.py:5-22 | a validated new product has positive price and non-negative stock; a valid update keeps stock non-negative and a positive price positive |
| ProductSchemas.ProductCreateValid | app/schemas/product.py:8-9 | a new product is valid exactly when its price is greater than 0 and its stock at least 0 |
| ProductSchemas.ProductUpdateValid | app/schemas/product.py:19-20 | an update is valid exactly when a given price is greater than 0 and a given stock at least 0 |
| ProductSchemas.SetFields | app/routers/products.py:109 | `dict(exclude_unset=True)`: a field entry is present exactly when the client set that field, and carries the value it was given |
| Products.NewProduct | app/routers/products.py:78 | the new product carries every field of the request, under the id the table hands out |
| Products.AppendProductIdsValid | app/routers/products.py:78-79 | appending under the next id keeps product ids valid |
| Products.ReplaceProductIdsValid | app/routers/products.py:109-110 | rewriting a product in its row without changing its id keeps product ids valid |
| Products.RemoveProductKeepsOthers | app/routers/products.py:132 | removing the row of a product with a unique id removes exactly the products with that id |
| Products.RemoveProductIdsValid | app/routers/products.py:132 | removing a row keeps product ids valid |
| Products.CreateProduct | app/routers/products.py:62-82 | not-found exactly when the category does not exist, then nothing changes; otherwise the product built from the request is appended under the next id, and nothing else changes |
| Products.WriteFields | app/routers/products.py:109-110 | the loop writes the fields in turn onto the product in its row, and changes nothing else |
| Products.UpdateProduct | app/routers/products.py:84-114 | fails exactly when no product has the id (product-not-found) or a truthy category id names no category (category-not-found), then nothing changes; otherwise the stored product becomes its partial update, in its row, and nothing else changes |
| Products.DeleteProduct | app/routers/products.py:116-134 | not-found exactly when no product has the id, then nothing changes; otherwise exactly that product leaves the table: every other product stays, and no other record changes |
| Categories.SetFields | app/routers/categories.py:64 | a name entry exactly when the name was set, with its value, and likewise for the description |
| Categories.GetCategories | app/routers/categories.py:12-19 | at most `limit` categories: those from position `skip` on, in order, and exactly `min(limit, count - skip)` of them (0 past the end) |
| Categories.GetCategory | app/routers/categories.py:21-29 | not-found exactly when no category has the id; otherwise a category of the table with that id |
| Categories.GetCategoryFindsIt | app/routers/categories.py:23 | with unique ids, the lookup returns the one category with that id |
| Categories.ProductsOf | app/routers/categories.py:84 | exactly the products of the table in the category: each result is one, every one is a result, and it is empty exactly when no product is in it |
| Categories.SetAttr | app/routers/categories.py:65 | writing one field keeps the category's id |
| Categories.ApplyFields | app/routers/categories.py:64-65 | the loop over the set fields keeps the category's id |
| Categories.ApplyFieldsMerges | app/routers/categories.py:64-65 | the loop over the set fields is exactly the partial update: set fields take the new values, the other is kept |
| Categories.UpdateCanDuplicateName | app/routers/categories.py:50-69 | the router code writes a name another category already has without a check, so the written table no longer has unique names |
| Categories.AppendCategoryIdsValid | app/routers/categories.py:44-45 | appending under the next id keeps category ids valid |
| Categories.ReplaceCategoryIdsValid | app/routers/categories.py:64-65 | rewriting a category in its row without changing its id keeps category ids valid |
| Categories.RemoveCategoryIdsValid | app/routers/categories.py:90 | removing a row keeps category ids valid |
| Categories.CreateCategory | app/routers/categories.py:31-48 | refused exactly when some category has the name, then nothing changes; otherwise the new category is appended under the next id as the only change; unique names stay unique |
| Categories.WriteFields | app/routers/categories.py:64-65 | the loop writes the fields in turn onto the category in its row, and changes nothing else |
| Categories.UpdateCategory | app/routers/categories.py:50-69 | not-found exactly when no category has the id, then nothing changes; otherwise the stored category becomes its partial update, in its row, and nothing else changes |
| Categories.DeleteCategory | app/routers/categories.py:71-92 | fails exactly when the category does not exist (not-found) or has products (refused, with their count, which is positive), then nothing changes; otherwise exactly that category leaves the table |

The validation constraints are the predicates `OrderSchemas.OrderItemCreateValid` (quantity > 0, app/schemas/order.py:8), `OrderSchemas.OrderCreateValid` (at least one item, app/schemas/order.py:21), `ProductSchemas.ProductCreateValid` (price > 0 and stock ≥ 0, app/schemas/product.py:8-9) and `ProductSchemas.ProductUpdateValid` (the same bounds on given fields, app/schemas/product.py:16-22). They are preconditions of `Orders.CreateOrder`, `Products.CreateProduct` and `Products.UpdateProduct`, as the request validator runs before the endpoint. A status update can carry only a member of `Models.OrderStatus`, because its type is that datatype.

## Left out

- The token decoder `verify_token` (in app/utils/security): app/utils/security is not part of this model. It is the function parameter `verifyToken` of the guard. Password hashing is not modelled either.
- The SQLAlchemy session (`add`, `flush`, `commit`, `refresh`): each method's final state is the committed state. Ids come from the next-id counters of `Db`, which is how the auto-increment of the tables is modelled.
- FastAPI routing, dependency injection and HTTP status codes: each error is a constructor of `Models.Error`. The admin-only endpoints take no user. The guard is `Dependencies.GetCurrentAdminUser`, and the router runs it before the endpoint body. The routers serialize each returned order through the `OrderResponse` schema, which is `OrderSchemas.ToOrderResponse`; `Orders.PlacedOrderResponse` connects it to the order `Orders.CreateOrder` stores.
- Concurrency between simultaneous requests.
- Floating-point prices: prices are integer cents.
- The timestamps `created_at` and `updated_at`.
- `Models.OrderStatus`: app/models/order.py is not part of this model. Only `PENDING` is visible in the code. The other members are the usual life-cycle states, and no property depends on them.
- `OrderSchemas.ProductName`: the `product_name` property of the order item lives in app/models/order.py, which is not part of this model. It is modelled as a live lookup of the product's name.
- The Category schemas (app/schemas/category.py) are not part of this model. A category is modelled with a name and an optional description.
- `ProductWithCategory`, the expanded response of the listing and the lookup, is not modelled: the model returns the product rows.
- Products.UpdateProduct: an explicit `null` sent for a non-nullable field (name, price, stock, category id) is not modelled; such a field is either left out or set to a value.
- The listings (`get_my_orders`, `get_all_orders`, `get_products`, `get_categories`) have no `order_by`, so the database may return rows in any order. The model returns them in table (insertion) order.
- `skip` and `limit` are natural numbers. The database's handling of negative offsets and limits is not modelled.
- Query.Like: the escape character of `LIKE`, and case folding beyond ASCII letters, are not modelled.
- Constraints of the database schema (app/models is not part of this model) are not modelled: the foreign keys on `category_id` and on the order items' `product_id`, and a possible unique constraint on `Category.name`. So Products.DeleteProduct keeps order items that refer to the deleted product, and Products.ZeroCategoryIdIsWritten and Categories.UpdateCanDuplicateName state what the router code writes, not whether the commit succeeds.
- Database.Consistent does not require that a product's category exists. The source does not keep that either (see `Products.ZeroCategoryIdIsWritten`).
- `seed_data.py`, `app/config.py`, `app/main.py`, `app/schemas/__init__.py` and the test fixtures are outside the modelled core.
