/** The product catalogue: the public listing with its optional filters, the
    lookup by id, and the admin-only creation, partial update and deletion. */
module Products {
  import opened Models
  import opened Query
  import opened ProductSchemas
  import opened Database

  /** The optional query parameters of the listing. Prices are in cents. */
  datatype ProductFilters = ProductFilters(
    categoryId: Option<int>,
    minPrice: Option<int>,
    maxPrice: Option<int>,
    search: Option<string>)

  /** Python truthiness of an optional number: absent and 0 are false. */
  predicate Truthy(x: Option<int>)
  {
    x.Some? && x.value != 0
  }

  /** Python truthiness of an optional string: absent and "" are false. */
  predicate TruthyText(x: Option<string>)
  {
    x.Some? && x.value != ""
  }

  /** The `ilike` pattern built from a search term. */
  function SearchPattern(search: string): (r: string)
    ensures |r| == |search| + 2 && r[0] == '%' && r[|r| - 1] == '%'
    ensures r[1..|r| - 1] == search
  {
    "%" + search + "%"
  }

  /** The category filter: applied only when the given category id is truthy. */
  function ByCategory(s: seq<Product>, id: Option<int>): (r: seq<Product>)
    ensures |r| <= |s|
    ensures forall i :: 0 <= i < |r| ==> r[i] in s && (Truthy(id) ==> r[i].categoryId == id.value)
    ensures !Truthy(id) ==> r == s
  {
    if Truthy(id) then Filter(s, (p: Product) => p.categoryId == id.value) else s
  }

  /** The minimum-price filter (inclusive): applied only when the given minimum is truthy. */
  function ByMinPrice(s: seq<Product>, min: Option<int>): (r: seq<Product>)
    ensures |r| <= |s|
    ensures forall i :: 0 <= i < |r| ==> r[i] in s && (Truthy(min) ==> r[i].price >= min.value)
    ensures !Truthy(min) ==> r == s
  {
    if Truthy(min) then Filter(s, (p: Product) => p.price >= min.value) else s
  }

  /** The maximum-price filter (inclusive): applied only when the given maximum is truthy. */
  function ByMaxPrice(s: seq<Product>, max: Option<int>): (r: seq<Product>)
    ensures |r| <= |s|
    ensures forall i :: 0 <= i < |r| ==> r[i] in s && (Truthy(max) ==> r[i].price <= max.value)
    ensures !Truthy(max) ==> r == s
  {
    if Truthy(max) then Filter(s, (p: Product) => p.price <= max.value) else s
  }

  /** The name search: applied only when the search term is non-empty, as a
      case-insensitive pattern with the term between two `%`. */
  function BySearch(s: seq<Product>, search: Option<string>): (r: seq<Product>)
    ensures |r| <= |s|
    ensures forall i :: 0 <= i < |r| ==>
      r[i] in s && (TruthyText(search) ==> ILike(r[i].name, SearchPattern(search.value)))
    ensures !TruthyText(search) ==> r == s
  {
    if TruthyText(search) then Filter(s, (p: Product) => ILike(p.name, SearchPattern(search.value))) else s
  }

  /** The query built by `get_products` before pagination: each filter whose
      value is truthy narrows the previous query, in the order category,
      minimum price, maximum price, name search. */
  function Selected(products: seq<Product>, f: ProductFilters): (r: seq<Product>)
    ensures |r| <= |products|
    ensures forall i :: 0 <= i < |r| ==> r[i] in products
  {
    BySearch(ByMaxPrice(ByMinPrice(ByCategory(products, f.categoryId), f.minPrice), f.maxPrice), f.search)
  }

  /** The category and price filters that are applied all hold of `p`. */
  predicate MatchesCategoryAndPrice(f: ProductFilters, p: Product)
  {
    && (Truthy(f.categoryId) ==> p.categoryId == f.categoryId.value)
    && (Truthy(f.minPrice) ==> p.price >= f.minPrice.value)
    && (Truthy(f.maxPrice) ==> p.price <= f.maxPrice.value)
  }

  /** What a product must satisfy to be listed: every filter that is applied. */
  predicate Matches(f: ProductFilters, p: Product)
  {
    && MatchesCategoryAndPrice(f, p)
    && (TruthyText(f.search) ==> ILike(p.name, SearchPattern(f.search.value)))
  }

  lemma {:induction false} ByCategoryFilters(s: seq<Product>, id: Option<int>, keep: Product -> bool)
    requires forall i :: 0 <= i < |s| ==> keep(s[i]) == (Truthy(id) ==> s[i].categoryId == id.value)
    ensures ByCategory(s, id) == Filter(s, keep)
  {
    if Truthy(id) {
      FilterAgrees(s, (p: Product) => p.categoryId == id.value, keep);
    } else {
      FilterAll(s, keep);
    }
  }

  lemma {:induction false} ByMinPriceFilters(s: seq<Product>, min: Option<int>, keep: Product -> bool)
    requires forall i :: 0 <= i < |s| ==> keep(s[i]) == (Truthy(min) ==> s[i].price >= min.value)
    ensures ByMinPrice(s, min) == Filter(s, keep)
  {
    if Truthy(min) {
      FilterAgrees(s, (p: Product) => p.price >= min.value, keep);
    } else {
      FilterAll(s, keep);
    }
  }

  lemma {:induction false} ByMaxPriceFilters(s: seq<Product>, max: Option<int>, keep: Product -> bool)
    requires forall i :: 0 <= i < |s| ==> keep(s[i]) == (Truthy(max) ==> s[i].price <= max.value)
    ensures ByMaxPrice(s, max) == Filter(s, keep)
  {
    if Truthy(max) {
      FilterAgrees(s, (p: Product) => p.price <= max.value, keep);
    } else {
      FilterAll(s, keep);
    }
  }

  lemma {:induction false} BySearchFilters(s: seq<Product>, search: Option<string>, keep: Product -> bool)
    requires forall i :: 0 <= i < |s| ==>
      keep(s[i]) == (TruthyText(search) ==> ILike(s[i].name, SearchPattern(search.value)))
    ensures BySearch(s, search) == Filter(s, keep)
  {
    if TruthyText(search) {
      FilterAgrees(s, (p: Product) => ILike(p.name, SearchPattern(search.value)), keep);
    } else {
      FilterAll(s, keep);
    }
  }

  /** The category and price filters together keep the products that pass all three. */
  lemma {:induction false} CategoryAndPriceFilters(products: seq<Product>, f: ProductFilters)
    ensures ByMaxPrice(ByMinPrice(ByCategory(products, f.categoryId), f.minPrice), f.maxPrice)
      == Filter(products, (p: Product) => MatchesCategoryAndPrice(f, p))
  {
    var c := (p: Product) => Truthy(f.categoryId) ==> p.categoryId == f.categoryId.value;
    var lo := (p: Product) => Truthy(f.minPrice) ==> p.price >= f.minPrice.value;
    var hi := (p: Product) => Truthy(f.maxPrice) ==> p.price <= f.maxPrice.value;
    var s1 := ByCategory(products, f.categoryId);
    ByCategoryFilters(products, f.categoryId, c);
    var s2 := ByMinPrice(s1, f.minPrice);
    ByMinPriceFilters(s1, f.minPrice, lo);
    ByMaxPriceFilters(s2, f.maxPrice, hi);
    var clo := (p: Product) => c(p) && lo(p);
    FilterFilter(products, c, lo, clo);
    FilterFilter(products, clo, hi, (p: Product) => MatchesCategoryAndPrice(f, p));
  }

  /** The chained filters of `get_products` select, in table order, exactly
      the products that satisfy every applied filter. */
  lemma {:induction false} SelectedIsMatches(products: seq<Product>, f: ProductFilters)
    ensures Selected(products, f) == Filter(products, (p: Product) => Matches(f, p))
  {
    var cp := (p: Product) => MatchesCategoryAndPrice(f, p);
    var sr := (p: Product) => TruthyText(f.search) ==> ILike(p.name, SearchPattern(f.search.value));
    var s3 := ByMaxPrice(ByMinPrice(ByCategory(products, f.categoryId), f.minPrice), f.maxPrice);
    CategoryAndPriceFilters(products, f);
    BySearchFilters(s3, f.search, sr);
    FilterFilter(products, cp, sr, (p: Product) => Matches(f, p));
  }

  /** `get_products`: a page of the products that pass every applied filter. */
  function GetProducts(products: seq<Product>, f: ProductFilters, skip: nat, limit: nat): (r: seq<Product>)
    ensures |r| <= limit
    ensures forall i :: 0 <= i < |r| ==> r[i] in products && Matches(f, r[i])
    ensures var matching := Filter(products, (p: Product) => Matches(f, p));
      && |r| == (if skip >= |matching| then 0 else if |matching| - skip <= limit then |matching| - skip else limit)
      && forall i :: 0 <= i < |r| ==> r[i] == matching[skip + i]
  {
    SelectedIsMatches(products, f);
    Page(Selected(products, f), skip, limit)
  }

  /** A first page as large as the table lists every product that passes the filters. */
  lemma {:induction false} GetProductsComplete(products: seq<Product>, f: ProductFilters, limit: nat)
    requires |products| <= limit
    ensures forall i :: 0 <= i < |products| && Matches(f, products[i]) ==>
      products[i] in GetProducts(products, f, 0, limit)
  {
    SelectedIsMatches(products, f);
    PageAll(Selected(products, f), limit);
  }

  /** A filter given as 0 or as the empty string is not applied: the listing
      is the same as when it is left out. */
  lemma {:induction false} FalsyFiltersIgnored(products: seq<Product>, f: ProductFilters, skip: nat, limit: nat)
    requires f.categoryId == Some(0) || f.minPrice == Some(0) || f.maxPrice == Some(0) || f.search == Some("")
    ensures GetProducts(products, f, skip, limit) == GetProducts(products,
      ProductFilters(
        if f.categoryId == Some(0) then None else f.categoryId,
        if f.minPrice == Some(0) then None else f.minPrice,
        if f.maxPrice == Some(0) then None else f.maxPrice,
        if f.search == Some("") then None else f.search), skip, limit)
  {
    var g := ProductFilters(
      if f.categoryId == Some(0) then None else f.categoryId,
      if f.minPrice == Some(0) then None else f.minPrice,
      if f.maxPrice == Some(0) then None else f.maxPrice,
      if f.search == Some("") then None else f.search);
    SelectedIsMatches(products, f);
    SelectedIsMatches(products, g);
    FilterAgrees(products, (p: Product) => Matches(f, p), (p: Product) => Matches(g, p));
  }

  /** A search term without `%` or `_` lists the products whose name contains
      it, ignoring the case of ASCII letters. */
  lemma {:induction false} SearchIsCaseInsensitiveSubstring(f: ProductFilters, p: Product)
    requires TruthyText(f.search) && NoWildcards(f.search.value)
    ensures Matches(f, p) <==>
      && Matches(f.(search := None), p)
      && Contains(LowerAll(p.name), LowerAll(f.search.value))
  {
    SubstringILike(p.name, f.search.value);
  }

  /** The search "notebook" finds the product named "Notebook Dell". */
  lemma {:induction false} SearchScenario()
    ensures
      var dell := Product(1, "Notebook Dell", None, 350000, 10, 1, None);
      GetProducts([dell], ProductFilters(None, None, None, Some("notebook")), 0, 100) == [dell]
  {
    var dell := Product(1, "Notebook Dell", None, 350000, 10, 1, None);
    var f := ProductFilters(None, None, None, Some("notebook"));
    assert NoWildcards("notebook");
    SubstringILike(dell.name, "notebook");
    assert LowerAll("notebook") == "notebook";
    assert LowerAll(dell.name)[0..8] == "notebook";
    assert OccursAt(LowerAll(dell.name), "notebook", 0);
    assert Matches(f, dell);
    SelectedIsMatches([dell], f);
    assert Filter([dell], (p: Product) => Matches(f, p)) == [dell];
  }

  /** A maximum price of 100.00 lists the product at 10.00 and not the one at 1000.00. */
  lemma {:induction false} MaxPriceScenario()
    ensures
      var cheap := Product(1, "Cheap", None, 1000, 10, 1, None);
      var expensive := Product(2, "Expensive", None, 100000, 10, 1, None);
      GetProducts([cheap, expensive], ProductFilters(None, None, Some(10000), None), 0, 100) == [cheap]
  {
    var cheap := Product(1, "Cheap", None, 1000, 10, 1, None);
    var expensive := Product(2, "Expensive", None, 100000, 10, 1, None);
    var f := ProductFilters(None, None, Some(10000), None);
    SelectedIsMatches([cheap, expensive], f);
    assert [cheap, expensive][1..] == [expensive];
    assert Filter([cheap, expensive], (p: Product) => Matches(f, p)) == [cheap];
  }

  /** `get_product`: the product with that id. The not-found error carries
      the id so that lemmas can name it; the source's 404 message does not. */
  function GetProduct(products: seq<Product>, productId: int): (r: Result<Product>)
    ensures r.Success? ==> r.value in products && r.value.id == productId
    ensures r.Failure? <==> forall i :: 0 <= i < |products| ==> products[i].id != productId
    ensures r.Failure? ==> r.error == ProductNotFound(productId)
  {
    match First(products, (p: Product) => p.id == productId)
    case None => Failure(ProductNotFound(productId))
    case Some(k) => Success(products[k])
  }

  /** A category with id `id` exists. */
  predicate HasCategory(categories: seq<Category>, id: int)
  {
    exists i :: 0 <= i < |categories| && categories[i].id == id
  }

  /** One set field written onto the product. */
  function SetAttr(p: Product, field: ProductField): (r: Product)
    ensures r.id == p.id
  {
    match field
    case NameField(v) => p.(name := v)
    case DescriptionField(v) => p.(description := v)
    case PriceField(v) => p.(price := v)
    case StockField(v) => p.(stock := v)
    case CategoryIdField(v) => p.(categoryId := v)
    case ImageUrlField(v) => p.(imageUrl := v)
  }

  /** The product after the `setattr` loop has run over `fields`. */
  function ApplyFields(p: Product, fields: seq<ProductField>): (r: Product)
    ensures r.id == p.id
  {
    if fields == [] then p
    else SetAttr(ApplyFields(p, fields[..|fields| - 1]), fields[|fields| - 1])
  }

  /** The value set by the client, or the current one when the field was left out. */
  function Or<T>(f: Patch<T>, current: T): T
  {
    if f.Set? then f.value else current
  }

  /** The product as a partial update means it: the fields the client set
      take the new values, every other field (and the id) is kept. */
  function MergeProduct(p: Product, u: ProductUpdate): Product
  {
    Product(p.id, Or(u.name, p.name), Or(u.description, p.description), Or(u.price, p.price),
            Or(u.stock, p.stock), Or(u.categoryId, p.categoryId), Or(u.imageUrl, p.imageUrl))
  }

  lemma {:induction false} ApplyFieldsConcat(p: Product, a: seq<ProductField>, b: seq<ProductField>)
    ensures ApplyFields(p, a + b) == ApplyFields(ApplyFields(p, a), b)
    decreases |b|
  {
    if b == [] {
      assert a + b == a;
    } else {
      var n := |b| - 1;
      assert (a + b)[..|a + b| - 1] == a + b[..n];
      ApplyFieldsConcat(p, a, b[..n]);
    }
  }

  /** Running the loop over at most one more field. */
  lemma {:induction false} ApplyEntry(q: Product, a: seq<ProductField>, e: seq<ProductField>)
    requires |e| <= 1
    ensures ApplyFields(q, a + e) == if e == [] then ApplyFields(q, a) else SetAttr(ApplyFields(q, a), e[0])
  {
    ApplyFieldsConcat(q, a, e);
    if e == [] {
      assert a + e == a;
    } else {
      assert e[..0] == [];
    }
  }

  /** The loop over the name, description and price entries. */
  lemma {:induction false} ApplyLeadingFields(p: Product, u: ProductUpdate)
    ensures ApplyFields(p, NameEntry(u) + DescriptionEntry(u) + PriceEntry(u))
      == p.(name := Or(u.name, p.name), description := Or(u.description, p.description), price := Or(u.price, p.price))
  {
    ApplyEntry(p, [], NameEntry(u));
    assert [] + NameEntry(u) == NameEntry(u);
    ApplyEntry(p, NameEntry(u), DescriptionEntry(u));
    ApplyEntry(p, NameEntry(u) + DescriptionEntry(u), PriceEntry(u));
  }

  /** The `setattr` loop over the set fields performs exactly the partial update. */
  lemma {:induction false} ApplyFieldsMerges(p: Product, u: ProductUpdate)
    ensures ApplyFields(p, SetFields(u)) == MergeProduct(p, u)
  {
    var a3 := NameEntry(u) + DescriptionEntry(u) + PriceEntry(u);
    ApplyLeadingFields(p, u);
    ApplyEntry(p, a3, StockEntry(u));
    ApplyEntry(p, a3 + StockEntry(u), CategoryIdEntry(u));
    ApplyEntry(p, a3 + StockEntry(u) + CategoryIdEntry(u), ImageUrlEntry(u));
  }

  /** The category check of `update_product` runs only for a truthy
      `category_id`: it passes when no non-zero category is given or when
      the given category exists. */
  predicate CategoryCheckPasses(categories: seq<Category>, u: ProductUpdate)
  {
    !(u.categoryId.Set? && u.categoryId.value != 0) || HasCategory(categories, u.categoryId.value)
  }

  /** A `category_id` of 0 skips the category check, yet the loop still
      writes it, so the product ends up in a category that cannot exist. */
  lemma {:induction false} ZeroCategoryIdIsWritten(categories: seq<Category>, next: int, p: Product, u: ProductUpdate)
    requires CategoryIdsValid(categories, next)
    requires u.categoryId == Set(0)
    ensures CategoryCheckPasses(categories, u)
    ensures MergeProduct(p, u).categoryId == 0 && !HasCategory(categories, 0)
  {
  }

  /** Validation keeps stock non-negative: a created product, and a valid
      update of a product whose stock is non-negative. */
  lemma {:induction false} ValidatedStockNonNegative(id: int, c: ProductCreate, p: Product, u: ProductUpdate)
    requires ProductCreateValid(c) && ProductUpdateValid(u) && p.stock >= 0
    ensures NewProduct(id, c).stock >= 0 && NewProduct(id, c).price > 0
    ensures MergeProduct(p, u).stock >= 0
    ensures p.price > 0 ==> MergeProduct(p, u).price > 0
  {
  }

  /** A product built from every field of the request, stored under the id
      the table hands out. */
  function NewProduct(id: int, c: ProductCreate): (r: Product)
    ensures r.id == id && r.name == c.name && r.description == c.description && r.price == c.price
    ensures r.stock == c.stock && r.categoryId == c.categoryId && r.imageUrl == c.imageUrl
  {
    Product(id, c.name, c.description, c.price, c.stock, c.categoryId, c.imageUrl)
  }

  lemma {:induction false} AppendProductIdsValid(products: seq<Product>, next: int, p: Product)
    requires ProductIdsValid(products, next) && p.id == next && 0 < next
    ensures ProductIdsValid(products + [p], next + 1)
  {
    var ps := products + [p];
    assert forall i :: 0 <= i < |products| ==> ps[i] == products[i];
  }

  lemma {:induction false} ReplaceProductIdsValid(products: seq<Product>, next: int, k: nat, p: Product)
    requires ProductIdsValid(products, next) && k < |products| && p.id == products[k].id
    ensures ProductIdsValid(products[k := p], next)
  {
    var ps := products[k := p];
    assert forall i :: 0 <= i < |ps| ==> ps[i].id == products[i].id;
  }

  /** Removing the row of a product whose id is unique removes exactly the
      products with that id. */
  lemma {:induction false} RemoveProductKeepsOthers(products: seq<Product>, k: nat)
    requires ProductIdsUnique(products) && k < |products|
    ensures forall p :: p in products && p.id != products[k].id ==> p in RemoveAt(products, k)
    ensures forall p :: p in RemoveAt(products, k) ==> p in products && p.id != products[k].id
  {
    var r := RemoveAt(products, k);
    forall p | p in products && p.id != products[k].id
      ensures p in r
    {
      var i :| 0 <= i < |products| && products[i] == p;
      assert i != k;
      if i < k { assert r[i] == p; } else { assert r[i - 1] == p; }
    }
    forall p | p in r
      ensures p in products && p.id != products[k].id
    {
      var i :| 0 <= i < |r| && r[i] == p;
      var i' := if i < k then i else i + 1;
      assert p == products[i'] && i' != k;
    }
  }

  lemma {:induction false} RemoveProductIdsValid(products: seq<Product>, next: int, k: nat)
    requires ProductIdsValid(products, next) && k < |products|
    ensures ProductIdsValid(RemoveAt(products, k), next)
  {
    var r := RemoveAt(products, k);
    forall i, j | 0 <= i < j < |r|
      ensures r[i].id != r[j].id
    {
      var i' := if i < k then i else i + 1;
      var j' := if j < k then j else j + 1;
      assert r[i] == products[i'] && r[j] == products[j'];
    }
  }

  /** `create_product`: refused when the category does not exist; otherwise
      the new product is appended under the next product id. */
  method CreateProduct(db: Db, request: ProductCreate) returns (r: Result<Product>)
    requires db.Valid()
    requires ProductCreateValid(request)
    modifies db
    ensures db.Valid()
    ensures r.Failure? <==> !HasCategory(old(db.categories), request.categoryId)
    ensures r.Failure? ==> r.error == CategoryNotFound && unchanged(db)
    ensures r.Success? ==>
      && r.value == NewProduct(old(db.nextProductId), request)
      && db.products == old(db.products) + [r.value]
      && db.nextProductId == old(db.nextProductId) + 1
    ensures db.users == old(db.users) && db.categories == old(db.categories) && db.orders == old(db.orders)
    ensures db.nextCategoryId == old(db.nextCategoryId) && db.nextOrderId == old(db.nextOrderId)
    ensures db.nextItemId == old(db.nextItemId)
  {
    var category := First(db.categories, (c: Category) => c.id == request.categoryId);
    if category.None? {
      return Failure(CategoryNotFound);
    }
    var product := NewProduct(db.nextProductId, request);
    AppendProductIdsValid(db.products, db.nextProductId, product);
    db.products := db.products + [product];
    db.nextProductId := db.nextProductId + 1;
    r := Success(product);
  }

  /** The `setattr` loop of `update_product`: each set field written in turn
      onto the stored product at row `k`. */
  method WriteFields(db: Db, k: nat, fields: seq<ProductField>)
    requires k < |db.products|
    modifies db
    ensures db.products == old(db.products)[k := ApplyFields(old(db.products)[k], fields)]
    ensures db.users == old(db.users) && db.categories == old(db.categories) && db.orders == old(db.orders)
    ensures db.nextCategoryId == old(db.nextCategoryId) && db.nextProductId == old(db.nextProductId)
    ensures db.nextOrderId == old(db.nextOrderId) && db.nextItemId == old(db.nextItemId)
  {
    var i := 0;
    while i < |fields|
      invariant 0 <= i <= |fields|
      invariant db.products == old(db.products)[k := ApplyFields(old(db.products)[k], fields[..i])]
      invariant db.users == old(db.users) && db.categories == old(db.categories) && db.orders == old(db.orders)
      invariant db.nextCategoryId == old(db.nextCategoryId) && db.nextProductId == old(db.nextProductId)
      invariant db.nextOrderId == old(db.nextOrderId) && db.nextItemId == old(db.nextItemId)
    {
      assert fields[..i + 1][..i] == fields[..i];
      db.products := db.products[k := SetAttr(db.products[k], fields[i])];
      i := i + 1;
    }
    assert fields[..i] == fields;
  }

  /** `update_product`: refused when the product does not exist, or when a
      truthy `category_id` names no category; otherwise the `setattr` loop
      writes each set field onto the stored product, in place. */
  method UpdateProduct(db: Db, productId: int, update: ProductUpdate) returns (r: Result<Product>)
    requires db.Valid()
    requires ProductUpdateValid(update)
    modifies db
    ensures db.Valid()
    ensures r.Failure? <==>
      (forall i :: 0 <= i < |old(db.products)| ==> old(db.products)[i].id != productId)
      || !CategoryCheckPasses(old(db.categories), update)
    ensures r.Failure? ==> unchanged(db)
    ensures r.Failure? && (exists i :: 0 <= i < |old(db.products)| && old(db.products)[i].id == productId) ==>
      r.error == CategoryNotFound
    ensures r.Failure? && (forall i :: 0 <= i < |old(db.products)| ==> old(db.products)[i].id != productId) ==>
      r.error == ProductNotFound(productId)
    ensures r.Success? ==>
      exists k :: 0 <= k < |old(db.products)| && old(db.products)[k].id == productId
        && r.value == MergeProduct(old(db.products)[k], update)
        && db.products == old(db.products)[k := r.value]
    ensures db.users == old(db.users) && db.categories == old(db.categories) && db.orders == old(db.orders)
    ensures db.nextCategoryId == old(db.nextCategoryId) && db.nextProductId == old(db.nextProductId)
    ensures db.nextOrderId == old(db.nextOrderId) && db.nextItemId == old(db.nextItemId)
  {
    var found := First(db.products, (p: Product) => p.id == productId);
    if found.None? {
      return Failure(ProductNotFound(productId));
    }
    var k := found.value;
    if update.categoryId.Set? && update.categoryId.value != 0 {
      var category := First(db.categories, (c: Category) => c.id == update.categoryId.value);
      if category.None? {
        return Failure(CategoryNotFound);
      }
    }
    var original := db.products[k];
    WriteFields(db, k, SetFields(update));
    ApplyFieldsMerges(original, update);
    ReplaceProductIdsValid(old(db.products), db.nextProductId, k, db.products[k]);
    r := Success(db.products[k]);
  }

  /** `delete_product`: refused when the product does not exist; otherwise
      exactly that product leaves the table. */
  method DeleteProduct(db: Db, productId: int) returns (r: Result<()>)
    requires db.Valid()
    modifies db
    ensures db.Valid()
    ensures r.Failure? <==> forall i :: 0 <= i < |old(db.products)| ==> old(db.products)[i].id != productId
    ensures r.Failure? ==> r.error == ProductNotFound(productId) && unchanged(db)
    ensures r.Success? ==>
      exists k :: 0 <= k < |old(db.products)| && old(db.products)[k].id == productId
        && db.products == RemoveAt(old(db.products), k)
    ensures forall p :: p in old(db.products) && p.id != productId ==> p in db.products
    ensures forall p :: p in db.products ==> p in old(db.products) && p.id != productId
    ensures db.users == old(db.users) && db.categories == old(db.categories) && db.orders == old(db.orders)
    ensures db.nextCategoryId == old(db.nextCategoryId) && db.nextProductId == old(db.nextProductId)
    ensures db.nextOrderId == old(db.nextOrderId) && db.nextItemId == old(db.nextItemId)
  {
    var found := First(db.products, (p: Product) => p.id == productId);
    if found.None? {
      return Failure(ProductNotFound(productId));
    }
    var k := found.value;
    RemoveProductIdsValid(db.products, db.nextProductId, k);
    RemoveProductKeepsOthers(db.products, k);
    db.products := RemoveAt(db.products, k);
    r := Success(());
  }
}
