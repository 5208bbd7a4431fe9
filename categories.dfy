/** The categories: listing, lookup by id, and the admin-only creation under
    a fresh name, partial update and deletion of an empty category. */
module Categories {
  import opened Models
  import opened Query
  import opened Database

  /** The body of a category creation. */
  datatype CategoryCreate = CategoryCreate(name: string, description: Option<string>)

  /** The body of a category update: every field may be left out. */
  datatype CategoryUpdate = CategoryUpdate(name: Patch<string>, description: Patch<Option<string>>)

  /** One entry of `dict(exclude_unset=True)` of a category update. */
  datatype CategoryField =
    | CategoryNameField(name: string)
    | CategoryDescriptionField(description: Option<string>)

  /** The fields the client set, in declaration order. */
  function SetFields(u: CategoryUpdate): (r: seq<CategoryField>)
    ensures |r| <= 2
    ensures forall v :: CategoryNameField(v) in r <==> u.name == Set(v)
    ensures forall v :: CategoryDescriptionField(v) in r <==> u.description == Set(v)
  {
    (if u.name.Set? then [CategoryNameField(u.name.value)] else [])
    + (if u.description.Set? then [CategoryDescriptionField(u.description.value)] else [])
  }

  /** `get_categories`: a page of the categories, in table order. */
  function GetCategories(categories: seq<Category>, skip: nat, limit: nat): (r: seq<Category>)
    ensures |r| <= limit
    ensures |r| == if skip >= |categories| then 0 else if |categories| - skip <= limit then |categories| - skip else limit
    ensures forall i :: 0 <= i < |r| ==> skip + i < |categories| && r[i] == categories[skip + i]
  {
    Page(categories, skip, limit)
  }

  /** `get_category`: the category with that id. */
  function GetCategory(categories: seq<Category>, categoryId: int): (r: Result<Category>)
    ensures r.Success? ==> r.value in categories && r.value.id == categoryId
    ensures r.Failure? <==> forall i :: 0 <= i < |categories| ==> categories[i].id != categoryId
    ensures r.Failure? ==> r.error == CategoryNotFound
  {
    match First(categories, (c: Category) => c.id == categoryId)
    case None => Failure(CategoryNotFound)
    case Some(k) => Success(categories[k])
  }

  /** With unique ids, the lookup finds the one category with that id. */
  lemma {:induction false} GetCategoryFindsIt(categories: seq<Category>, next: int, k: nat)
    requires CategoryIdsValid(categories, next) && k < |categories|
    ensures GetCategory(categories, categories[k].id) == Success(categories[k])
  {
    var found := First(categories, (c: Category) => c.id == categories[k].id);
    assert found.Some? && found.value == k;
  }

  /** No two categories share a name. */
  predicate NamesUnique(categories: seq<Category>)
  {
    forall i, j :: 0 <= i < j < |categories| ==> categories[i].name != categories[j].name
  }

  /** The products of a category (`category.products`). */
  function ProductsOf(products: seq<Product>, categoryId: int): (r: seq<Product>)
    ensures forall i :: 0 <= i < |r| ==> r[i] in products && r[i].categoryId == categoryId
    ensures r == [] <==> forall i :: 0 <= i < |products| ==> products[i].categoryId != categoryId
    ensures forall i :: 0 <= i < |products| && products[i].categoryId == categoryId ==> products[i] in r
  {
    var r := Filter(products, (p: Product) => p.categoryId == categoryId);
    assert r != [] ==> r[0] in products;
    r
  }

  /** One set field written onto the category. */
  function SetAttr(c: Category, field: CategoryField): (r: Category)
    ensures r.id == c.id
  {
    match field
    case CategoryNameField(v) => c.(name := v)
    case CategoryDescriptionField(v) => c.(description := v)
  }

  /** The category after the `setattr` loop has run over `fields`. */
  function ApplyFields(c: Category, fields: seq<CategoryField>): (r: Category)
    ensures r.id == c.id
  {
    if fields == [] then c
    else SetAttr(ApplyFields(c, fields[..|fields| - 1]), fields[|fields| - 1])
  }

  /** The category as a partial update means it: the fields the client set
      take the new values, the others (and the id) are kept. */
  function MergeCategory(c: Category, u: CategoryUpdate): Category
  {
    Category(c.id,
      if u.name.Set? then u.name.value else c.name,
      if u.description.Set? then u.description.value else c.description)
  }

  /** The `setattr` loop over the set fields performs exactly the partial update. */
  lemma {:induction false} ApplyFieldsMerges(c: Category, u: CategoryUpdate)
    ensures ApplyFields(c, SetFields(u)) == MergeCategory(c, u)
  {
    var a1 := if u.name.Set? then [CategoryNameField(u.name.value)] else [];
    var a2 := if u.description.Set? then [CategoryDescriptionField(u.description.value)] else [];
    var fields := SetFields(u);
    assert fields == a1 + a2;
    if a2 == [] {
      assert fields == a1;
      if a1 != [] {
        assert fields[..0] == [];
      }
    } else {
      assert fields[..|fields| - 1] == a1;
      if a1 != [] {
        assert a1[..0] == [];
      }
    }
  }

  /** Creation is the only guard on names: an update may give a category the
      name another category already has. */
  lemma {:induction false} UpdateCanDuplicateName()
    ensures
      var categories := [Category(1, "Books", None), Category(2, "Games", None)];
      && NamesUnique(categories)
      && !NamesUnique(categories[1 := MergeCategory(categories[1], CategoryUpdate(Set("Books"), Unset))])
  {
    var categories := [Category(1, "Books", None), Category(2, "Games", None)];
    var after := categories[1 := MergeCategory(categories[1], CategoryUpdate(Set("Books"), Unset))];
    assert after[0].name == after[1].name;
  }

  lemma {:induction false} AppendCategoryIdsValid(categories: seq<Category>, next: int, c: Category)
    requires CategoryIdsValid(categories, next) && c.id == next && 0 < next
    ensures CategoryIdsValid(categories + [c], next + 1)
  {
    var cs := categories + [c];
    assert forall i :: 0 <= i < |categories| ==> cs[i] == categories[i];
  }

  lemma {:induction false} ReplaceCategoryIdsValid(categories: seq<Category>, next: int, k: nat, c: Category)
    requires CategoryIdsValid(categories, next) && k < |categories| && c.id == categories[k].id
    ensures CategoryIdsValid(categories[k := c], next)
  {
    var cs := categories[k := c];
    assert forall i :: 0 <= i < |cs| ==> cs[i].id == categories[i].id;
  }

  lemma {:induction false} RemoveCategoryIdsValid(categories: seq<Category>, next: int, k: nat)
    requires CategoryIdsValid(categories, next) && k < |categories|
    ensures CategoryIdsValid(RemoveAt(categories, k), next)
  {
    var r := RemoveAt(categories, k);
    forall i, j | 0 <= i < j < |r|
      ensures r[i].id != r[j].id
    {
      var i' := if i < k then i else i + 1;
      var j' := if j < k then j else j + 1;
      assert r[i] == categories[i'] && r[j] == categories[j'];
    }
  }

  /** `create_category`: refused when a category already has the name;
      otherwise the new category is appended under the next category id. */
  method CreateCategory(db: Db, request: CategoryCreate) returns (r: Result<Category>)
    requires db.Valid()
    modifies db
    ensures db.Valid()
    ensures r.Failure? <==> exists i :: 0 <= i < |old(db.categories)| && old(db.categories)[i].name == request.name
    ensures r.Failure? ==> r.error == CategoryNameTaken && unchanged(db)
    ensures r.Success? ==>
      && r.value == Category(old(db.nextCategoryId), request.name, request.description)
      && db.categories == old(db.categories) + [r.value]
      && db.nextCategoryId == old(db.nextCategoryId) + 1
    ensures NamesUnique(old(db.categories)) ==> NamesUnique(db.categories)
    ensures db.users == old(db.users) && db.products == old(db.products) && db.orders == old(db.orders)
    ensures db.nextProductId == old(db.nextProductId) && db.nextOrderId == old(db.nextOrderId)
    ensures db.nextItemId == old(db.nextItemId)
  {
    var existing := First(db.categories, (c: Category) => c.name == request.name);
    if existing.Some? {
      return Failure(CategoryNameTaken);
    }
    var category := Category(db.nextCategoryId, request.name, request.description);
    AppendCategoryIdsValid(db.categories, db.nextCategoryId, category);
    ghost var before := db.categories;
    db.categories := db.categories + [category];
    db.nextCategoryId := db.nextCategoryId + 1;
    assert forall i :: 0 <= i < |before| ==> db.categories[i] == before[i];
    r := Success(category);
  }

  /** The `setattr` loop of `update_category`: each set field written in
      turn onto the stored category at row `k`. */
  method WriteFields(db: Db, k: nat, fields: seq<CategoryField>)
    requires k < |db.categories|
    modifies db
    ensures db.categories == old(db.categories)[k := ApplyFields(old(db.categories)[k], fields)]
    ensures db.users == old(db.users) && db.products == old(db.products) && db.orders == old(db.orders)
    ensures db.nextCategoryId == old(db.nextCategoryId) && db.nextProductId == old(db.nextProductId)
    ensures db.nextOrderId == old(db.nextOrderId) && db.nextItemId == old(db.nextItemId)
  {
    var i := 0;
    while i < |fields|
      invariant 0 <= i <= |fields|
      invariant db.categories == old(db.categories)[k := ApplyFields(old(db.categories)[k], fields[..i])]
      invariant db.users == old(db.users) && db.products == old(db.products) && db.orders == old(db.orders)
      invariant db.nextCategoryId == old(db.nextCategoryId) && db.nextProductId == old(db.nextProductId)
      invariant db.nextOrderId == old(db.nextOrderId) && db.nextItemId == old(db.nextItemId)
    {
      assert fields[..i + 1][..i] == fields[..i];
      db.categories := db.categories[k := SetAttr(db.categories[k], fields[i])];
      i := i + 1;
    }
    assert fields[..i] == fields;
  }

  /** `update_category`: refused when the category does not exist; otherwise
      the `setattr` loop writes each set field onto the stored category. */
  method UpdateCategory(db: Db, categoryId: int, update: CategoryUpdate) returns (r: Result<Category>)
    requires db.Valid()
    modifies db
    ensures db.Valid()
    ensures r.Failure? <==> forall i :: 0 <= i < |old(db.categories)| ==> old(db.categories)[i].id != categoryId
    ensures r.Failure? ==> r.error == CategoryNotFound && unchanged(db)
    ensures r.Success? ==>
      exists k :: 0 <= k < |old(db.categories)| && old(db.categories)[k].id == categoryId
        && r.value == MergeCategory(old(db.categories)[k], update)
        && db.categories == old(db.categories)[k := r.value]
    ensures db.users == old(db.users) && db.products == old(db.products) && db.orders == old(db.orders)
    ensures db.nextCategoryId == old(db.nextCategoryId) && db.nextProductId == old(db.nextProductId)
    ensures db.nextOrderId == old(db.nextOrderId) && db.nextItemId == old(db.nextItemId)
  {
    var found := First(db.categories, (c: Category) => c.id == categoryId);
    if found.None? {
      return Failure(CategoryNotFound);
    }
    var k := found.value;
    var original := db.categories[k];
    WriteFields(db, k, SetFields(update));
    ApplyFieldsMerges(original, update);
    ReplaceCategoryIdsValid(old(db.categories), db.nextCategoryId, k, db.categories[k]);
    r := Success(db.categories[k]);
  }

  /** `delete_category`: refused when the category does not exist, or while
      products are in it (the error reports how many); otherwise exactly that
      category leaves the table. */
  method DeleteCategory(db: Db, categoryId: int) returns (r: Result<()>)
    requires db.Valid()
    modifies db
    ensures db.Valid()
    ensures r.Failure? <==>
      (forall i :: 0 <= i < |old(db.categories)| ==> old(db.categories)[i].id != categoryId)
      || exists i :: 0 <= i < |old(db.products)| && old(db.products)[i].categoryId == categoryId
    ensures r.Failure? ==> unchanged(db)
    ensures r.Failure? && (forall i :: 0 <= i < |old(db.categories)| ==> old(db.categories)[i].id != categoryId) ==>
      r.error == CategoryNotFound
    ensures r.Failure? && (exists i :: 0 <= i < |old(db.categories)| && old(db.categories)[i].id == categoryId) ==>
      r.error == CategoryHasProducts(|ProductsOf(old(db.products), categoryId)|) && r.error.count > 0
    ensures r.Success? ==>
      exists k :: 0 <= k < |old(db.categories)| && old(db.categories)[k].id == categoryId
        && db.categories == RemoveAt(old(db.categories), k)
    ensures db.users == old(db.users) && db.products == old(db.products) && db.orders == old(db.orders)
    ensures db.nextCategoryId == old(db.nextCategoryId) && db.nextProductId == old(db.nextProductId)
    ensures db.nextOrderId == old(db.nextOrderId) && db.nextItemId == old(db.nextItemId)
  {
    var found := First(db.categories, (c: Category) => c.id == categoryId);
    if found.None? {
      return Failure(CategoryNotFound);
    }
    var k := found.value;
    var inCategory := ProductsOf(db.products, categoryId);
    if inCategory != [] {
      return Failure(CategoryHasProducts(|inCategory|));
    }
    RemoveCategoryIdsValid(db.categories, db.nextCategoryId, k);
    db.categories := RemoveAt(db.categories, k);
    r := Success(());
  }
}
