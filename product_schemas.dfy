/** The request shapes of the product endpoints and their field constraints. */
module ProductSchemas {
  import opened Models

  /** The body of a product creation. */
  datatype ProductCreate = ProductCreate(
    name: string,
    description: Option<string>,
    price: int,
    stock: int,
    categoryId: int,
    imageUrl: Option<string>)

  /** A new product's price must be greater than 0 and its stock at least 0. */
  predicate ProductCreateValid(p: ProductCreate)
  {
    p.price > 0 && p.stock >= 0
  }

  /** The body of a product update: every field may be left out. */
  datatype ProductUpdate = ProductUpdate(
    name: Patch<string>,
    description: Patch<Option<string>>,
    price: Patch<int>,
    stock: Patch<int>,
    categoryId: Patch<int>,
    imageUrl: Patch<Option<string>>)

  /** A price that is given must be greater than 0, a stock that is given at least 0. */
  predicate ProductUpdateValid(u: ProductUpdate)
  {
    && (u.price.Set? ==> u.price.value > 0)
    && (u.stock.Set? ==> u.stock.value >= 0)
  }

  /** One entry of `dict(exclude_unset=True)`: a field name with its value. */
  datatype ProductField =
    | NameField(name: string)
    | DescriptionField(description: Option<string>)
    | PriceField(price: int)
    | StockField(stock: int)
    | CategoryIdField(categoryId: int)
    | ImageUrlField(imageUrl: Option<string>)

  /** `f` is a field the client set, carrying the value it was given. */
  predicate IsSet(u: ProductUpdate, f: ProductField)
  {
    match f
    case NameField(v) => u.name == Set(v)
    case DescriptionField(v) => u.description == Set(v)
    case PriceField(v) => u.price == Set(v)
    case StockField(v) => u.stock == Set(v)
    case CategoryIdField(v) => u.categoryId == Set(v)
    case ImageUrlField(v) => u.imageUrl == Set(v)
  }

  function NameEntry(u: ProductUpdate): (r: seq<ProductField>)
    ensures |r| <= 1
    ensures forall f :: f in r <==> f.NameField? && IsSet(u, f)
  {
    if u.name.Set? then [NameField(u.name.value)] else []
  }

  function DescriptionEntry(u: ProductUpdate): (r: seq<ProductField>)
    ensures |r| <= 1
    ensures forall f :: f in r <==> f.DescriptionField? && IsSet(u, f)
  {
    if u.description.Set? then [DescriptionField(u.description.value)] else []
  }

  function PriceEntry(u: ProductUpdate): (r: seq<ProductField>)
    ensures |r| <= 1
    ensures forall f :: f in r <==> f.PriceField? && IsSet(u, f)
  {
    if u.price.Set? then [PriceField(u.price.value)] else []
  }

  function StockEntry(u: ProductUpdate): (r: seq<ProductField>)
    ensures |r| <= 1
    ensures forall f :: f in r <==> f.StockField? && IsSet(u, f)
  {
    if u.stock.Set? then [StockField(u.stock.value)] else []
  }

  function CategoryIdEntry(u: ProductUpdate): (r: seq<ProductField>)
    ensures |r| <= 1
    ensures forall f :: f in r <==> f.CategoryIdField? && IsSet(u, f)
  {
    if u.categoryId.Set? then [CategoryIdField(u.categoryId.value)] else []
  }

  function ImageUrlEntry(u: ProductUpdate): (r: seq<ProductField>)
    ensures |r| <= 1
    ensures forall f :: f in r <==> f.ImageUrlField? && IsSet(u, f)
  {
    if u.imageUrl.Set? then [ImageUrlField(u.imageUrl.value)] else []
  }

  /** The fields the client set, in declaration order: exactly the set
      fields, each with its value. */
  function SetFields(u: ProductUpdate): (r: seq<ProductField>)
    ensures |r| <= 6
    ensures forall f :: f in r <==> IsSet(u, f)
  {
    NameEntry(u) + DescriptionEntry(u) + PriceEntry(u) + StockEntry(u) + CategoryIdEntry(u) + ImageUrlEntry(u)
  }
}
