/** The persistent store of the catalog-and-reviews backend, as plain values.

    Each SQL table becomes a sequence of rows in insertion order, with updated
    rows kept in place (the queries have no `ORDER BY`, so this order is the
    model's choice); every row carries its own primary key `id`. Nullable foreign-key columns are `Option`s, the
    `Float` columns (`grade`, `rating`) are exact reals, and a request's
    authenticated user is a record of role flags and an id.
 */
module Schema {

  datatype Option<+T> = None | Some(value: T)

  /** The two HTTP exceptions the routers raise, 401 and 404, and the 500
      that an uncaught Python exception becomes. */
  datatype Error = Unauthorized | NotFound | ServerError

  /** Outcome of a read-only endpoint. */
  datatype Result<+T> = Success(value: T) | Failure(error: Error)

  /** Outcome of a writing endpoint, without the response body. */
  datatype Outcome = Pass | Fail(error: Error)

  type Id = int

  datatype Date = Date(year: int, month: int, day: int)

  /** The mapping `get_current_user` hands to the routers. */
  datatype User = User(id: Id, isAdmin: bool, isSupplier: bool, isCustomer: bool)

  /** A row of `products`. */
  datatype Product = Product(
    id: Id,
    name: string,
    slug: string,
    description: string,
    price: int,
    imageUrl: string,
    stock: int,
    categoryId: Option<Id>,
    supplierId: Option<Id>,
    rating: real,
    isActive: bool)

  /** A row of `categories`: only the columns the routers read. */
  datatype Category = Category(id: Id, slug: string, parentId: Option<Id>)

  /** A row of `ratings`. */
  datatype Rating = Rating(
    id: Id,
    grade: real,
    userId: Option<Id>,
    productId: Option<Id>,
    isActive: bool)

  /** A row of `reviews`; `ratingId` links it to its rating. */
  datatype Review = Review(
    id: Id,
    userId: Option<Id>,
    productId: Option<Id>,
    ratingId: Option<Id>,
    comment: string,
    commentDate: Date,
    isActive: bool)

  datatype Store = Store(
    products: seq<Product>,
    categories: seq<Category>,
    ratings: seq<Rating>,
    reviews: seq<Review>)

  /** What a writing endpoint leaves behind: the committed store and its outcome.
      The store is part of the reply even on failure, because `add_review`
      commits before it can fail. */
  datatype Reply = Reply(store: Store, outcome: Outcome)

  function ProductKey(p: Product): Id { p.id }
  function ProductSlug(p: Product): string { p.slug }
  function CategoryKey(c: Category): Id { c.id }
  function RatingKey(r: Rating): Id { r.id }
  function ReviewKey(v: Review): Id { v.id }

  /** No two rows of `s` share a key. */
  predicate UniqueKeys<T, K(==)>(s: seq<T>, key: T -> K)
  {
    forall i, j :: 0 <= i < j < |s| ==> key(s[i]) != key(s[j])
  }

  /** Every table's primary key, and the product slug, are unique, as the
      database's constraints enforce. */
  predicate WellFormed(s: Store)
  {
    && UniqueKeys(s.products, ProductKey)
    && UniqueKeys(s.products, ProductSlug)
    && UniqueKeys(s.categories, CategoryKey)
    && UniqueKeys(s.ratings, RatingKey)
    && UniqueKeys(s.reviews, ReviewKey)
  }

  /** Python truthiness of a nullable integer column: `None` and `0` are false. */
  predicate Truthy(k: Option<Id>)
  {
    k.Some? && k.value != 0
  }
}
