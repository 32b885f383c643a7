# Catalog and reviews routers, modelled in Dafny

This project models the request logic of the two FastAPI routers of a small
e-commerce backend:

- `/reviews`: list ratings with their reviews, submit a review, soft-delete a review;
- `/products`: list, create, look up, update and soft-delete products, and list a category.

The PostgreSQL store is replaced by a value. `Schema.Store` holds the four
tables `products`, `categories`, `ratings` and `reviews`. Each table is a
sequence of rows in an order the model fixes (insertion order, with updated
rows kept in place), and every row carries its primary key.

The SQL statements the routers issue map onto four helpers in `Tables`:

- `Filter` is `SELECT ... WHERE`.
- `Find` is `db.scalar(SELECT ... WHERE)`: a matching row, the first one in the model's row order.
- `UpdateWhere` is `UPDATE ... WHERE ... SET`.
- `NextId` is the serial key handed out by `INSERT`.

Every writing endpoint returns a `Reply`: the committed store together with
an `Outcome`, which is `Pass` or `Fail(Unauthorized | NotFound)`. The reading
endpoints that can fail return a `Result`, whose error may also be `ServerError`, the 500
that an uncaught Python exception becomes. The authenticated user is a record of an id and
the three role flags.

Grades and the aggregate `rating` of a product are exact reals. The aggregate
a product should hold is `Aggregate.AggregateOf`: the mean of the grades of
its active ratings, or 0 when it has none. `Aggregate.Consistent` states that
every product holds it.

Files:

- `schema.dfy`: rows, store, user and error types, and key uniqueness (`WellFormed`).
- `tables.dfy`: the four SQL shapes and their lemmas.
- `aggregate.dfy`: sum, mean, active grades of a product, the consistency predicate, and the averaging loop.
- `reviews.dfy`: `review_by_product`, `all_reviews`, `add_review`, `delete_review`.
- `products.dfy`: `all_products`, `create_product`, `product_by_category`, `product_detail`, `update_product`, `delete_product`.
- `invariants.dfy`: which endpoints keep keys unique, and which keep every aggregate consistent.

## Behaviour of the code that the model keeps

- `add_review` commits the new rating and review before it looks the product
  up (`app/routers/reviews.py:87`, `:100-105`). The model does not enforce
  foreign keys (see "Left out"). In such a store, a submission for a missing
  product fails with NotFound and still leaves both rows behind.
  `Reviews.AddReview` states this. `Invariants.OrphanRatingSpoilsNewProduct`
  shows one consequence: the left-behind active rating names the id the next
  product will get, and that product is born inconsistent. When Postgres
  enforces the foreign keys declared at `app/models/rating.py:12` and
  `app/models/review.py:11`, the insert itself fails instead and the NotFound
  branch is not reached.
- The "No rating found" query of `delete_review` compares `Rating.id` with the
  column `Review.rating_id`, not with the deleted review's own `rating_id`
  (`app/routers/reviews.py:132`). It finds a row as soon as any review
  references any existing rating. `Reviews.SomeRatingReferenced` models it at
  that level.
- `delete_review` runs both not-found checks before the admin check. A
  non-admin therefore gets NotFound for a missing review.
- `delete_review` does not recompute the product's aggregate.
  `Reviews.DeleteReviewLeavesAggregateStale` exhibits a store that is
  consistent before an admin deletion and inconsistent after it.
- `update_product` and `delete_product` look a product up by slug whether it
  is active or not. Their `UPDATE` touches every row with that slug.
- `delete_review` looks the review up by id whether it is active or not.
- `product_by_category` as written fails with a 500 for every existing
  category (see "Findings"). `Products.ProductByCategoryAsWritten` models
  that. `Products.ProductByCategory` is the evidently intended listing: the
  category and its direct children only. The rest of the model uses the
  intended listing.

## Model

| member | source | states |
|---|---|---|
| Tables.Filter | app/routers/products.py:19-20 | the rows a `SELECT ... WHERE` returns are exactly the table's rows that satisfy the condition |
| Tables.FilterAppend | app/routers/reviews.py:67-90 | inserting a row extends a later query by that row exactly when the row satisfies its condition |
| Tables.FilterNone | app/routers/reviews.py:89-92 | a query no row satisfies returns no rows |
| Tables.FilterKeepsKeysUnique | app/routers/reviews.py:21-22 | a query over a table whose key is unique returns rows whose key is unique |
| Tables.Find | app/routers/products.py:81 | `db.scalar` returns a row that satisfies the condition, and returns none exactly when no row does |
| Tables.FindAppend | app/routers/products.py:67-69 | in the model's row order, a row appended at the end is returned by `db.scalar` only when no earlier row matches, and is returned when it matches and no earlier row does |
| Tables.NextId | app/models/rating.py:9 | the serial key handed out on insert is positive and differs from every key already in the table |
| Tables.UpdateKeepsKeysUnique | app/routers/products.py:133 | an `UPDATE` whose new values keep every row's key keeps the key unique |
| Tables.AppendFreshKeepsKeysUnique | app/models/rating.py:9 | inserting a row under a fresh key keeps the key unique |
| Tables.KeyNamesOneRow | app/models/products.py:12 | with a unique column, two rows with the same value are the same row |
| Aggregate.SumAppend | app/routers/reviews.py:94-96 | the running sum grows by the grade just added |
| Aggregate.ActiveRatingsOf | app/routers/reviews.py:89-92 | the ratings the aggregate is computed from are exactly the active ratings of the product |
| Aggregate.Grades | app/routers/reviews.py:95-96 | one grade per rating read, and the i-th grade is the grade of the i-th rating |
| Aggregate.ActiveGradesAppend | app/routers/reviews.py:67-92 | inserting a rating adds its grade to a product's active grades exactly when it is an active rating of that product; otherwise they are unchanged |
| Aggregate.AggregateUntouched | app/routers/reviews.py:89-92 | a rating of another product leaves this product's aggregate unchanged |
| Aggregate.AggregateOfUnrated | app/routers/products.py:34 | a product no active rating names has aggregate 0, the value a new product is created with |
| Aggregate.AggregateAfterInsert | app/routers/reviews.py:89-97 | after inserting an active rating for the product, the aggregate is the previous sum plus the new grade, divided by the previous count plus one |
| Aggregate.AggregateOfFirstGrade | app/routers/reviews.py:89-97 | the first active grade a product receives becomes its aggregate |
| Aggregate.AggregateOfSecondGrade | app/routers/reviews.py:89-97 | a second active grade makes the aggregate the mean of the two |
| Aggregate.TwoSubmissionsExample | app/routers/reviews.py:89-97 | for a product with no active grades, a grade of 4.0 gives aggregate 4.0, and a further 2.0 gives 3.0 |
| Aggregate.AverageGrade | app/routers/reviews.py:94-97 | the accumulation loop's result times the number of grades equals their sum |
| Aggregate.SumBounds | app/routers/reviews.py:94-96 | a sum of n grades within [lo, hi] lies within [n*lo, n*hi] |
| Aggregate.ActiveGradesWithinBounds | app/routers/reviews.py:89-92 | when every active rating of the product has its grade within [lo, hi], so does every grade the mean is taken over, the new one included when it is within [lo, hi] |
| Aggregate.MeanWithinBounds | app/routers/reviews.py:97 | the mean of values within [lo, hi] lies within [lo, hi] |
| Reviews.ActiveReviewFor | app/routers/reviews.py:28-33 | the review paired with a rating is an active review linked to it, and none is paired exactly when no such review exists |
| Reviews.PairWithReviews | app/routers/reviews.py:26-38 | one entry per rating, in order, each paired with an active review of that rating or with none when none exists |
| Reviews.ReviewByProduct | app/routers/reviews.py:19-38 | every entry is an active rating of the product with its active review or none, and every active rating of the product appears |
| Reviews.AllReviews | app/routers/reviews.py:41-60 | every entry is an active rating with its active review or none, and every active rating appears |
| Reviews.ListingsOnePerRating | app/routers/reviews.py:21-26 | with unique rating ids, no rating appears twice in either listing |
| Reviews.ProductById | app/routers/reviews.py:100-101 | the product lookup fails exactly when no product has the id |
| Reviews.InsertRatingAndReview | app/routers/reviews.py:67-87 | the inserts add one active rating with the form's grade, the user and the product under a fresh id, and one active review linked to that id and dated today; no product changes |
| Reviews.SetRating | app/routers/reviews.py:106-108 | only the `rating` of the rows with the product id changes, to the new value |
| Reviews.AddReview | app/routers/reviews.py:63-120 | a non-customer gets Unauthorized and nothing changes; a customer's rating and review are always committed; NotFound exactly when no product has the id, with products unchanged; success exactly for a customer and an existing product, and then the product's rating is set to the mean of at least one active grade and no other row changes |
| Reviews.ReviewById | app/routers/reviews.py:126-131 | the review lookup finds a review with the id, and finds none exactly when no review has it |
| Reviews.Retire | app/routers/reviews.py:147-149 | the reviews with the id, and the ratings with the linked id when that id is truthy, are set inactive; nothing else changes |
| Reviews.DeleteReview | app/routers/reviews.py:123-154 | any failure leaves the store unchanged; a missing review or no referenced rating gives NotFound; Unauthorized exactly when both checks pass and the user is not an admin; success exactly when they pass and the user is an admin, and then the review and its rating are soft-deleted |
| Reviews.RatingSetWithinBounds | app/routers/reviews.py:106-108 | storing a value within [lo, hi] leaves every row with the id rated within [lo, hi] |
| Reviews.AddReviewRatingWithinBounds | app/routers/reviews.py:89-108 | when the product's earlier active grades and the new grade lie within [lo, hi], so does the rating a successful submission stores |
| Reviews.AddReviewFoldsInNewGrade | app/routers/reviews.py:89-108 | after a successful submission the product's aggregate is the mean of its previous active grades together with the new grade |
| Reviews.DeleteReviewLeavesAggregateStale | app/routers/reviews.py:147-150 | a consistent store with one rated product keeps the product's rating 4.0 after an admin deletion, although its aggregate is then 0, so consistency is lost |
| Reviews.RetiredLeavesListings | app/routers/reviews.py:147-149 | after a deletion neither listing shows the deleted review, nor the rating it named when that id is truthy |
| Reviews.RetireIdempotent | app/routers/reviews.py:147-149 | soft-deleting twice is soft-deleting once |
| Reviews.RetireKeepsReferences | app/routers/reviews.py:132-137 | a deletion keeps the "No rating found" check passing |
| Reviews.RetireKeepsLink | app/routers/reviews.py:126-147 | with unique review ids, the deleted review can still be found and keeps its `rating_id` |
| Reviews.DeleteReviewIdempotent | app/routers/reviews.py:123-154 | with unique keys, a second admin deletion of the same review succeeds and changes nothing |
| Products.AllProducts | app/routers/products.py:17-20 | exactly the products that are active and in stock |
| Products.CreateProduct | app/routers/products.py:23-45 | a user who is neither admin nor supplier gets Unauthorized and nothing changes; otherwise one active product is appended under a fresh id with the form's fields, the user as supplier, aggregate 0 and the slug of its name, and nothing else changes |
| Products.CategoryBySlug | app/routers/products.py:50 | the category lookup finds a category with the slug, and finds none exactly when none has it |
| Products.ChildIds | app/routers/products.py:56-57 | exactly the ids of the categories whose parent is the given category |
| Products.ProductByCategoryAsWritten | app/routers/products.py:48-62 | always fails: NotFound exactly when no category has the slug, and a 500 exactly when one has it |
| Products.ProductByCategory | app/routers/products.py:48-62 | the evidently intended listing: NotFound exactly when no category has the slug; otherwise exactly the active, in-stock products filed under that category or one of its direct children |
| Products.CategoryListingAsWrittenFails | app/routers/products.py:50-56 | the listing as written gives a 500 exactly where the intended listing succeeds, and the same NotFound everywhere else |
| Products.CategoryListingCounterexample | app/routers/products.py:56 | for a store with category "lamps" holding one visible product, the intended listing returns that product and the listing as written gives a 500 |
| Products.ProductDetail | app/routers/products.py:65-75 | the product returned is active, in stock and has the slug; NotFound exactly when no such product exists |
| Products.ProductBySlug | app/routers/products.py:81-87 | the lookup by slug ignores `is_active`, and fails exactly when no product has the slug |
| Products.ReviseWhere | app/routers/products.py:98-106 | every row with the slug gets the form's name, image, description, price, stock and category and the slug of the new name, and keeps its id, rating, owner and active flag; other rows are unchanged |
| Products.DeactivateWhere | app/routers/products.py:133 | every row with the slug becomes inactive with its other fields kept; other rows are unchanged |
| Products.UpdateProduct | app/routers/products.py:78-111 | NotFound exactly when no product has the slug; Unauthorized exactly when the user is neither admin nor the owning supplier; any failure leaves the store unchanged; success revises exactly the rows with the slug and no other table |
| Products.DeleteProduct | app/routers/products.py:115-138 | NotFound exactly when no product has the slug; Unauthorized exactly when the user is neither admin nor the owning supplier; any failure leaves the store unchanged; success deactivates exactly the rows with the slug |
| Products.CategoryListingOneLevel | app/routers/products.py:56-61 | in the intended listing, a visible product of a direct child category is listed, and one of a grandchild is not |
| Products.DeletedProductHidden | app/routers/products.py:133 | after a product is deleted, no public listing or detail lookup shows its slug |
| Products.DeactivateWhereIdempotent | app/routers/products.py:133 | deactivating twice is deactivating once |
| Products.DeactivateWhereKeepsOwner | app/routers/products.py:118-133 | with unique slugs, the product a slug names after deactivation keeps its owner |
| Products.DeleteProductIdempotent | app/routers/products.py:115-138 | with unique slugs, a second deletion by the same user succeeds and changes nothing |
| Products.CreatedUnderNextId | app/routers/products.py:27-36 | a created product is appended under the next serial id of the products table |
| Products.CreatedProductListed | app/routers/products.py:27-35 | a product created in stock appears in the public listing; the detail lookup by the slug of its name succeeds, and returns the new product exactly when no older visible product holds that slug |
| Products.ReviseWhereNamesRevisedRow | app/routers/products.py:98-105 | with unique slugs and the new slug held by no row outside the update, the row the new slug names afterwards is the revised row, with its id kept |
| Products.UpdatedProductUnderNewSlug | app/routers/products.py:98-105 | after an update some product holds the slug of the new name; with unique slugs and the new slug held by no other product, it is the updated product, revised from the form |
| Invariants.AddReviewKeepsWellFormed | app/routers/reviews.py:63-109 | a submission keeps every table's key, and the product slug, unique |
| Invariants.DeleteReviewKeepsWellFormed | app/routers/reviews.py:147-150 | a review deletion keeps every key unique |
| Invariants.CreateProductKeepsWellFormed | app/routers/products.py:27-36 | creating a product whose slug is not taken keeps every key unique |
| Invariants.UpdateProductKeepsWellFormed | app/routers/products.py:98-107 | an update whose new slug no other product holds keeps every key unique |
| Invariants.DeleteProductKeepsWellFormed | app/routers/products.py:133-134 | a product deletion keeps every key unique |
| Invariants.ConsistentAfterRatingInsert | app/routers/reviews.py:67-108 | inserting a rating of one product and storing that product's new aggregate keeps every product consistent |
| Invariants.AddReviewKeepsConsistent | app/routers/reviews.py:63-109 | a successful submission keeps every product's rating equal to the mean of its active grades |
| Invariants.UpdateProductKeepsConsistent | app/routers/products.py:98-107 | an update keeps every aggregate consistent |
| Invariants.DeleteProductKeepsConsistent | app/routers/products.py:133-134 | a product deletion keeps every aggregate consistent |
| Invariants.CreateProductKeepsConsistent | app/routers/products.py:27-36 | when every active rating names an existing product, a new product with aggregate 0 keeps the store consistent |
| Invariants.OrphanRatingSpoilsNewProduct | app/routers/reviews.py:87-105 | in a store that does not enforce the foreign key from ratings to products, a nonzero grade submitted for the next unused product id fails with NotFound but stays committed, and the product created next is inconsistent |

## Left out

- `app/backend/db.py` (engine, session factory, environment variables): configuration with no behaviour of its own.
- async execution, `db.commit()` and transaction isolation: each endpoint is one sequential step. Concurrent submissions and lost updates on the aggregate are not modelled.
- Floating-point rounding of `grade` and `rating`: the mean is computed in exact reals.
- `slugify` is a parameter of type `string -> string` with no properties.
- The database's rejection of a duplicate slug is not modelled. The well-formedness lemmas for create and update instead require that the new slug is not taken.
- Authentication (`get_current_user`) is not part of this model. The user record, with its flags as booleans, is an input.
- `datetime.datetime.now().date()` is the `today` parameter of `Reviews.AddReview`.
- HTTP status codes and response bodies are left out. A writing endpoint's outcome keeps only Pass, Unauthorized or NotFound. A reading endpoint's error is NotFound, or ServerError for the 500 of the listing by category.
- The `print` in `add_review` is left out.
- The `Category` model file is not part of this model. Categories carry only the columns the router reads.
- The `users` table and foreign-key enforcement are left out. In the model, a rating may name a product that does not exist. Without the foreign key enforced, that is what `add_review` leaves behind for a missing product. With it enforced, the insert fails first.
- Tables.NextId: Postgres sequences are abstracted to one more than the largest key. Contracts rely only on freshness, except `Products.CreatedUnderNextId`, which states that a new product receives exactly this id, and `Invariants.OrphanRatingSpoilsNewProduct`, which relies on it.
- `grade`, `price`, `stock` and `is_active` are taken as non-null. A NULL `grade` would make the sum at `app/routers/reviews.py:96` raise. `rating_id` in a review is nullable, and its truthiness treats 0 as false, as Python does.
- Request-body validation (the `CreateProduct` and `CreateReview` schemas) is left out. Any grade and any form field values are accepted.
- Row order: no query of the routers has an `ORDER BY`, so Postgres returns rows in an unspecified order, and an `UPDATE` may move a row within a scan. The model fixes insertion order, with updated rows kept in place. Which row `Find` returns when several rows match, and the order of every listing, are therefore the model's choice. `Tables.FindAppend` and the "no older visible product" half of `Products.CreatedProductListed` depend on it. The lookups by id and by product slug are not affected: the unique constraints on ids and on `products.slug` allow at most one matching row.
- CategoryListingOneLevel: states the one-level reach of the intended listing `Products.ProductByCategory`. The endpoint as written never returns a listing for an existing category (see "Findings").
- ProductByCategory: models the evidently intended listing, not the code as written; `Products.ProductByCategoryAsWritten` models the code.

## Findings

| source | as written | input that shows it | evidently intended | confidence | as-written member | corrected member |
|---|---|---|---|---|---|---|
| app/routers/products.py:56 | `.all()` is applied to the coroutine returned by `db.scalars(...)` before it is awaited, because attribute access binds tighter than `await`; the resulting `AttributeError` becomes a 500 | any request whose slug names an existing category, e.g. category 10 "lamps" with one visible product filed under it | await the subcategory query, then call `.all()`, and list the active, in-stock products of the category and its direct children | high; not executed | Products.ProductByCategoryAsWritten, with Products.CategoryListingAsWrittenFails and Products.CategoryListingCounterexample | Products.ProductByCategory, with Products.CategoryListingOneLevel |
