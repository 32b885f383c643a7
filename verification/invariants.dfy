/** Store-wide invariants across both routers: which writes keep the keys
    unique, and which keep every product's aggregate equal to the mean of its
    active grades.
 */
module Invariants {
  import opened Schema
  import opened Tables
  import opened Aggregate
  import opened Reviews
  import opened Products

  /** Every active rating names a product that exists. */
  predicate NoOrphanRatings(s: Store)
  {
    forall x :: x in s.ratings && x.isActive && x.productId.Some? ==>
      exists p :: p in s.products && p.id == x.productId.value
  }

  /** A submission inserts its rows under new ids and rewrites only aggregates. */
  lemma AddReviewKeepsWellFormed(s: Store, user: User, form: ReviewForm, today: Date)
    requires WellFormed(s)
    ensures WellFormed(AddReview(s, user, form, today).store)
  {
    var t := AddReview(s, user, form, today);
    if user.isCustomer {
      var rating := t.store.ratings[|s.ratings|];
      var review := t.store.reviews[|s.reviews|];
      assert t.store.ratings == s.ratings + [rating];
      assert t.store.reviews == s.reviews + [review];
      forall i | 0 <= i < |s.ratings|
        ensures RatingKey(s.ratings[i]) != RatingKey(rating)
      {
        assert s.ratings[i] in s.ratings;
      }
      forall i | 0 <= i < |s.reviews|
        ensures ReviewKey(s.reviews[i]) != ReviewKey(review)
      {
        assert s.reviews[i] in s.reviews;
      }
      AppendFreshKeepsKeysUnique(s.ratings, rating, RatingKey);
      AppendFreshKeepsKeysUnique(s.reviews, review, ReviewKey);
      if t.outcome == Pass {
        var value := AggregateOf(t.store.ratings, form.productId);
        assert t.store.products == SetRating(s.products, form.productId, value);
        UpdateKeepsKeysUnique(s.products, (p: Product) => p.id == form.productId,
                              (p: Product) => p.(rating := value), ProductKey);
        UpdateKeepsKeysUnique(s.products, (p: Product) => p.id == form.productId,
                              (p: Product) => p.(rating := value), ProductSlug);
      }
    }
  }

  /** A review deletion only flips `is_active` flags. */
  lemma DeleteReviewKeepsWellFormed(s: Store, user: User, reviewId: Id)
    requires WellFormed(s)
    ensures WellFormed(DeleteReview(s, user, reviewId).store)
  {
    var t := DeleteReview(s, user, reviewId);
    if t.outcome == Pass {
      var ratingId := ReviewById(s.reviews, reviewId).value.ratingId;
      assert t.store == Retire(s, reviewId, ratingId);
      UpdateKeepsKeysUnique(s.reviews, (w: Review) => w.id == reviewId,
                            (w: Review) => w.(isActive := false), ReviewKey);
      if Truthy(ratingId) {
        UpdateKeepsKeysUnique(s.ratings, (x: Rating) => x.id == ratingId.value,
                              (x: Rating) => x.(isActive := false), RatingKey);
      }
    }
  }

  /** Creating a product keeps the store well formed as long as the slug of its
      name is not taken (the database would reject the insert otherwise). */
  lemma CreateProductKeepsWellFormed(s: Store, user: User, form: ProductForm, slugify: string -> string)
    requires WellFormed(s)
    requires forall p :: p in s.products ==> p.slug != slugify(form.name)
    ensures WellFormed(CreateProduct(s, user, form, slugify).store)
  {
    var t := CreateProduct(s, user, form, slugify);
    if MayCreate(user) {
      var p := t.store.products[|s.products|];
      assert t.store.products == s.products + [p];
      forall i | 0 <= i < |s.products|
        ensures ProductKey(s.products[i]) != ProductKey(p) && ProductSlug(s.products[i]) != ProductSlug(p)
      {
        assert s.products[i] in s.products;
      }
      AppendFreshKeepsKeysUnique(s.products, p, ProductKey);
      AppendFreshKeepsKeysUnique(s.products, p, ProductSlug);
    }
  }

  /** An update keeps the store well formed as long as the slug of the new
      name is not held by another product (the database would reject the
      update otherwise). */
  lemma UpdateProductKeepsWellFormed(s: Store, user: User, slug: string, form: ProductForm,
                                     slugify: string -> string)
    requires WellFormed(s)
    requires forall p :: p in s.products && p.slug != slug ==> p.slug != slugify(form.name)
    ensures WellFormed(UpdateProduct(s, user, slug, form, slugify).store)
  {
    var t := UpdateProduct(s, user, slug, form, slugify);
    if t.outcome == Pass {
      var after := t.store.products;
      forall i, j | 0 <= i < j < |after|
        ensures ProductKey(after[i]) != ProductKey(after[j])
        ensures ProductSlug(after[i]) != ProductSlug(after[j])
      {
        assert ProductKey(s.products[i]) != ProductKey(s.products[j]);
        assert ProductSlug(s.products[i]) != ProductSlug(s.products[j]);
        assert s.products[i] in s.products && s.products[j] in s.products;
      }
    }
  }

  /** Soft-deleting a product only flips `is_active`. */
  lemma DeleteProductKeepsWellFormed(s: Store, user: User, slug: string)
    requires WellFormed(s)
    ensures WellFormed(DeleteProduct(s, user, slug).store)
  {
    var t := DeleteProduct(s, user, slug);
    if t.outcome == Pass {
      assert t.store.products == DeactivateWhere(s.products, slug);
      UpdateKeepsKeysUnique(s.products, (p: Product) => p.slug == slug,
                            (p: Product) => p.(isActive := false), ProductKey);
      UpdateKeepsKeysUnique(s.products, (p: Product) => p.slug == slug,
                            (p: Product) => p.(isActive := false), ProductSlug);
    }
  }

  /** Appending a rating of `pid` and storing `pid`'s new aggregate keeps
      every product's aggregate equal to the mean of its active grades: the
      rating cannot change the active grades of any other product. */
  lemma ConsistentAfterRatingInsert(before: Store, after: Store, x: Rating, pid: Id)
    requires Consistent(before)
    requires after.ratings == before.ratings + [x]
    requires x.productId == Some(pid)
    requires RatingSet(before.products, after.products, pid, AggregateOf(after.ratings, pid))
    ensures Consistent(after)
  {
    forall i | 0 <= i < |after.products|
      ensures after.products[i].rating == AggregateOf(after.ratings, after.products[i].id)
    {
      var q := before.products[i];
      assert q in before.products;
      if q.id != pid {
        AggregateUntouched(before.ratings, x, q.id);
      }
    }
  }

  /** After a successful submission every product's aggregate is the mean of
      its active grades, if it was so before: the target product's is
      recomputed, and no other product's active grades change. */
  lemma AddReviewKeepsConsistent(s: Store, user: User, form: ReviewForm, today: Date)
    requires Consistent(s)
    requires user.isCustomer && exists p :: p in s.products && p.id == form.productId
    ensures Consistent(AddReview(s, user, form, today).store)
  {
    var t := AddReview(s, user, form, today);
    assert Submitted(s, t.store, user, form, today);
    var added := t.store.ratings[|s.ratings|];
    assert t.store.ratings == s.ratings + [added];
    ConsistentAfterRatingInsert(s, t.store, added, form.productId);
  }

  /** An update keeps ids, aggregates and ratings, so it keeps consistency. */
  lemma UpdateProductKeepsConsistent(s: Store, user: User, slug: string, form: ProductForm,
                                     slugify: string -> string)
    requires Consistent(s)
    ensures Consistent(UpdateProduct(s, user, slug, form, slugify).store)
  {
    var t := UpdateProduct(s, user, slug, form, slugify);
    forall p | p in t.store.products
      ensures p.rating == AggregateOf(t.store.ratings, p.id)
    {
      var i :| 0 <= i < |t.store.products| && t.store.products[i] == p;
      assert s.products[i] in s.products;
    }
  }

  /** A soft delete of a product keeps consistency. */
  lemma DeleteProductKeepsConsistent(s: Store, user: User, slug: string)
    requires Consistent(s)
    ensures Consistent(DeleteProduct(s, user, slug).store)
  {
    var t := DeleteProduct(s, user, slug);
    forall p | p in t.store.products
      ensures p.rating == AggregateOf(t.store.ratings, p.id)
    {
      var i :| 0 <= i < |t.store.products| && t.store.products[i] == p;
      assert s.products[i] in s.products;
    }
  }

  /** A new product starts at 0, which is consistent only because no active
      rating can already name its new id when every active rating names an
      existing product. */
  lemma CreateProductKeepsConsistent(s: Store, user: User, form: ProductForm, slugify: string -> string)
    requires Consistent(s)
    requires NoOrphanRatings(s)
    ensures Consistent(CreateProduct(s, user, form, slugify).store)
  {
    var t := CreateProduct(s, user, form, slugify);
    if MayCreate(user) {
      var born := t.store.products[|s.products|];
      forall x | x in s.ratings && x.isActive
        ensures x.productId != Some(born.id)
      {
        if x.productId.Some? {
          var p :| p in s.products && p.id == x.productId.value;
          assert p.id != born.id;
        }
      }
      AggregateOfUnrated(s.ratings, born.id);
      forall p | p in t.store.products
        ensures p.rating == AggregateOf(t.store.ratings, p.id)
      {
        var i :| 0 <= i < |t.store.products| && t.store.products[i] == p;
        if i < |s.products| {
          assert t.store.products[..|s.products|][i] == s.products[i];
          assert s.products[i] in s.products;
        }
      }
    }
  }

  /** In a store that does not enforce the foreign key from ratings to
      products: because `add_review` commits before it looks the product up,
      a submission for a product id nobody has used yet leaves an active
      rating behind; the next product created gets that id, starts at 0 and
      is inconsistent from birth. */
  lemma OrphanRatingSpoilsNewProduct(s: Store, customer: User, form: ReviewForm, today: Date,
                                     supplier: User, product: ProductForm, slugify: string -> string)
    requires Consistent(s)
    requires customer.isCustomer && MayCreate(supplier)
    requires form.productId == NextId(s.products, ProductKey)
    requires ActiveGrades(s.ratings, form.productId) == []
    requires form.grade != 0.0
    ensures var first := AddReview(s, customer, form, today);
      var second := CreateProduct(first.store, supplier, product, slugify);
      && first.outcome == Fail(NotFound)
      && second.outcome == Pass
      && !Consistent(second.store)
  {
    var pid := form.productId;
    forall p | p in s.products
      ensures p.id != pid
    {
      var i :| 0 <= i < |s.products| && s.products[i] == p;
    }
    var first := AddReview(s, customer, form, today);
    assert Submitted(s, first.store, customer, form, today);
    assert first.outcome == Fail(NotFound);
    var added := first.store.ratings[|s.ratings|];
    assert first.store.ratings == s.ratings + [added];
    AggregateOfFirstGrade(s.ratings, added, pid);
    var second := CreateProduct(first.store, supplier, product, slugify);
    CreatedUnderNextId(first.store, supplier, product, slugify);
    var born := second.store.products[|s.products|];
    assert born in second.store.products;
    assert born.rating == 0.0 && born.id == pid;
  }
}
