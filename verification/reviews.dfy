/** The review/rating engine: the four endpoints of the `/reviews` router as
    functions over the store.
 */
module Reviews {
  import opened Schema
  import opened Tables
  import opened Aggregate

  /** The `CreateReview` request body. */
  datatype ReviewForm = ReviewForm(productId: Id, grade: real, comment: string)

  /** One element of a listing: a rating and the active review attached to it, if any. */
  datatype Entry = Entry(rating: Rating, review: Option<Review>)

  /** The first active review whose `rating_id` is `ratingId`. */
  function ActiveReviewFor(reviews: seq<Review>, ratingId: Id): (r: Option<Review>)
    ensures r.Some? ==> r.value in reviews && r.value.isActive && r.value.ratingId == Some(ratingId)
    ensures r.None? <==> forall v :: v in reviews ==> !(v.isActive && v.ratingId == Some(ratingId))
  {
    Find(reviews, (v: Review) => v.isActive && v.ratingId == Some(ratingId))
  }

  /** Entry `e` carries an active review of its rating, or none exists. */
  predicate Paired(reviews: seq<Review>, e: Entry)
  {
    match e.review
    case Some(v) => v in reviews && v.isActive && v.ratingId == Some(e.rating.id)
    case None => forall v :: v in reviews ==> !(v.isActive && v.ratingId == Some(e.rating.id))
  }

  /** The loop shared by both listings: each rating paired with its active review. */
  function PairWithReviews(ratings: seq<Rating>, reviews: seq<Review>): (r: seq<Entry>)
    ensures |r| == |ratings|
    ensures forall i :: 0 <= i < |r| ==> r[i].rating == ratings[i] && Paired(reviews, r[i])
  {
    seq(|ratings|, i requires 0 <= i < |ratings| => Entry(ratings[i], ActiveReviewFor(reviews, ratings[i].id)))
  }

  predicate IsActiveRating(x: Rating) { x.isActive }

  /** `GET /reviews/{product_id}`: the active ratings of one product with their reviews. */
  function ReviewByProduct(s: Store, pid: Id): (r: seq<Entry>)
    ensures forall e :: e in r ==>
      && e.rating in s.ratings && e.rating.isActive && e.rating.productId == Some(pid)
      && Paired(s.reviews, e)
    ensures forall x :: x in s.ratings && x.isActive && x.productId == Some(pid) ==>
      exists e :: e in r && e.rating == x
  {
    var rs := ActiveRatingsOf(s.ratings, pid);
    var r := PairWithReviews(rs, s.reviews);
    assert forall x :: x in rs ==> exists i :: 0 <= i < |rs| && rs[i] == x && r[i].rating == x;
    r
  }

  /** `GET /reviews/`: every active rating with its review. */
  function AllReviews(s: Store): (r: seq<Entry>)
    ensures forall e :: e in r ==> e.rating in s.ratings && e.rating.isActive && Paired(s.reviews, e)
    ensures forall x :: x in s.ratings && x.isActive ==> exists e :: e in r && e.rating == x
  {
    var rs := Filter(s.ratings, IsActiveRating);
    var r := PairWithReviews(rs, s.reviews);
    assert forall x :: x in rs ==> exists i :: 0 <= i < |rs| && rs[i] == x && r[i].rating == x;
    assert forall e :: e in r ==> e.rating in rs && IsActiveRating(e.rating);
    r
  }

  /** No rating appears twice in either listing. */
  lemma ListingsOnePerRating(s: Store, pid: Id)
    requires WellFormed(s)
    ensures var r := ReviewByProduct(s, pid);
      forall i, j :: 0 <= i < j < |r| ==> r[i].rating.id != r[j].rating.id
    ensures var r := AllReviews(s);
      forall i, j :: 0 <= i < j < |r| ==> r[i].rating.id != r[j].rating.id
  {
    FilterKeepsKeysUnique(s.ratings, (x: Rating) => x.isActive && x.productId == Some(pid), RatingKey);
    FilterKeepsKeysUnique(s.ratings, IsActiveRating, RatingKey);
  }

  function ProductById(products: seq<Product>, pid: Id): (r: Option<Product>)
    ensures r.None? <==> forall p :: p in products ==> p.id != pid
  {
    Find(products, (p: Product) => p.id == pid)
  }

  /** `add_review` inserted exactly one active rating and one active review
      linked to it, under fresh ids, and touched no existing rating or review. */
  predicate Submitted(before: Store, after: Store, user: User, form: ReviewForm, today: Date)
  {
    && after.categories == before.categories
    && |after.ratings| == |before.ratings| + 1
    && after.ratings[..|before.ratings|] == before.ratings
    && |after.reviews| == |before.reviews| + 1
    && after.reviews[..|before.reviews|] == before.reviews
    && var rating := after.ratings[|before.ratings|];
       var review := after.reviews[|before.reviews|];
       && (forall x :: x in before.ratings ==> x.id != rating.id)
       && (forall v :: v in before.reviews ==> v.id != review.id)
       && rating == Rating(rating.id, form.grade, Some(user.id), Some(form.productId), true)
       && review == Review(review.id, Some(user.id), Some(form.productId), Some(rating.id),
                           form.comment, today, true)
  }

  /** Only the `rating` of the rows with id `pid` changed, to `value`. */
  predicate RatingSet(before: seq<Product>, after: seq<Product>, pid: Id, value: real)
  {
    && |after| == |before|
    && forall i :: 0 <= i < |before| ==>
         after[i] == if before[i].id == pid then before[i].(rating := value) else before[i]
  }

  /** The two inserts `add_review` commits first: a rating under a fresh id
      and a review linked to it. */
  function InsertRatingAndReview(s: Store, user: User, form: ReviewForm, today: Date): (c: Store)
    ensures Submitted(s, c, user, form, today)
    ensures c.products == s.products
  {
    var rating := Rating(NextId(s.ratings, RatingKey), form.grade, Some(user.id), Some(form.productId), true);
    var review := Review(NextId(s.reviews, ReviewKey), Some(user.id), Some(form.productId), Some(rating.id),
                         form.comment, today, true);
    var c := s.(ratings := s.ratings + [rating], reviews := s.reviews + [review]);
    assert c.ratings[..|s.ratings|] == s.ratings;
    assert c.reviews[..|s.reviews|] == s.reviews;
    c
  }

  /** `UPDATE products SET rating = value WHERE id = pid`. */
  function SetRating(products: seq<Product>, pid: Id, value: real): (r: seq<Product>)
    ensures RatingSet(products, r, pid, value)
  {
    UpdateWhere(products, (p: Product) => p.id == pid, (p: Product) => p.(rating := value))
  }

  /** `POST /reviews/create`. The rating and review are committed before the
      product is looked up, so a missing product still leaves them behind. */
  function AddReview(s: Store, user: User, form: ReviewForm, today: Date): (t: Reply)
    ensures !user.isCustomer ==> t == Reply(s, Fail(Unauthorized))
    ensures user.isCustomer ==> Submitted(s, t.store, user, form, today)
    ensures user.isCustomer ==>
      (t.outcome == Fail(NotFound) <==> forall p :: p in s.products ==> p.id != form.productId)
    ensures t.outcome == Fail(NotFound) ==> t.store.products == s.products
    ensures t.outcome == Pass <==> user.isCustomer && exists p :: p in s.products && p.id == form.productId
    ensures t.outcome == Pass ==> |ActiveGrades(t.store.ratings, form.productId)| >= 1
    ensures t.outcome == Pass ==>
      RatingSet(s.products, t.store.products, form.productId, AggregateOf(t.store.ratings, form.productId))
  {
    if !user.isCustomer then Reply(s, Fail(Unauthorized))
    else
      var pid := form.productId;
      var committed := InsertRatingAndReview(s, user, form, today);
      assert committed.ratings[|s.ratings|] in ActiveRatingsOf(committed.ratings, pid);
      var average := Mean(ActiveGrades(committed.ratings, pid));
      if ProductById(s.products, pid).None? then Reply(committed, Fail(NotFound))
      else Reply(committed.(products := SetRating(s.products, pid, average)), Pass)
  }

  /** The first review whose id is `reviewId`, active or not. */
  function ReviewById(reviews: seq<Review>, reviewId: Id): (r: Option<Review>)
    ensures r.Some? ==> r.value in reviews && r.value.id == reviewId
    ensures r.None? <==> forall v :: v in reviews ==> v.id != reviewId
  {
    Find(reviews, (v: Review) => v.id == reviewId)
  }

  /** The "No rating found" query joins ratings with reviews on
      `Rating.id == Review.rating_id` without naming the review being deleted:
      it finds a row as soon as any review references an existing rating. */
  predicate SomeRatingReferenced(s: Store)
  {
    exists x, v :: x in s.ratings && v in s.reviews && v.ratingId == Some(x.id)
  }

  /** `delete_review` soft-deleted the reviews with id `reviewId` and, when
      `ratingId` is truthy, the ratings it names; nothing else changed, not
      even the aggregate rating of the product. */
  predicate Retired(before: Store, after: Store, reviewId: Id, ratingId: Option<Id>)
  {
    && after.products == before.products
    && after.categories == before.categories
    && |after.reviews| == |before.reviews|
    && (forall i :: 0 <= i < |before.reviews| ==>
          after.reviews[i] == if before.reviews[i].id == reviewId
                              then before.reviews[i].(isActive := false) else before.reviews[i])
    && |after.ratings| == |before.ratings|
    && (forall i :: 0 <= i < |before.ratings| ==>
          after.ratings[i] == if Truthy(ratingId) && before.ratings[i].id == ratingId.value
                              then before.ratings[i].(isActive := false) else before.ratings[i])
  }

  /** The two `UPDATE ... SET is_active = False` statements of `delete_review`. */
  function Retire(s: Store, reviewId: Id, ratingId: Option<Id>): (r: Store)
    ensures Retired(s, r, reviewId, ratingId)
  {
    var reviews := UpdateWhere(s.reviews, (w: Review) => w.id == reviewId,
                               (w: Review) => w.(isActive := false));
    var ratings := if Truthy(ratingId)
      then UpdateWhere(s.ratings, (x: Rating) => x.id == ratingId.value,
                       (x: Rating) => x.(isActive := false))
      else s.ratings;
    s.(reviews := reviews, ratings := ratings)
  }

  /** `DELETE /reviews/delete`. Both not-found checks run before the admin check. */
  function DeleteReview(s: Store, user: User, reviewId: Id): (t: Reply)
    ensures t.outcome.Fail? ==> t.store == s
    ensures (forall v :: v in s.reviews ==> v.id != reviewId) ==> t.outcome == Fail(NotFound)
    ensures !SomeRatingReferenced(s) ==> t.outcome == Fail(NotFound)
    ensures t.outcome == Fail(Unauthorized) <==>
      (exists v :: v in s.reviews && v.id == reviewId) && SomeRatingReferenced(s) && !user.isAdmin
    ensures t.outcome == Pass <==>
      (exists v :: v in s.reviews && v.id == reviewId) && SomeRatingReferenced(s) && user.isAdmin
    ensures t.outcome == Pass ==>
      Retired(s, t.store, reviewId, ReviewById(s.reviews, reviewId).value.ratingId)
  {
    match ReviewById(s.reviews, reviewId)
    case None => Reply(s, Fail(NotFound))
    case Some(v) =>
      if !SomeRatingReferenced(s) then Reply(s, Fail(NotFound))
      else if !user.isAdmin then Reply(s, Fail(Unauthorized))
      else Reply(Retire(s, reviewId, v.ratingId), Pass)
  }

  /** A successful submission sets the aggregate (which `AddReview` stores in
      the product row) to the mean of the active grades the product had before,
      together with the new grade. */
  lemma AddReviewFoldsInNewGrade(s: Store, user: User, form: ReviewForm, today: Date)
    requires user.isCustomer && exists p :: p in s.products && p.id == form.productId
    ensures AggregateOf(AddReview(s, user, form, today).store.ratings, form.productId)
         == Mean(ActiveGrades(s.ratings, form.productId) + [form.grade])
  {
    var t := AddReview(s, user, form, today);
    var added := t.store.ratings[|s.ratings|];
    assert t.store.ratings == s.ratings + [added];
    assert added.isActive && added.productId == Some(form.productId) && added.grade == form.grade;
    ActiveGradesAppend(s.ratings, added, form.productId);
  }

  /** Storing a value within [lo, hi] leaves every row with the id rated within [lo, hi]. */
  lemma RatingSetWithinBounds(before: seq<Product>, after: seq<Product>, pid: Id, value: real, lo: real, hi: real)
    requires RatingSet(before, after, pid, value)
    requires lo <= value <= hi
    ensures forall p :: p in after && p.id == pid ==> lo <= p.rating <= hi
  {
    forall p | p in after && p.id == pid
      ensures lo <= p.rating <= hi
    {
      var i :| 0 <= i < |after| && after[i] == p;
    }
  }

  /** When the earlier active grades of the product and the new grade all lie
      within [lo, hi], so does the rating a successful submission stores. */
  lemma AddReviewRatingWithinBounds(s: Store, user: User, form: ReviewForm, today: Date, lo: real, hi: real)
    requires user.isCustomer && exists p :: p in s.products && p.id == form.productId
    requires forall x :: x in s.ratings && x.isActive && x.productId == Some(form.productId) ==> lo <= x.grade <= hi
    requires lo <= form.grade <= hi
    ensures forall p :: p in AddReview(s, user, form, today).store.products && p.id == form.productId ==>
      lo <= p.rating <= hi
  {
    var t := AddReview(s, user, form, today);
    assert t.outcome == Pass;
    var value := AggregateOf(t.store.ratings, form.productId);
    var g := ActiveGrades(s.ratings, form.productId) + [form.grade];
    AddReviewFoldsInNewGrade(s, user, form, today);
    ActiveGradesWithinBounds(s.ratings, form.productId, form.grade, lo, hi);
    MeanWithinBounds(g, lo, hi);
    RatingSetWithinBounds(s.products, t.store.products, form.productId, value, lo, hi);
  }

  /** The aggregate is not recomputed on deletion: a product whose rating was
      the mean of its one active grade keeps that rating after the review and
      its rating are soft-deleted, although no active grade is left. */
  lemma DeleteReviewLeavesAggregateStale(today: Date)
    ensures var s := Store(
        [Product(7, "Lamp", "lamp", "", 10, "", 3, None, None, 4.0, true)],
        [],
        [Rating(1, 4.0, Some(2), Some(7), true)],
        [Review(1, Some(2), Some(7), Some(1), "good", today, true)]);
      var t := DeleteReview(s, User(9, true, false, false), 1);
      && Consistent(s)
      && t.outcome == Pass
      && t.store.products[0].rating == 4.0
      && AggregateOf(t.store.ratings, 7) == 0.0
      && !Consistent(t.store)
  {
    var s := Store(
        [Product(7, "Lamp", "lamp", "", 10, "", 3, None, None, 4.0, true)],
        [],
        [Rating(1, 4.0, Some(2), Some(7), true)],
        [Review(1, Some(2), Some(7), Some(1), "good", today, true)]);
    var rating := s.ratings[0];
    assert s.ratings == [] + [rating];
    ActiveGradesAppend([], rating, 7);
    assert ActiveGrades(s.ratings, 7) == [4.0];
    assert Consistent(s);
    assert SomeRatingReferenced(s) by {
      assert s.ratings[0] in s.ratings && s.reviews[0] in s.reviews;
    }
    var t := DeleteReview(s, User(9, true, false, false), 1);
    assert s.reviews[0] in s.reviews;
    var retired := t.store.ratings[0];
    assert !retired.isActive;
    assert t.store.ratings == [] + [retired];
    ActiveGradesAppend([], retired, 7);
    assert t.store.products[0] in t.store.products;
  }

  /** After a soft-delete the review, and the rating it names when that id is
      truthy, are gone from both listings. */
  lemma RetiredLeavesListings(s: Store, reviewId: Id, ratingId: Option<Id>, pid: Id)
    ensures var after := Retire(s, reviewId, ratingId);
      forall e :: e in ReviewByProduct(after, pid) + AllReviews(after) ==>
        && (e.review.Some? ==> e.review.value.id != reviewId)
        && (Truthy(ratingId) ==> Some(e.rating.id) != ratingId)
  {
    var after := Retire(s, reviewId, ratingId);
    forall e | e in ReviewByProduct(after, pid) + AllReviews(after)
      ensures e.review.Some? ==> e.review.value.id != reviewId
      ensures Truthy(ratingId) ==> Some(e.rating.id) != ratingId
    {
      assert e in ReviewByProduct(after, pid) || e in AllReviews(after);
      assert e.rating in after.ratings && e.rating.isActive && Paired(after.reviews, e);
      var i :| 0 <= i < |after.ratings| && after.ratings[i] == e.rating;
      if e.review.Some? {
        var j :| 0 <= j < |after.reviews| && after.reviews[j] == e.review.value;
      }
    }
  }

  /** Soft-deleting twice is soft-deleting once. */
  lemma RetireIdempotent(s: Store, reviewId: Id, ratingId: Option<Id>)
    ensures Retire(Retire(s, reviewId, ratingId), reviewId, ratingId) == Retire(s, reviewId, ratingId)
  {
    var once := Retire(s, reviewId, ratingId);
    var twice := Retire(once, reviewId, ratingId);
    assert twice.reviews == once.reviews;
    assert twice.ratings == once.ratings;
  }

  /** Soft-deleting keeps every rating id and every review's `rating_id`, so the
      "No rating found" check answers as before. */
  lemma RetireKeepsReferences(s: Store, reviewId: Id, ratingId: Option<Id>)
    requires SomeRatingReferenced(s)
    ensures SomeRatingReferenced(Retire(s, reviewId, ratingId))
  {
    var after := Retire(s, reviewId, ratingId);
    var x, w :| x in s.ratings && w in s.reviews && w.ratingId == Some(x.id);
    var a :| 0 <= a < |s.ratings| && s.ratings[a] == x;
    var b :| 0 <= b < |s.reviews| && s.reviews[b] == w;
    assert after.ratings[a] in after.ratings && after.reviews[b] in after.reviews;
  }

  /** With unique review ids, the review a second deletion finds is the one
      the first deletion retired, with the same `rating_id`. */
  lemma RetireKeepsLink(s: Store, v: Review, ratingId: Option<Id>)
    requires UniqueKeys(s.reviews, ReviewKey)
    requires v in s.reviews
    ensures exists w :: w in Retire(s, v.id, ratingId).reviews && w.id == v.id
    ensures forall w :: w in Retire(s, v.id, ratingId).reviews && w.id == v.id ==> w.ratingId == v.ratingId
  {
    var after := Retire(s, v.id, ratingId);
    var k :| 0 <= k < |s.reviews| && s.reviews[k] == v;
    assert after.reviews[k] in after.reviews;
    forall w | w in after.reviews && w.id == v.id
      ensures w.ratingId == v.ratingId
    {
      var j :| 0 <= j < |after.reviews| && after.reviews[j] == w;
      assert ReviewKey(s.reviews[j]) == ReviewKey(s.reviews[k]);
    }
  }

  /** A second `delete_review` of the same review succeeds and changes nothing. */
  lemma DeleteReviewIdempotent(s: Store, user: User, reviewId: Id)
    requires WellFormed(s)
    requires DeleteReview(s, user, reviewId).outcome == Pass
    ensures var t := DeleteReview(s, user, reviewId);
      DeleteReview(t.store, user, reviewId) == t
  {
    var t := DeleteReview(s, user, reviewId);
    var v := ReviewById(s.reviews, reviewId).value;
    assert t == Reply(Retire(s, reviewId, v.ratingId), Pass);
    RetireKeepsReferences(s, reviewId, v.ratingId);
    RetireKeepsLink(s, v, v.ratingId);
    var w := ReviewById(t.store.reviews, reviewId).value;
    assert w.ratingId == v.ratingId;
    assert DeleteReview(t.store, user, reviewId) == Reply(Retire(t.store, reviewId, v.ratingId), Pass);
    RetireIdempotent(s, reviewId, v.ratingId);
  }
}
