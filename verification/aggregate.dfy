/** The aggregate rating of a product: the arithmetic mean of the grades of its
    active ratings, as `add_review` recomputes it.
 */
module Aggregate {
  import opened Schema
  import opened Tables

  function Sum(xs: seq<real>): real
  {
    if |xs| == 0 then 0.0 else xs[0] + Sum(xs[1..])
  }

  lemma {:induction false} SumAppend(xs: seq<real>, x: real)
    ensures Sum(xs + [x]) == Sum(xs) + x
  {
    if |xs| == 0 {
      assert xs + [x] == [x];
    } else {
      assert (xs + [x])[1..] == xs[1..] + [x];
      SumAppend(xs[1..], x);
    }
  }

  function Mean(xs: seq<real>): real
    requires |xs| > 0
  {
    Sum(xs) / (|xs| as real)
  }

  /** The ratings the aggregate of product `pid` is computed from:
      `is_active == True` and `product_id == pid`. */
  function ActiveRatingsOf(ratings: seq<Rating>, pid: Id): (r: seq<Rating>)
    ensures forall x :: x in r <==> x in ratings && x.isActive && x.productId == Some(pid)
  {
    Filter(ratings, (x: Rating) => x.isActive && x.productId == Some(pid))
  }

  /** The grades of `rs`, one per rating and in the same order. */
  function Grades(rs: seq<Rating>): (g: seq<real>)
    ensures |g| == |rs|
    ensures forall i :: 0 <= i < |rs| ==> g[i] == rs[i].grade
  {
    seq(|rs|, i requires 0 <= i < |rs| => rs[i].grade)
  }

  function ActiveGrades(ratings: seq<Rating>, pid: Id): seq<real>
  {
    Grades(ActiveRatingsOf(ratings, pid))
  }

  /** The aggregate the product row should hold: the mean of its active grades,
      and 0 for a product nobody has rated yet (the `rating=0.0` of a new product). */
  function AggregateOf(ratings: seq<Rating>, pid: Id): real
  {
    var g := ActiveGrades(ratings, pid);
    if |g| == 0 then 0.0 else Mean(g)
  }

  /** Every product's stored `rating` equals the aggregate of its active ratings. */
  predicate Consistent(s: Store)
  {
    forall p :: p in s.products ==> p.rating == AggregateOf(s.ratings, p.id)
  }

  /** Inserting rating `x` extends product `pid`'s active grades by `x.grade`
      exactly when `x` is an active rating of `pid`. */
  lemma ActiveGradesAppend(ratings: seq<Rating>, x: Rating, pid: Id)
    ensures ActiveGrades(ratings + [x], pid)
         == ActiveGrades(ratings, pid) + (if x.isActive && x.productId == Some(pid) then [x.grade] else [])
  {
    FilterAppend(ratings, x, (y: Rating) => y.isActive && y.productId == Some(pid));
  }

  /** A rating that does not belong to `pid` leaves `pid`'s aggregate alone. */
  lemma AggregateUntouched(ratings: seq<Rating>, x: Rating, pid: Id)
    requires x.productId != Some(pid)
    ensures AggregateOf(ratings + [x], pid) == AggregateOf(ratings, pid)
  {
    var g := ActiveGrades(ratings, pid);
    ActiveGradesAppend(ratings, x, pid);
    assert g + [] == g;
    assert ActiveGrades(ratings + [x], pid) == g;
  }

  /** A product no active rating names has aggregate 0. */
  lemma AggregateOfUnrated(ratings: seq<Rating>, pid: Id)
    requires forall x :: x in ratings && x.isActive ==> x.productId != Some(pid)
    ensures AggregateOf(ratings, pid) == 0.0
  {
    FilterNone(ratings, (x: Rating) => x.isActive && x.productId == Some(pid));
  }

  /** Inserting an active rating of `pid` turns the aggregate of its `n`
      earlier active grades into their mean together with the new grade. */
  lemma AggregateAfterInsert(ratings: seq<Rating>, x: Rating, pid: Id)
    requires x.isActive && x.productId == Some(pid)
    ensures var before := ActiveGrades(ratings, pid);
      AggregateOf(ratings + [x], pid) == (Sum(before) + x.grade) / ((|before| + 1) as real)
  {
    var before := ActiveGrades(ratings, pid);
    ActiveGradesAppend(ratings, x, pid);
    var after := ActiveGrades(ratings + [x], pid);
    assert after == before + [x.grade];
    SumAppend(before, x.grade);
  }

  /** The first active grade a product receives becomes its aggregate. */
  lemma AggregateOfFirstGrade(ratings: seq<Rating>, x: Rating, pid: Id)
    requires ActiveGrades(ratings, pid) == []
    requires x.isActive && x.productId == Some(pid)
    ensures AggregateOf(ratings + [x], pid) == x.grade
  {
    AggregateAfterInsert(ratings, x, pid);
  }

  /** A second active grade makes the aggregate the mean of the two. */
  lemma AggregateOfSecondGrade(ratings: seq<Rating>, x: Rating, pid: Id, earlier: real)
    requires ActiveGrades(ratings, pid) == [earlier]
    requires x.isActive && x.productId == Some(pid)
    ensures AggregateOf(ratings + [x], pid) == (earlier + x.grade) / 2.0
  {
    AggregateAfterInsert(ratings, x, pid);
    assert [earlier][1..] == [];
    assert Sum([earlier]) == earlier + Sum([earlier][1..]);
  }

  /** A product nobody has rated gets the aggregate 4.0 from a first active
      grade of 4.0, then 3.0 once a second active grade of 2.0 is inserted. */
  lemma TwoSubmissionsExample(ratings: seq<Rating>, first: Rating, second: Rating, pid: Id)
    requires ActiveGrades(ratings, pid) == []
    requires first.isActive && first.productId == Some(pid) && first.grade == 4.0
    requires second.isActive && second.productId == Some(pid) && second.grade == 2.0
    ensures AggregateOf(ratings + [first], pid) == 4.0
    ensures AggregateOf(ratings + [first] + [second], pid) == 3.0
  {
    AggregateOfFirstGrade(ratings, first, pid);
    ActiveGradesAppend(ratings, first, pid);
    AggregateOfSecondGrade(ratings + [first], second, pid, 4.0);
  }

  /** The accumulation loop of `add_review`: a running sum over the grades,
      divided by their count. */
  method AverageGrade(grades: seq<real>) returns (average: real)
    requires |grades| > 0
    ensures average * (|grades| as real) == Sum(grades)
  {
    var sum := 0.0;
    var i := 0;
    while i < |grades|
      invariant 0 <= i <= |grades|
      invariant sum == Sum(grades[..i])
    {
      SumAppend(grades[..i], grades[i]);
      assert grades[..i + 1] == grades[..i] + [grades[i]];
      sum := sum + grades[i];
      i := i + 1;
    }
    assert grades[..i] == grades;
    average := sum / (|grades| as real);
  }

  lemma {:induction false} SumBounds(xs: seq<real>, lo: real, hi: real)
    requires forall i :: 0 <= i < |xs| ==> lo <= xs[i] <= hi
    ensures (|xs| as real) * lo <= Sum(xs) <= (|xs| as real) * hi
  {
    if |xs| > 0 {
      SumBounds(xs[1..], lo, hi);
      assert (|xs| as real) * lo == lo + (|xs[1..]| as real) * lo;
      assert (|xs| as real) * hi == hi + (|xs[1..]| as real) * hi;
    }
  }

  /** When every active rating of `pid` has its grade within [lo, hi], so does
      every active grade of `pid`, and so does that list with a further grade
      within [lo, hi] added. */
  lemma ActiveGradesWithinBounds(ratings: seq<Rating>, pid: Id, grade: real, lo: real, hi: real)
    requires forall x :: x in ratings && x.isActive && x.productId == Some(pid) ==> lo <= x.grade <= hi
    requires lo <= grade <= hi
    ensures var g := ActiveGrades(ratings, pid) + [grade];
      forall i :: 0 <= i < |g| ==> lo <= g[i] <= hi
  {
    var rs := ActiveRatingsOf(ratings, pid);
    var g := ActiveGrades(ratings, pid) + [grade];
    forall i | 0 <= i < |g|
      ensures lo <= g[i] <= hi
    {
      if i < |rs| {
        assert rs[i] in rs;
      }
    }
  }

  /** The mean of values that all lie within [lo, hi] lies within [lo, hi]. */
  lemma MeanWithinBounds(xs: seq<real>, lo: real, hi: real)
    requires |xs| > 0
    requires forall i :: 0 <= i < |xs| ==> lo <= xs[i] <= hi
    ensures lo <= Mean(xs) <= hi
  {
    SumBounds(xs, lo, hi);
    var n := |xs| as real;
    assert Sum(xs) / n >= (n * lo) / n;
    assert Sum(xs) / n <= (n * hi) / n;
  }
}
