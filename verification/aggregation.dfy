/** The rating aggregator: `updateMovieRating` in server/routes/reviews.js recomputes a
    movie's `rating.average` and `rating.count` from its active reviews. */
module Aggregation {

  import opened Seqs
  import opened Domain

  function ActiveFor(id: MovieId): Review -> bool {
    (r: Review) => r.movie == id && r.isActive
  }

  /** `Review.find({ movie: id, isActive: true })`. */
  function ActiveReviewsOf(reviews: seq<Review>, id: MovieId): (r: seq<Review>)
    ensures forall i :: 0 <= i < |r| ==> r[i].movie == id && r[i].isActive
    ensures forall i :: 0 <= i < |reviews| && reviews[i].movie == id && reviews[i].isActive ==> reviews[i] in r
  {
    Filter(ActiveFor(id), reviews)
  }

  /** The query returns every active review of the movie exactly as often as the store
      holds it, and nothing else. */
  lemma ActiveReviewsCounts(reviews: seq<Review>, id: MovieId)
    ensures ActiveCounts(reviews, id, ActiveReviewsOf(reviews, id))
  {
    FilterCount(ActiveFor(id), reviews);
  }

  /** `r` holds each active review of the movie as often as `reviews` does, and nothing
      else. */
  ghost predicate ActiveCounts(reviews: seq<Review>, id: MovieId, r: seq<Review>) {
    forall x :: multiset(r)[x] == if x.movie == id && x.isActive then multiset(reviews)[x] else 0
  }

  /** `reviews.reduce((sum, review) => sum + review.rating, 0)`. */
  function SumRatings(rs: seq<Review>): int
    decreases |rs|
  {
    if rs == [] then 0 else SumRatings(rs[..|rs| - 1]) + rs[|rs| - 1].rating
  }

  /** `Math.round(total / n * 10)`, the mean in tenths rounded half up, computed exactly:
      the result is the integer nearest to 10 * sum / n, halves going up. */
  function RoundedTenths(sum: int, n: nat): (t: int)
    requires n > 0
    ensures 2 * n * t <= 20 * sum + n < 2 * n * (t + 1)
  {
    (20 * sum + n) / (2 * n)
  }

  /** The aggregate of a set of active reviews: 0/0 when there are none, otherwise the
      rounded mean and the number of reviews. */
  function AggregateOf(active: seq<Review>): (a: Aggregate)
    ensures a.count == |active|
    ensures a.count == 0 ==> a.average == 0
    ensures a.count > 0 ==>
      2 * a.count * a.average <= 20 * SumRatings(active) + a.count < 2 * a.count * (a.average + 1)
  {
    if |active| == 0 then Aggregate(0, 0)
    else Aggregate(RoundedTenths(SumRatings(active), |active|), |active|)
  }

  /** The aggregate `updateMovieRating(id)` writes. */
  function RatingOf(reviews: seq<Review>, id: MovieId): Aggregate {
    AggregateOf(ActiveReviewsOf(reviews, id))
  }

  lemma {:induction false} SumBounds(rs: seq<Review>)
    requires StarsInRange(rs)
    ensures |rs| <= SumRatings(rs) <= 5 * |rs|
    decreases |rs|
  {
    if rs != [] {
      SumBounds(rs[..|rs| - 1]);
    }
  }

  /** With ratings from the widget the stored average lies in [1, 5] stars, inside the
      schema bound [0, 5]. */
  lemma AverageInRange(active: seq<Review>)
    requires |active| > 0 && StarsInRange(active)
    ensures 10 <= AggregateOf(active).average <= 50
  {
    var n := |active|;
    var t := AggregateOf(active).average;
    var sum := SumRatings(active);
    SumBounds(active);
    assert 2 * n * t <= 20 * sum + n < 2 * n * (t + 1);
    assert 20 * sum + n <= 101 * n && 21 * n <= 20 * sum + n;
    if t > 50 {
      MulMonotone(2 * n, 51, t);
      assert false;
    }
    if t < 10 {
      MulMonotone(2 * n, t + 1, 10);
      assert false;
    }
  }

  lemma MulMonotone(k: nat, a: int, b: int)
    requires a <= b
    ensures k * a <= k * b
  {
    assert k * b - k * a == k * (b - a);
  }

  lemma ActiveInRange(reviews: seq<Review>, id: MovieId)
    requires StarsInRange(reviews)
    ensures StarsInRange(ActiveReviewsOf(reviews, id))
  {
    var a := ActiveReviewsOf(reviews, id);
    FilterMultiset(ActiveFor(id), reviews);
    forall i | 0 <= i < |a| ensures IsStars(a[i].rating) {
      assert a[i] in multiset(reviews);
    }
  }

  /** The stored aggregate always satisfies the schema: average in [0, 5] stars, and in
      [1, 5] whenever some review counts. */
  lemma RatingInSchema(reviews: seq<Review>, id: MovieId)
    requires StarsInRange(reviews)
    ensures 0 <= RatingOf(reviews, id).average <= 50
    ensures RatingOf(reviews, id).count > 0 ==> 10 <= RatingOf(reviews, id).average
  {
    ActiveInRange(reviews, id);
    if |ActiveReviewsOf(reviews, id)| > 0 {
      AverageInRange(ActiveReviewsOf(reviews, id));
    }
  }

  lemma SumAppend(a: seq<Review>, z: Review)
    ensures SumRatings(a + [z]) == SumRatings(a) + z.rating
  {
    assert (a + [z])[..|a|] == a;
  }

  lemma {:induction false} SumConcat(a: seq<Review>, b: seq<Review>)
    ensures SumRatings(a + b) == SumRatings(a) + SumRatings(b)
    decreases |b|
  {
    if b != [] {
      var n := |b| - 1;
      SumConcat(a, b[..n]);
      var ab := a + b;
      assert ab[..|ab| - 1] == a + b[..n];
      assert SumRatings(ab) == SumRatings(a + b[..n]) + b[n].rating;
      assert SumRatings(b) == SumRatings(b[..n]) + b[n].rating;
    } else {
      assert a + b == a;
    }
  }

  /** The sum of the ratings does not depend on the order of the reviews. */
  lemma {:induction false} SumRatingsPermutation(a: seq<Review>, b: seq<Review>)
    requires multiset(a) == multiset(b)
    ensures SumRatings(a) == SumRatings(b)
    decreases |a|
  {
    if a != [] {
      var n := |a| - 1;
      var x := a[n];
      assert a == a[..n] + [x];
      assert x in multiset(b);
      var j :| 0 <= j < |b| && b[j] == x;
      var rest := b[..j] + b[j + 1..];
      assert b == b[..j] + [x] + b[j + 1..];
      assert multiset(rest) == multiset(b) - multiset{x};
      SumRatingsPermutation(a[..n], rest);
      SumConcat(b[..j] + [x], b[j + 1..]);
      SumConcat(b[..j], [x]);
      SumConcat(b[..j], b[j + 1..]);
      SumConcat(a[..n], [x]);
    }
  }

  /** Replacing a review by one with the same movie, active flag and rating leaves every
      movie's active count and rating sum as they were. */
  lemma ActiveReplaceSame(xs: seq<Review>, i: nat, y: Review, id: MovieId)
    requires i < |xs| && y.movie == xs[i].movie && y.isActive == xs[i].isActive && y.rating == xs[i].rating
    ensures |ActiveReviewsOf(xs[i := y], id)| == |ActiveReviewsOf(xs, id)|
    ensures SumRatings(ActiveReviewsOf(xs[i := y], id)) == SumRatings(ActiveReviewsOf(xs, id))
  {
    var a, x, b := xs[..i], xs[i], xs[i + 1..];
    assert xs == (a + [x]) + b;
    assert xs[i := y] == (a + [y]) + b;
    var left, right := Filter(ActiveFor(id), a), Filter(ActiveFor(id), b);
    var keep := x.movie == id && x.isActive;
    var mx: seq<Review> := if keep then [x] else [];
    var my: seq<Review> := if keep then [y] else [];
    ActiveSplit(a, x, b, id);
    ActiveSplit(a, y, b, id);
    SumThree(left, mx, right);
    SumThree(left, my, right);
    assert SumRatings(mx) == SumRatings(my) by {
      assert [x][..0] == [] && [y][..0] == [];
    }
  }

  lemma ActiveSplit(a: seq<Review>, x: Review, b: seq<Review>, id: MovieId)
    ensures ActiveReviewsOf((a + [x]) + b, id)
      == Filter(ActiveFor(id), a) + (if x.movie == id && x.isActive then [x] else []) + Filter(ActiveFor(id), b)
  {
    FilterAppend(ActiveFor(id), a + [x], b);
    assert (a + [x])[..|a|] == a;
  }

  lemma SumThree(a: seq<Review>, m: seq<Review>, b: seq<Review>)
    ensures SumRatings(a + m + b) == SumRatings(a) + SumRatings(m) + SumRatings(b)
  {
    SumConcat(a + m, b);
    SumConcat(a, m);
  }

  lemma RatingOfReplaceSame(xs: seq<Review>, i: nat, y: Review, id: MovieId)
    requires i < |xs| && y.movie == xs[i].movie && y.isActive == xs[i].isActive && y.rating == xs[i].rating
    ensures RatingOf(xs[i := y], id) == RatingOf(xs, id)
  {
    ActiveReplaceSame(xs, i, y, id);
  }

  /** `Movie.findByIdAndUpdate(id, { rating })`: every movie with the id gets `a`. */
  function SetRating(ms: seq<Movie>, id: MovieId, a: Aggregate): (r: seq<Movie>)
    ensures |r| == |ms|
  {
    seq(|ms|, i requires 0 <= i < |ms| => if ms[i].id == id then ms[i].(rating := a) else ms[i])
  }

  /** `updateMovieRating(id)`. `fault` stands for the store failing inside it: the error
      is logged and swallowed, so the movies stay as they were and nothing is reported
      to the caller. */
  function Recompute(s: Store, id: MovieId, fault: bool): (r: Store)
    ensures r.reviews == s.reviews && r.users == s.users
    ensures |r.movies| == |s.movies|
    ensures fault ==> r.movies == s.movies
    ensures !fault ==> forall i :: 0 <= i < |s.movies| && s.movies[i].id == id ==>
      r.movies[i] == s.movies[i].(rating := RatingOf(s.reviews, id))
    ensures forall i :: 0 <= i < |s.movies| && s.movies[i].id != id ==> r.movies[i] == s.movies[i]
  {
    if fault then s else s.(movies := SetRating(s.movies, id, RatingOf(s.reviews, id)))
  }

  /** Every movie's aggregate is the aggregate of its current active reviews. */
  ghost predicate Consistent(s: Store) {
    forall i :: 0 <= i < |s.movies| ==> s.movies[i].rating == RatingOf(s.reviews, s.movies[i].id)
  }

  /** One more review read: an active review of the movie adds one to the count and its
      rating to the sum; any other leaves both alone. */
  lemma ActiveStep(reviews: seq<Review>, id: MovieId, i: nat)
    requires i < |reviews|
    ensures var seen, next := ActiveReviewsOf(reviews[..i], id), ActiveReviewsOf(reviews[..i + 1], id);
      if reviews[i].movie == id && reviews[i].isActive
      then |next| == |seen| + 1 && SumRatings(next) == SumRatings(seen) + reviews[i].rating
      else next == seen
  {
    var seen := ActiveReviewsOf(reviews[..i], id);
    assert reviews[..i + 1][..i] == reviews[..i];
    if reviews[i].movie == id && reviews[i].isActive {
      assert ActiveReviewsOf(reviews[..i + 1], id) == seen + [reviews[i]];
      assert (seen + [reviews[i]])[..|seen|] == seen;
    }
  }

  /** The `reduce` loop of `updateMovieRating`, one review at a time. */
  method ComputeRating(reviews: seq<Review>, id: MovieId) returns (a: Aggregate)
    ensures a == RatingOf(reviews, id)
  {
    var count: nat := 0;
    var total := 0;
    for i := 0 to |reviews|
      invariant count == |ActiveReviewsOf(reviews[..i], id)|
      invariant total == SumRatings(ActiveReviewsOf(reviews[..i], id))
    {
      ActiveStep(reviews, id, i);
      if reviews[i].movie == id && reviews[i].isActive {
        count := count + 1;
        total := total + reviews[i].rating;
      }
    }
    assert reviews[..|reviews|] == reviews;
    if count == 0 {
      a := Aggregate(0, 0);
    } else {
      a := Aggregate((20 * total + count) / (2 * count), count);
    }
  }
}
