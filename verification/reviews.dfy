/** The review routes of server/routes/reviews.js: create, edit, delete, like, dislike
    and a user's review list, each answering with an error or with the new store. Every
    write that can change a movie's active reviews is followed by the aggregator. */
module Reviews {

  import opened Wrappers
  import opened Seqs
  import opened Sorting
  import opened Domain
  import opened Aggregation
  import opened Orders

  /** `Review.findOne({ user, movie })`: a review of the pair exists, active or not. */
  predicate HasReviewed(reviews: seq<Review>, user: UserId, movie: MovieId) {
    exists i :: 0 <= i < |reviews| && reviews[i].user == user && reviews[i].movie == movie
  }

  /** `Review.findById(id)`: the position of the first review carrying the id. */
  function LocateReview(reviews: seq<Review>, id: ReviewId): (r: Option<nat>)
    ensures r.Some? ==> r.value < |reviews| && reviews[r.value].id == id
    ensures r.Some? ==> forall j :: 0 <= j < r.value ==> reviews[j].id != id
    ensures r.None? <==> forall j :: 0 <= j < |reviews| ==> reviews[j].id != id
  {
    Find(ReviewIdIs(id), reviews)
  }

  /** The movies after the aggregator ran for `movie`: only that movie's aggregate may
      change, and unless the aggregator failed it is the aggregate of `reviews`. */
  ghost predicate Refreshed(before: seq<Movie>, after: seq<Movie>, reviews: seq<Review>, movie: MovieId, fault: bool) {
    && |after| == |before|
    && (forall i :: 0 <= i < |before| && before[i].id != movie ==> after[i] == before[i])
    && (fault ==> after == before)
    && (!fault ==> forall i :: 0 <= i < |before| && before[i].id == movie ==>
          after[i] == before[i].(rating := RatingOf(reviews, movie)))
  }

  // ---- Watched list ----

  /** `$addToSet` on `watchedMovies`: the entry is appended unless an equal entry is
      already on the list. */
  function AddToSet(ws: seq<Watched>, w: Watched): (r: seq<Watched>)
    ensures w in r && ws <= r && |r| <= |ws| + 1
    ensures forall x :: x in r ==> x in ws || x == w
    ensures w in ws ==> r == ws
  {
    if w in ws then ws else ws + [w]
  }

  /** `User.findByIdAndUpdate(id, { $addToSet: { watchedMovies: w } })`. */
  function AddWatched(users: seq<User>, id: UserId, w: Watched): (r: seq<User>)
    ensures |r| == |users|
    ensures forall k :: 0 <= k < |users| ==> r[k] == users[k].(watchedMovies := r[k].watchedMovies)
    ensures forall k :: 0 <= k < |users| && users[k].id != id ==> r[k] == users[k]
    ensures forall k :: 0 <= k < |users| && users[k].id == id ==>
      w in r[k].watchedMovies && users[k].watchedMovies <= r[k].watchedMovies
  {
    seq(|users|, k requires 0 <= k < |users| =>
      if users[k].id == id then users[k].(watchedMovies := AddToSet(users[k].watchedMovies, w)) else users[k])
  }

  // ---- Create, edit, delete ----

  /** `POST /api/reviews`. A second review of the same movie by the same user is refused
      whether or not the first is still active; a rating or an empty title or content
      that the schema rejects fails the save. Otherwise the review is stored, the movie's aggregate refreshed, and the
      movie added to the author's watched list stamped with `now`. */
  function CreateReview(s: Store, caller: UserId, movie: MovieId, rating: int, title: string,
                        content: string, now: Time, newId: ReviewId, fault: bool): (r: Result<(Store, Review), Error>)
    ensures HasReviewed(s.reviews, caller, movie) <==> r == Failure(AlreadyReviewed)
    ensures !HasReviewed(s.reviews, caller, movie) && (!IsStars(rating) || title == "" || content == "") <==> r == Failure(ServerError)
    ensures r.Failure? ==> r.error == AlreadyReviewed || r.error == ServerError
    ensures r.Success? ==>
      var (s', rev) := r.value;
      && rev.id == newId && rev.user == caller && rev.movie == movie && rev.rating == rating
      && rev.title == title && rev.content == content && rev.createdAt == now
      && rev.isActive && rev.likes == [] && rev.dislikes == []
      && s'.reviews == s.reviews + [rev]
      && Refreshed(s.movies, s'.movies, s'.reviews, movie, fault)
      && s'.users == AddWatched(s.users, caller, Watched(movie, rating, now))
  {
    if HasReviewed(s.reviews, caller, movie) then Failure(AlreadyReviewed)
    else if !IsStars(rating) || title == "" || content == "" then Failure(ServerError)
    else
      var rev := Review(newId, caller, movie, rating, title, content, [], [], true, now);
      var saved := Recompute(s.(reviews := s.reviews + [rev]), movie, fault);
      Success((saved.(users := AddWatched(saved.users, caller, Watched(movie, rating, now))), rev))
  }

  /** `PUT /api/reviews/:id`: 404 for an unknown id, 403 unless the caller wrote the
      review; a rating or an empty title or content that the schema rejects fails the
      save; then only the rating, title and content change, and the movie's aggregate
      is refreshed. */
  function UpdateReview(s: Store, caller: UserId, id: ReviewId, rating: int, title: string,
                        content: string, fault: bool): (r: Result<(Store, Review), Error>)
    ensures LocateReview(s.reviews, id).None? <==> r == Failure(NotFound)
    ensures LocateReview(s.reviews, id).Some? ==>
      var prior := s.reviews[LocateReview(s.reviews, id).value];
      && (prior.user != caller <==> r == Failure(Forbidden))
      && (prior.user == caller && (!IsStars(rating) || title == "" || content == "") <==> r == Failure(ServerError))
    ensures r.Failure? ==> r.error == NotFound || r.error == Forbidden || r.error == ServerError
    ensures r.Success? ==>
      var i := LocateReview(s.reviews, id).value;
      var (s', rev) := r.value;
      && rev == s.reviews[i].(rating := rating, title := title, content := content)
      && s'.reviews == s.reviews[i := rev]
      && Refreshed(s.movies, s'.movies, s'.reviews, rev.movie, fault)
      && s'.users == s.users
  {
    match LocateReview(s.reviews, id)
    case None => Failure(NotFound)
    case Some(i) =>
      var prior := s.reviews[i];
      if prior.user != caller then Failure(Forbidden)
      else if !IsStars(rating) || title == "" || content == "" then Failure(ServerError)
      else
        var rev := prior.(rating := rating, title := title, content := content);
        Success((Recompute(s.(reviews := s.reviews[i := rev]), rev.movie, fault), rev))
  }

  /** `DELETE /api/reviews/:id`: 404, 403, then the review is removed from the store (a
      physical delete) and the movie's aggregate refreshed. */
  function DeleteReview(s: Store, caller: UserId, id: ReviewId, fault: bool): (r: Result<Store, Error>)
    ensures LocateReview(s.reviews, id).None? <==> r == Failure(NotFound)
    ensures LocateReview(s.reviews, id).Some? ==>
      (s.reviews[LocateReview(s.reviews, id).value].user != caller <==> r == Failure(Forbidden))
    ensures r.Failure? ==> r.error == NotFound || r.error == Forbidden
    ensures r.Success? ==>
      var i := LocateReview(s.reviews, id).value;
      && r.value.reviews == s.reviews[..i] + s.reviews[i + 1..]
      && |r.value.reviews| == |s.reviews| - 1
      && Refreshed(s.movies, r.value.movies, r.value.reviews, s.reviews[i].movie, fault)
      && r.value.users == s.users
  {
    match LocateReview(s.reviews, id)
    case None => Failure(NotFound)
    case Some(i) =>
      if s.reviews[i].user != caller then Failure(Forbidden)
      else Success(Recompute(s.(reviews := s.reviews[..i] + s.reviews[i + 1..]), s.reviews[i].movie, fault))
  }

  // ---- Like and dislike ----

  function IsUser(u: UserId): UserId -> bool { (v: UserId) => v == u }
  function NotUser(u: UserId): UserId -> bool { (v: UserId) => v != u }

  /** `list.filter(id => id !== u)`. */
  function Without(xs: seq<UserId>, u: UserId): (r: seq<UserId>)
    ensures u !in r
    ensures forall v :: v != u ==> (v in r <==> v in xs)
    ensures NoDup(xs) ==> NoDup(r)
  {
    WithoutFacts(xs, u);
    Filter(NotUser(u), xs)
  }

  lemma WithoutFacts(xs: seq<UserId>, u: UserId)
    ensures var r := Filter(NotUser(u), xs);
      && u !in r
      && (forall v :: v != u ==> (v in r <==> v in xs))
      && (NoDup(xs) ==> NoDup(r))
  {
    var r := Filter(NotUser(u), xs);
    FilterMultiset(NotUser(u), xs);
    assert forall v :: v in r ==> v in multiset(xs);
    assert forall j :: 0 <= j < |xs| && xs[j] != u ==> NotUser(u)(xs[j]);
    if NoDup(xs) {
      NoDupSub(xs, r);
    }
  }

  lemma NoDupSub<T>(xs: seq<T>, ys: seq<T>)
    requires NoDup(xs) && multiset(ys) <= multiset(xs)
    ensures NoDup(ys)
  {
    var id := (x: T) => x;
    assert DistinctBy(id, xs) by {
      forall i, j | 0 <= i < j < |xs| ensures id(xs[i]) != id(xs[j]) {
      }
    }
    DistinctBySub(id, xs, ys);
    forall i, j | 0 <= i < j < |ys| ensures ys[i] != ys[j] {
      assert id(ys[i]) != id(ys[j]);
    }
  }

  /** The `findIndex` / `splice` / `push` toggle: the first occurrence of `u` is removed,
      or `u` is appended when absent. */
  function Toggle(xs: seq<UserId>, u: UserId): (r: seq<UserId>)
    ensures forall v :: v != u ==> (v in r <==> v in xs)
    ensures u !in xs ==> u in r && |r| == |xs| + 1
    ensures u in xs ==> |r| == |xs| - 1
    ensures NoDup(xs) ==> NoDup(r) && (u in r <==> u !in xs)
  {
    ToggleFacts(xs, u);
    match Find(IsUser(u), xs)
    case None => xs + [u]
    case Some(i) => xs[..i] + xs[i + 1..]
  }

  lemma ToggleFacts(xs: seq<UserId>, u: UserId)
    ensures match Find(IsUser(u), xs)
      case None => u !in xs
      case Some(i) =>
        var r := xs[..i] + xs[i + 1..];
        && xs[i] == u
        && (forall v :: v != u ==> (v in r <==> v in xs))
        && (NoDup(xs) ==> NoDup(r) && u !in r)
  {
    match Find(IsUser(u), xs)
    case None =>
      forall j | 0 <= j < |xs| ensures xs[j] != u {
        assert !IsUser(u)(xs[j]);
      }
    case Some(i) =>
      var r := xs[..i] + xs[i + 1..];
      assert xs == xs[..i] + [xs[i]] + xs[i + 1..];
      assert multiset(xs) == multiset(r) + multiset{u};
      forall v | v != u ensures v in r <==> v in xs {
        assert v in multiset(r) <==> v in multiset(xs);
      }
      if NoDup(xs) {
        NoDupSub(xs, r);
      }
  }

  /** `POST /:id/like` on one review: the caller leaves the dislikes and their like is
      toggled. */
  function Like(rev: Review, u: UserId): (r: Review)
    ensures r == rev.(likes := r.likes, dislikes := r.dislikes)
    ensures u !in r.dislikes
    ensures forall v :: v != u ==> (v in r.likes <==> v in rev.likes) && (v in r.dislikes <==> v in rev.dislikes)
    ensures NoDup(rev.likes) ==> NoDup(r.likes) && (u in r.likes <==> u !in rev.likes)
    ensures NoDup(rev.dislikes) ==> NoDup(r.dislikes)
  {
    rev.(dislikes := Without(rev.dislikes, u), likes := Toggle(rev.likes, u))
  }

  /** `POST /:id/dislike` on one review, the mirror image of `Like`. */
  function Dislike(rev: Review, u: UserId): (r: Review)
    ensures r == rev.(likes := r.likes, dislikes := r.dislikes)
    ensures u !in r.likes
    ensures forall v :: v != u ==> (v in r.likes <==> v in rev.likes) && (v in r.dislikes <==> v in rev.dislikes)
    ensures NoDup(rev.dislikes) ==> NoDup(r.dislikes) && (u in r.dislikes <==> u !in rev.dislikes)
    ensures NoDup(rev.likes) ==> NoDup(r.likes)
  {
    rev.(likes := Without(rev.likes, u), dislikes := Toggle(rev.dislikes, u))
  }

  /** The answer of the like and dislike routes. */
  datatype Reaction = Reaction(likes: nat, dislikes: nat, userLiked: bool, userDisliked: bool)

  function ReactionOf(rev: Review, u: UserId): Reaction {
    Reaction(|rev.likes|, |rev.dislikes|, u in rev.likes, u in rev.dislikes)
  }

  /** `POST /api/reviews/:id/like` (`like`) and `POST /api/reviews/:id/dislike`: 404 for
      an unknown id; no ownership check and no aggregate refresh. */
  function React(s: Store, caller: UserId, id: ReviewId, like: bool): (r: Result<(Store, Reaction), Error>)
    ensures LocateReview(s.reviews, id).None? <==> r == Failure(NotFound)
    ensures r.Failure? ==> r.error == NotFound
    ensures r.Success? ==>
      var i := LocateReview(s.reviews, id).value;
      var rev := if like then Like(s.reviews[i], caller) else Dislike(s.reviews[i], caller);
      && r.value.0 == s.(reviews := s.reviews[i := rev])
      && r.value.1.likes == |rev.likes| && r.value.1.dislikes == |rev.dislikes|
      && r.value.1.userLiked == (caller in rev.likes) && r.value.1.userDisliked == (caller in rev.dislikes)
      && !(r.value.1.userLiked && r.value.1.userDisliked)
      && (like ==> !r.value.1.userDisliked) && (!like ==> !r.value.1.userLiked)
      && (like && NoDup(s.reviews[i].likes) ==> (r.value.1.userLiked <==> caller !in s.reviews[i].likes))
      && (!like && NoDup(s.reviews[i].dislikes) ==> (r.value.1.userDisliked <==> caller !in s.reviews[i].dislikes))
  {
    match LocateReview(s.reviews, id)
    case None => Failure(NotFound)
    case Some(i) =>
      var rev := if like then Like(s.reviews[i], caller) else Dislike(s.reviews[i], caller);
      Success((s.(reviews := s.reviews[i := rev]), ReactionOf(rev, caller)))
  }

  /** Liking twice gives back the same likers (possibly reordered) and leaves the caller
      out of the dislikes. */
  lemma LikeTwice(rev: Review, u: UserId)
    requires NoDup(rev.likes)
    ensures forall v :: v in Like(Like(rev, u), u).likes <==> v in rev.likes
    ensures |Like(Like(rev, u), u).likes| == |rev.likes|
    ensures u !in Like(Like(rev, u), u).dislikes
  {
    var once := Like(rev, u);
    if u in rev.likes {
      assert u !in once.likes;
    } else {
      assert u in once.likes;
    }
  }

  lemma DislikeTwice(rev: Review, u: UserId)
    requires NoDup(rev.dislikes)
    ensures forall v :: v in Dislike(Dislike(rev, u), u).dislikes <==> v in rev.dislikes
    ensures |Dislike(Dislike(rev, u), u).dislikes| == |rev.dislikes|
    ensures u !in Dislike(Dislike(rev, u), u).likes
  {
    var once := Dislike(rev, u);
    if u in rev.dislikes {
      assert u !in once.dislikes;
    } else {
      assert u in once.dislikes;
    }
  }

  // ---- A user's reviews ----

  function ActiveBy(u: UserId): Review -> bool {
    (r: Review) => r.user == u && r.isActive
  }

  /** `GET /api/reviews/user/:userId`: the user's active reviews, newest first. */
  function UserReviews(reviews: seq<Review>, u: UserId): (r: seq<Review>)
    ensures multiset(r) == multiset(Filter(ActiveBy(u), reviews))
    ensures forall x :: x in r ==> x.user == u && x.isActive && x in reviews
    ensures forall i :: 0 <= i < |reviews| && reviews[i].user == u && reviews[i].isActive ==> reviews[i] in r
    ensures NewestFirst(r)
  {
    SortNewestFirst(ActiveBy(u), reviews);
    Sort(CreatedAfter, Filter(ActiveBy(u), reviews))
  }

  /** Sorting the matches of `p` newest first keeps exactly the matches. */
  lemma SortNewestFirst(p: Review -> bool, reviews: seq<Review>)
    ensures forall x :: x in Sort(CreatedAfter, Filter(p, reviews)) ==> p(x) && x in reviews
    ensures forall i :: 0 <= i < |reviews| && p(reviews[i]) ==> reviews[i] in Sort(CreatedAfter, Filter(p, reviews))
    ensures NewestFirst(Sort(CreatedAfter, Filter(p, reviews)))
  {
    var f := Filter(p, reviews);
    var r := Sort(CreatedAfter, f);
    CreatedAfterOrder();
    SortSorted(CreatedAfter, f);
    FilterMultiset(p, reviews);
    forall x | x in r ensures p(x) && x in reviews {
      assert x in multiset(f);
      assert x in multiset(reviews);
    }
    forall i | 0 <= i < |reviews| && p(reviews[i]) ensures reviews[i] in r {
      assert reviews[i] in multiset(f);
    }
    forall i, j | 0 <= i < j < |r| ensures r[i].createdAt >= r[j].createdAt {
      assert !CreatedAfter(r[j], r[i]);
    }
  }

  // ---- Store invariants the routes keep ----

  /** The record-level invariants: ids unique, ratings on the star scale, one review per
      (user, movie) pair, and every review's movie on its author's watched list. */
  ghost predicate WellFormed(s: Store) {
    && DistinctIds(s)
    && StarsInRange(s.reviews)
    && OneReviewPerPair(s.reviews)
    && ReviewsWatched(s)
  }

  /** A store change that keeps each review's author, movie and id, and each user's id
      and watched list, keeps the invariants. */
  lemma SameShapeWellFormed(s: Store, t: Store)
    requires WellFormed(s) && StarsInRange(t.reviews)
    requires |t.reviews| == |s.reviews| && |t.users| == |s.users| && |t.movies| == |s.movies|
    requires forall i :: 0 <= i < |s.reviews| ==>
      t.reviews[i].user == s.reviews[i].user && t.reviews[i].movie == s.reviews[i].movie && t.reviews[i].id == s.reviews[i].id
    requires forall i :: 0 <= i < |s.movies| ==> t.movies[i].id == s.movies[i].id
    requires t.users == s.users
    ensures WellFormed(t)
  {
    assert forall i, j :: 0 <= i < j < |t.reviews| ==> ReviewKey(t.reviews[i]) != ReviewKey(t.reviews[j]) by {
      forall i, j | 0 <= i < j < |t.reviews| ensures ReviewKey(t.reviews[i]) != ReviewKey(t.reviews[j]) {
        assert ReviewKey(s.reviews[i]) != ReviewKey(s.reviews[j]);
      }
    }
    assert forall i, j :: 0 <= i < j < |t.movies| ==> MovieKey(t.movies[i]) != MovieKey(t.movies[j]) by {
      forall i, j | 0 <= i < j < |t.movies| ensures MovieKey(t.movies[i]) != MovieKey(t.movies[j]) {
        assert MovieKey(s.movies[i]) != MovieKey(s.movies[j]);
      }
    }
  }

  lemma RefreshedIds(before: seq<Movie>, after: seq<Movie>, reviews: seq<Review>, movie: MovieId, fault: bool)
    requires Refreshed(before, after, reviews, movie, fault)
    ensures forall i :: 0 <= i < |before| ==> after[i].id == before[i].id
  {
  }

  /** A movie other than the refreshed one keeps a consistent aggregate when its active
      reviews did not change. */
  lemma RefreshedConsistent(s: Store, t: Store, movie: MovieId)
    requires Consistent(s) && Refreshed(s.movies, t.movies, t.reviews, movie, false)
    requires forall id :: id != movie ==> RatingOf(t.reviews, id) == RatingOf(s.reviews, id)
    ensures Consistent(t)
  {
    forall i | 0 <= i < |t.movies| ensures t.movies[i].rating == RatingOf(t.reviews, t.movies[i].id) {
      if s.movies[i].id != movie {
        assert RatingOf(t.reviews, s.movies[i].id) == RatingOf(s.reviews, s.movies[i].id);
      }
    }
  }

  lemma CreateWellFormed(s: Store, caller: UserId, movie: MovieId, rating: int, title: string,
                         content: string, now: Time, newId: ReviewId, fault: bool)
    requires WellFormed(s)
    requires forall i :: 0 <= i < |s.reviews| ==> s.reviews[i].id != newId
    requires CreateReview(s, caller, movie, rating, title, content, now, newId, fault).Success?
    ensures WellFormed(CreateReview(s, caller, movie, rating, title, content, now, newId, fault).value.0)
  {
    var (t, rev) := CreateReview(s, caller, movie, rating, title, content, now, newId, fault).value;
    RefreshedIds(s.movies, t.movies, t.reviews, movie, fault);
    assert forall i, j :: 0 <= i < j < |t.movies| ==> MovieKey(t.movies[i]) != MovieKey(t.movies[j]) by {
      forall i, j | 0 <= i < j < |t.movies| ensures MovieKey(t.movies[i]) != MovieKey(t.movies[j]) {
        assert MovieKey(s.movies[i]) != MovieKey(s.movies[j]);
      }
    }
    assert forall i, j :: 0 <= i < j < |t.users| ==> UserKey(t.users[i]) != UserKey(t.users[j]) by {
      forall i, j | 0 <= i < j < |t.users| ensures UserKey(t.users[i]) != UserKey(t.users[j]) {
        assert UserKey(s.users[i]) != UserKey(s.users[j]);
      }
    }
    AppendKeepsReviewInvariants(s.reviews, rev);
    CreateKeepsWatched(s, t, rev, Watched(movie, rating, now));
  }

  /** Appending a review with a fresh id, a star rating and a new (user, movie) pair keeps
      the review invariants. */
  lemma AppendKeepsReviewInvariants(reviews: seq<Review>, rev: Review)
    requires DistinctBy(ReviewKey, reviews) && StarsInRange(reviews) && OneReviewPerPair(reviews)
    requires forall i :: 0 <= i < |reviews| ==> reviews[i].id != rev.id
    requires IsStars(rev.rating) && !HasReviewed(reviews, rev.user, rev.movie)
    ensures DistinctBy(ReviewKey, reviews + [rev]) && StarsInRange(reviews + [rev]) && OneReviewPerPair(reviews + [rev])
  {
  }

  /** The new review's movie is on its author's watched list afterwards, and every older
      review's movie still is. */
  lemma CreateKeepsWatched(s: Store, t: Store, rev: Review, w: Watched)
    requires ReviewsWatched(s) && w.movie == rev.movie
    requires t.reviews == s.reviews + [rev] && t.users == AddWatched(s.users, rev.user, w)
    ensures ReviewsWatched(t)
  {
    forall i, k | 0 <= i < |t.reviews| && 0 <= k < |t.users| && t.users[k].id == t.reviews[i].user
      ensures t.reviews[i].movie in WatchedIds(t.users[k].watchedMovies)
    {
      var ws := t.users[k].watchedMovies;
      if i == |s.reviews| {
        var j :| 0 <= j < |ws| && ws[j] == w;
        assert WatchedIds(ws)[j] == rev.movie;
      } else {
        var had := s.users[k].watchedMovies;
        assert s.reviews[i].movie in WatchedIds(had);
        var j :| 0 <= j < |had| && WatchedIds(had)[j] == s.reviews[i].movie;
        assert had <= ws;
        assert WatchedIds(ws)[j] == had[j].movie;
      }
    }
  }

  lemma CreateConsistent(s: Store, caller: UserId, movie: MovieId, rating: int, title: string,
                         content: string, now: Time, newId: ReviewId)
    requires Consistent(s)
    requires CreateReview(s, caller, movie, rating, title, content, now, newId, false).Success?
    ensures Consistent(CreateReview(s, caller, movie, rating, title, content, now, newId, false).value.0)
  {
    var (t, rev) := CreateReview(s, caller, movie, rating, title, content, now, newId, false).value;
    forall id | id != movie ensures RatingOf(t.reviews, id) == RatingOf(s.reviews, id) {
      FilterAppendIrrelevant(ActiveFor(id), s.reviews, rev);
    }
    RefreshedConsistent(s, t, movie);
  }

  lemma UpdateWellFormed(s: Store, caller: UserId, id: ReviewId, rating: int, title: string,
                         content: string, fault: bool)
    requires WellFormed(s)
    requires UpdateReview(s, caller, id, rating, title, content, fault).Success?
    ensures WellFormed(UpdateReview(s, caller, id, rating, title, content, fault).value.0)
  {
    var (t, rev) := UpdateReview(s, caller, id, rating, title, content, fault).value;
    RefreshedIds(s.movies, t.movies, t.reviews, rev.movie, fault);
    SameShapeWellFormed(s, t);
  }

  lemma UpdateConsistent(s: Store, caller: UserId, id: ReviewId, rating: int, title: string, content: string)
    requires Consistent(s)
    requires UpdateReview(s, caller, id, rating, title, content, false).Success?
    ensures Consistent(UpdateReview(s, caller, id, rating, title, content, false).value.0)
  {
    var (t, rev) := UpdateReview(s, caller, id, rating, title, content, false).value;
    var i := LocateReview(s.reviews, id).value;
    forall m | m != rev.movie ensures RatingOf(t.reviews, m) == RatingOf(s.reviews, m) {
      FilterReplaceIrrelevant(ActiveFor(m), s.reviews, i, rev);
    }
    RefreshedConsistent(s, t, rev.movie);
  }

  lemma DeleteWellFormed(s: Store, caller: UserId, id: ReviewId, fault: bool)
    requires WellFormed(s)
    requires DeleteReview(s, caller, id, fault).Success?
    ensures WellFormed(DeleteReview(s, caller, id, fault).value)
  {
    var t := DeleteReview(s, caller, id, fault).value;
    var i := LocateReview(s.reviews, id).value;
    RefreshedIds(s.movies, t.movies, t.reviews, s.reviews[i].movie, fault);
    assert forall a, b :: 0 <= a < b < |t.movies| ==> MovieKey(t.movies[a]) != MovieKey(t.movies[b]) by {
      forall a, b | 0 <= a < b < |t.movies| ensures MovieKey(t.movies[a]) != MovieKey(t.movies[b]) {
        assert MovieKey(s.movies[a]) != MovieKey(s.movies[b]);
      }
    }
    RemoveKeepsReviewInvariants(s, t.reviews, i);
  }

  /** Removing one review keeps the review-level invariants. */
  lemma RemoveKeepsReviewInvariants(s: Store, rest: seq<Review>, i: nat)
    requires WellFormed(s) && i < |s.reviews| && rest == s.reviews[..i] + s.reviews[i + 1..]
    ensures DistinctBy(ReviewKey, rest) && StarsInRange(rest) && OneReviewPerPair(rest)
    ensures ReviewsWatched(s.(reviews := rest))
  {
    var rs := s.reviews;
    RemovedAt(rs, i, rest);
    DistinctBySub(ReviewKey, rs, rest);
    assert OneReviewPerPair(rest) by {
      forall j, k | 0 <= j < k < |rest| ensures rest[j].user != rest[k].user || rest[j].movie != rest[k].movie {
        assert rest[j] == rs[if j < i then j else j + 1] && rest[k] == rs[if k < i then k else k + 1];
      }
    }
    var t := s.(reviews := rest);
    forall j, k | 0 <= j < |rest| && 0 <= k < |t.users| && t.users[k].id == rest[j].user
      ensures rest[j].movie in WatchedIds(t.users[k].watchedMovies)
    {
      assert rest[j] == rs[if j < i then j else j + 1];
    }
  }

  /** The positions of a list with one element cut out. */
  lemma RemovedAt<T>(xs: seq<T>, i: nat, rest: seq<T>)
    requires i < |xs| && rest == xs[..i] + xs[i + 1..]
    ensures |rest| == |xs| - 1 && multiset(rest) <= multiset(xs)
    ensures forall j :: 0 <= j < |rest| ==> rest[j] == xs[if j < i then j else j + 1]
  {
    assert xs == xs[..i] + [xs[i]] + xs[i + 1..];
  }

  lemma DeleteConsistent(s: Store, caller: UserId, id: ReviewId)
    requires Consistent(s)
    requires DeleteReview(s, caller, id, false).Success?
    ensures Consistent(DeleteReview(s, caller, id, false).value)
  {
    var t := DeleteReview(s, caller, id, false).value;
    var i := LocateReview(s.reviews, id).value;
    forall m | m != s.reviews[i].movie ensures RatingOf(t.reviews, m) == RatingOf(s.reviews, m) {
      FilterRemoveIrrelevant(ActiveFor(m), s.reviews, i);
    }
    RefreshedConsistent(s, t, s.reviews[i].movie);
  }

  /** Likes and dislikes never move an aggregate and keep the invariants. */
  lemma ReactPreserves(s: Store, caller: UserId, id: ReviewId, like: bool)
    requires WellFormed(s) && Consistent(s)
    requires React(s, caller, id, like).Success?
    ensures WellFormed(React(s, caller, id, like).value.0)
    ensures Consistent(React(s, caller, id, like).value.0)
  {
    var t := React(s, caller, id, like).value.0;
    var i := LocateReview(s.reviews, id).value;
    forall m ensures RatingOf(t.reviews, m) == RatingOf(s.reviews, m) {
      RatingOfReplaceSame(s.reviews, i, t.reviews[i], m);
    }
    SameShapeWellFormed(s, t);
  }

  /** When the aggregator fails the review change still stands and the movie keeps its
      old, now stale, aggregate. */
  lemma CreateFaultKeepsReview(s: Store, caller: UserId, movie: MovieId, rating: int, title: string,
                               content: string, now: Time, newId: ReviewId)
    requires !HasReviewed(s.reviews, caller, movie) && IsStars(rating) && title != "" && content != ""
    ensures var r := CreateReview(s, caller, movie, rating, title, content, now, newId, true);
      && r.Success?
      && |r.value.0.reviews| == |s.reviews| + 1
      && r.value.0.movies == s.movies
  {
  }

  // ---- A worked example ----

  function Rated(id: ReviewId, user: UserId, stars: int): Review {
    Review(id, user, 1, stars, "Fine", "Watchable.", [], [], true, 0)
  }

  function ExampleMovie(rating: Aggregate): Movie {
    Movie(1, "X", "", "", [], ["Drama"], 0, 120, "", "", rating, 0, None, None, [], true)
  }

  /** Three active ratings 4, 4, 5 give 4.3 from 3 reviews; a fourth rating of 2 by a new
      reviewer gives 3.8 (3.75 rounded half up) from 4. */
  lemma RoundingExample()
    ensures RatingOf([Rated(1, 1, 4), Rated(2, 2, 4), Rated(3, 3, 5)], 1) == Aggregate(43, 3)
    ensures var s := Store([ExampleMovie(Aggregate(43, 3))], [Rated(1, 1, 4), Rated(2, 2, 4), Rated(3, 3, 5)], []);
      var r := CreateReview(s, 4, 1, 2, "Fine", "Watchable.", 0, 4, false);
      r.Success? && r.value.0.movies[0].rating == Aggregate(38, 4)
  {
    var three := [Rated(1, 1, 4), Rated(2, 2, 4), Rated(3, 3, 5)];
    ThreeRatings(three);
    var four := three + [Rated(4, 4, 2)];
    FourRatings(three, four);
    var s := Store([ExampleMovie(Aggregate(43, 3))], three, []);
    assert !HasReviewed(three, 4, 1);
    var r := CreateReview(s, 4, 1, 2, "Fine", "Watchable.", 0, 4, false);
    assert r.value.1 == Rated(4, 4, 2) && r.value.0.reviews == four;
  }

  lemma ThreeRatings(three: seq<Review>)
    requires three == [Rated(1, 1, 4), Rated(2, 2, 4), Rated(3, 3, 5)]
    ensures ActiveReviewsOf(three, 1) == three && SumRatings(three) == 13
  {
    FilterAll(ActiveFor(1), three);
    assert three == [Rated(1, 1, 4)] + [Rated(2, 2, 4)] + [Rated(3, 3, 5)];
    assert [Rated(1, 1, 4)] == [] + [Rated(1, 1, 4)];
    SumAppend([], Rated(1, 1, 4));
    SumAppend([Rated(1, 1, 4)], Rated(2, 2, 4));
    SumAppend([Rated(1, 1, 4)] + [Rated(2, 2, 4)], Rated(3, 3, 5));
  }

  lemma FourRatings(three: seq<Review>, four: seq<Review>)
    requires SumRatings(three) == 13 && |three| == 3 && four == three + [Rated(4, 4, 2)]
    requires forall i :: 0 <= i < 3 ==> three[i].movie == 1 && three[i].isActive
    ensures RatingOf(four, 1) == Aggregate(38, 4)
  {
    FilterAll(ActiveFor(1), four);
    SumAppend(three, Rated(4, 4, 2));
  }
}
