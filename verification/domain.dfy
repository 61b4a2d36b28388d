/** The records the server keeps (movies, reviews, users) and the store snapshot the
    routes read and write. A Mongo collection is a sequence in insertion order; every
    query is a filter, a stable sort and a prefix of such a sequence. */
module Domain {

  import opened Wrappers
  import opened Seqs

  type MovieId = nat
  type UserId = nat
  type ReviewId = nat

  /** Milliseconds since the epoch, as a JavaScript `Date` counts them. */
  type Time = int

  /** The star values the rating widget offers (1 to 5). The model takes the review
      schema, which is not part of this model, to reject any other value on save; the
      routes would answer that with a 500. */
  predicate IsStars(n: int) {
    1 <= n <= 5
  }

  /** `rating.average` and `rating.count` of a movie. The average is kept exactly, in
      tenths of a star, so the schema bound [0, 5] is 0..50 here. */
  datatype Aggregate = Aggregate(average: int, count: nat)

  datatype Movie = Movie(
    id: MovieId,
    title: string,
    description: string,
    director: string,
    cast: seq<string>,
    genres: seq<string>,
    releaseDate: Time,
    duration: int,
    poster: string,
    trailer: string,
    rating: Aggregate,
    boxOffice: int,
    movieLanguage: Option<string>,
    country: Option<string>,
    awards: seq<string>,
    isActive: bool)

  datatype Review = Review(
    id: ReviewId,
    user: UserId,
    movie: MovieId,
    rating: int,
    title: string,
    content: string,
    likes: seq<UserId>,
    dislikes: seq<UserId>,
    isActive: bool,
    createdAt: Time)

  /** An entry of a user's `watchedMovies` list. */
  datatype Watched = Watched(movie: MovieId, rating: int, watchedAt: Time)

  datatype User = User(
    id: UserId,
    username: string,
    bio: string,
    favoriteGenres: seq<string>,
    watchedMovies: seq<Watched>)

  datatype Store = Store(movies: seq<Movie>, reviews: seq<Review>, users: seq<User>)

  /** The error answers of the routes. */
  datatype Error =
    | NotFound          // 404
    | Forbidden         // 403, not the owner
    | AlreadyReviewed   // 400
    | UsernameTaken     // 400
    | ServerError       // 500, an exception inside the handler

  function MovieKey(m: Movie): MovieId { m.id }
  function ReviewKey(r: Review): ReviewId { r.id }
  function UserKey(u: User): UserId { u.id }

  function MovieIdIs(id: MovieId): Movie -> bool { (m: Movie) => m.id == id }
  function ReviewIdIs(id: ReviewId): Review -> bool { (r: Review) => r.id == id }
  function UserIdIs(id: UserId): User -> bool { (u: User) => u.id == id }

  /** `Movie.findById(id)`. */
  function FindMovie(ms: seq<Movie>, id: MovieId): (r: Option<Movie>)
    ensures r.Some? ==> r.value in ms && r.value.id == id
    ensures r.None? <==> forall i :: 0 <= i < |ms| ==> ms[i].id != id
  {
    match Find(MovieIdIs(id), ms)
    case Some(i) => Some(ms[i])
    case None => None
  }

  /** `User.findById(id)`. */
  function FindUser(us: seq<User>, id: UserId): (r: Option<User>)
    ensures r.Some? ==> r.value in us && r.value.id == id
    ensures r.None? <==> forall i :: 0 <= i < |us| ==> us[i].id != id
  {
    match Find(UserIdIs(id), us)
    case Some(i) => Some(us[i])
    case None => None
  }

  /** With distinct ids a lookup finds the one record carrying the id. */
  lemma FindMovieUnique(ms: seq<Movie>, i: nat)
    requires DistinctBy(MovieKey, ms) && i < |ms|
    ensures FindMovie(ms, ms[i].id) == Some(ms[i])
  {
    assert MovieIdIs(ms[i].id)(ms[i]);
  }

  lemma FindUserUnique(us: seq<User>, i: nat)
    requires DistinctBy(UserKey, us) && i < |us|
    ensures FindUser(us, us[i].id) == Some(us[i])
  {
    assert UserIdIs(us[i].id)(us[i]);
  }

  /** The ids of a list of movies, in order. */
  function MovieIds(ms: seq<Movie>): (r: seq<MovieId>)
    ensures |r| == |ms| && forall i :: 0 <= i < |ms| ==> r[i] == ms[i].id
  {
    seq(|ms|, i requires 0 <= i < |ms| => ms[i].id)
  }

  /** The movie ids on a user's `watchedMovies` list. */
  function WatchedIds(ws: seq<Watched>): (r: seq<MovieId>)
    ensures |r| == |ws| && forall i :: 0 <= i < |ws| ==> r[i] == ws[i].movie
  {
    seq(|ws|, i requires 0 <= i < |ws| => ws[i].movie)
  }

  // ---- Store invariants ----

  /** Ids are unique in every collection (Mongo `_id`). */
  ghost predicate DistinctIds(s: Store) {
    && DistinctBy(MovieKey, s.movies)
    && DistinctBy(ReviewKey, s.reviews)
    && DistinctBy(UserKey, s.users)
  }

  /** Every stored star rating is one the widget offers. */
  ghost predicate StarsInRange(reviews: seq<Review>) {
    forall i :: 0 <= i < |reviews| ==> IsStars(reviews[i].rating)
  }

  /** At most one review per (user, movie) pair, active or not. */
  ghost predicate OneReviewPerPair(reviews: seq<Review>) {
    forall i, j :: 0 <= i < j < |reviews| ==>
      reviews[i].user != reviews[j].user || reviews[i].movie != reviews[j].movie
  }

  /** Every review's author has the reviewed movie on their `watchedMovies` list. */
  ghost predicate ReviewsWatched(s: Store) {
    forall i, k :: 0 <= i < |s.reviews| && 0 <= k < |s.users| && s.users[k].id == s.reviews[i].user ==>
      s.reviews[i].movie in WatchedIds(s.users[k].watchedMovies)
  }
}
