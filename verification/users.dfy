/** The user routes of server/routes/users.js: the public profile with its statistics,
    the profile update, and the signed-in user's dashboard. */
module Users {

  import opened Wrappers
  import opened Seqs
  import opened Sorting
  import opened Tallies
  import opened Domain
  import opened Aggregation
  import opened Orders
  import opened Reviews

  /** The unrounded mean rating of some reviews, 0 when there are none. */
  function MeanRating(rs: seq<Review>): (r: real)
    ensures |rs| == 0 ==> r == 0.0
    ensures |rs| > 0 ==> r * |rs| as real == SumRatings(rs) as real
  {
    if |rs| == 0 then 0.0 else SumRatings(rs) as real / |rs| as real
  }

  // ---- GET /api/users/:id ----

  datatype ProfileStats = ProfileStats(totalReviews: nat, averageRating: real, moviesWatched: nat)

  datatype ProfileView = ProfileView(user: User, reviews: seq<Review>, stats: ProfileStats)

  /** `GET /api/users/:id`: the user, their active reviews newest first, and statistics
      over those reviews; 404 for an unknown user. */
  function Profile(s: Store, id: UserId): (r: Result<ProfileView, Error>)
    ensures r.Failure? <==> FindUser(s.users, id).None?
    ensures r.Failure? ==> r.error == NotFound
    ensures r.Success? ==> r.value.user == FindUser(s.users, id).value
    ensures r.Success? ==> multiset(r.value.reviews) == multiset(Filter(ActiveBy(id), s.reviews)) && NewestFirst(r.value.reviews)
    ensures r.Success? ==> r.value.stats.totalReviews == |Filter(ActiveBy(id), s.reviews)|
    ensures r.Success? ==> r.value.stats.averageRating == MeanRating(Filter(ActiveBy(id), s.reviews))
    ensures r.Success? ==> r.value.stats.moviesWatched == |r.value.user.watchedMovies|
  {
    match FindUser(s.users, id)
    case None => Failure(NotFound)
    case Some(u) =>
      var reviews := UserReviews(s.reviews, id);
      StatsOfUserReviews(s.reviews, id, reviews);
      Success(ProfileView(u, reviews, ProfileStats(|reviews|, MeanRating(reviews), |u.watchedMovies|)))
  }

  /** The statistics over the sorted reviews are those of the user's active reviews. */
  lemma StatsOfUserReviews(reviews: seq<Review>, id: UserId, sorted: seq<Review>)
    requires sorted == UserReviews(reviews, id)
    ensures |sorted| == |Filter(ActiveBy(id), reviews)|
    ensures MeanRating(sorted) == MeanRating(Filter(ActiveBy(id), reviews))
  {
    MeanOfPermutation(sorted, Filter(ActiveBy(id), reviews));
  }

  /** Reordering reviews changes neither their number nor their mean. */
  lemma MeanOfPermutation(a: seq<Review>, b: seq<Review>)
    requires multiset(a) == multiset(b)
    ensures |a| == |b| && MeanRating(a) == MeanRating(b)
  {
    assert |a| == |multiset(a)| == |multiset(b)| == |b|;
    SumRatingsPermutation(a, b);
  }

  // ---- PUT /api/users/profile ----

  /** Usernames are unique across users (the `User` schema's unique index). */
  ghost predicate UniqueUsernames(users: seq<User>) {
    forall i, j :: 0 <= i < j < |users| ==> users[i].username != users[j].username
  }

  function NamedIs(name: string): User -> bool {
    (u: User) => u.username == name
  }

  /** `value || fallback` on strings: the empty string is falsy. */
  function OrKeep(value: string, fallback: string): string {
    if value != "" then value else fallback
  }

  /** `PUT /api/users/profile` for the signed-in user `caller`. A new username that
      another user holds is refused with 400. Otherwise username and bio are replaced
      only by non-empty values, and the genre list by any list sent, even an empty one
      (an array is truthy); nothing else changes. */
  function UpdateProfile(s: Store, caller: UserId, username: string, bio: string, favoriteGenres: Option<seq<string>>): (r: Result<Store, Error>)
    requires FindUser(s.users, caller).Some?
    ensures var cur := FindUser(s.users, caller).value;
      r.Failure? <==> username != "" && username != cur.username && exists k :: 0 <= k < |s.users| && s.users[k].username == username
    ensures r.Failure? ==> r.error == UsernameTaken
    ensures r.Success? ==> r.value.movies == s.movies && r.value.reviews == s.reviews && |r.value.users| == |s.users|
    ensures r.Success? ==> forall k :: 0 <= k < |s.users| && s.users[k].id != caller ==> r.value.users[k] == s.users[k]
    ensures r.Success? ==> forall k :: 0 <= k < |s.users| && s.users[k].id == caller && (forall j :: 0 <= j < k ==> s.users[j].id != caller) ==>
      var cur := s.users[k];
      && r.value.users[k].id == cur.id
      && r.value.users[k].watchedMovies == cur.watchedMovies
      && r.value.users[k].username == (if username == "" then cur.username else username)
      && r.value.users[k].bio == (if bio == "" then cur.bio else bio)
      && r.value.users[k].favoriteGenres == (if favoriteGenres.Some? then favoriteGenres.value else cur.favoriteGenres)
  {
    var i := Find(UserIdIs(caller), s.users).value;
    var cur := s.users[i];
    if username != "" && username != cur.username && Find(NamedIs(username), s.users).Some? then
      Failure(UsernameTaken)
    else
      var updated := cur.(
        username := OrKeep(username, cur.username),
        bio := OrKeep(bio, cur.bio),
        favoriteGenres := match favoriteGenres case Some(g) => g case None => cur.favoriteGenres);
      Success(s.(users := s.users[i := updated]))
  }

  /** A successful update keeps usernames unique: a taken name is refused, and keeping
      one's own name changes nothing. */
  lemma UpdateKeepsUsernamesUnique(s: Store, caller: UserId, username: string, bio: string, favoriteGenres: Option<seq<string>>)
    requires FindUser(s.users, caller).Some? && UniqueUsernames(s.users)
    requires UpdateProfile(s, caller, username, bio, favoriteGenres).Success?
    ensures UniqueUsernames(UpdateProfile(s, caller, username, bio, favoriteGenres).value.users)
  {
    var t := UpdateProfile(s, caller, username, bio, favoriteGenres).value.users;
    var i := Find(UserIdIs(caller), s.users).value;
    forall a, b | 0 <= a < b < |t| ensures t[a].username != t[b].username {
      if a == i || b == i {
        var other := if a == i then b else a;
        assert t[other] == s.users[other];
        if username != "" && username != s.users[i].username {
          assert !NamedIs(username)(s.users[other]);
        }
      } else {
        assert t[a] == s.users[a] && t[b] == s.users[b];
      }
    }
  }

  // ---- GET /api/users/dashboard/stats ----

  /** One sighting, weight 1, per genre of a movie: `watched.movie.genre.forEach(genre => ...)`. */
  function GenreHits(genres: seq<string>): (r: seq<(string, int)>)
    ensures |r| == |genres| && forall i :: 0 <= i < |genres| ==> r[i] == (genres[i], 1)
  {
    seq(|genres|, i requires 0 <= i < |genres| => (genres[i], 1))
  }

  /** The genres of the watched entry's movie, once per listing; nothing when the movie
      is missing. */
  function WatchHits(movies: seq<Movie>, w: Watched): seq<(string, int)> {
    match FindMovie(movies, w.movie)
    case None => []
    case Some(m) => GenreHits(m.genres)
  }

  /** The sightings of the user's watched list in order: the nested `forEach` loops. */
  function WatchStream(movies: seq<Movie>, ws: seq<Watched>): seq<(string, int)>
    decreases |ws|
  {
    if ws == [] then []
    else
      var n := |ws| - 1;
      WatchStream(movies, ws[..n]) + WatchHits(movies, ws[n])
  }

  /** No movie lists a genre twice. */
  ghost predicate GenresDistinct(movies: seq<Movie>) {
    forall k :: 0 <= k < |movies| ==> NoDup(movies[k].genres)
  }

  function WatchedHas(movies: seq<Movie>, g: string): Watched -> bool {
    (w: Watched) => FindMovie(movies, w.movie).Some? && g in FindMovie(movies, w.movie).value.genres
  }

  lemma {:induction false} GenreHitsCount(genres: seq<string>, g: string)
    requires NoDup(genres)
    ensures Occurrences(GenreHits(genres), g) == if g in genres then 1 else 0
    decreases |genres|
  {
    if genres != [] {
      var n := |genres| - 1;
      var h := GenreHits(genres);
      assert h[..n] == GenreHits(genres[..n]);
      GenreHitsCount(genres[..n], g);
      assert genres == genres[..n] + [genres[n]];
      if genres[n] == g {
        assert g !in genres[..n];
      }
    }
  }

  /** When no movie lists a genre twice, a genre's count is the number of watched
      entries whose movie carries it. */
  lemma {:induction false} WatchStreamCounts(movies: seq<Movie>, ws: seq<Watched>, g: string)
    requires GenresDistinct(movies)
    ensures Occurrences(WatchStream(movies, ws), g) == |Filter(WatchedHas(movies, g), ws)|
    decreases |ws|
  {
    if ws != [] {
      var n := |ws| - 1;
      WatchStreamCounts(movies, ws[..n], g);
      OccurrencesConcat(WatchStream(movies, ws[..n]), WatchHits(movies, ws[n]), g);
      match FindMovie(movies, ws[n].movie)
      case None =>
      case Some(m) =>
        GenreHitsCount(m.genres, g);
    }
  }

  datatype GenreCount = GenreCount(genre: string, count: nat)

  /** No entry of `r` is for genre `g`. */
  ghost predicate Uncounted(r: seq<GenreCount>, g: string) {
    forall j :: 0 <= j < |r| ==> r[j].genre != g
  }

  function Counted(top: seq<Stat<string>>): (r: seq<GenreCount>)
    ensures |r| == |top| && forall i :: 0 <= i < |top| ==> r[i] == GenreCount(top[i].key, top[i].count)
  {
    seq(|top|, i requires 0 <= i < |top| => GenreCount(top[i].key, top[i].count))
  }

  /** `Object.entries(genreCount).sort(([, a], [, b]) => b - a).slice(0, 5)`: the five
      most watched genres with their counts, most first, ties in first-seen order. */
  function FavoriteGenres(stream: seq<(string, int)>): (r: seq<GenreCount>)
    ensures |r| <= 5
    ensures forall i :: 0 <= i < |r| ==>
      r[i].genre in StreamKeys(stream) && r[i].count == Occurrences(stream, r[i].genre) >= 1
    ensures forall i, j :: 0 <= i < j < |r| ==> r[i].genre != r[j].genre
    ensures forall i, j :: 0 <= i < j < |r| ==> r[i].count >= r[j].count
    ensures forall i, j :: 0 <= i < j < |r| && r[i].count == r[j].count ==>
      r[i].genre in StreamKeys(stream) && r[j].genre in StreamKeys(stream) &&
      FirstIndex(stream, r[i].genre) < FirstIndex(stream, r[j].genre)
    // no genre left out was watched more often than a listed one
    ensures forall g, i :: g in StreamKeys(stream) && Uncounted(r, g) && 0 <= i < |r| ==> Occurrences(stream, g) <= r[i].count
    ensures |r| < 5 ==> forall g :: g in StreamKeys(stream) ==> !Uncounted(r, g)
  {
    var top := TopCounts(stream, 5);
    FavoritesOf(stream, top);
    Counted(top)
  }

  lemma FavoritesOf(stream: seq<(string, int)>, top: seq<Stat<string>>)
    requires top == TopCounts(stream, 5)
    ensures forall g :: Uncounted(Counted(top), g) <==> KeyMissing(top, g)
  {
    var r := Counted(top);
    forall g ensures Uncounted(r, g) <==> KeyMissing(top, g) {
      if !KeyMissing(top, g) {
        var j :| 0 <= j < |top| && top[j].key == g;
        assert r[j].genre == g;
      }
    }
  }

  /** What `Review.find({ user, isActive: true }).sort({ createdAt: -1 }).limit(n)` may
      return under any tie-break: at most `n` of the user's active reviews, newest first,
      none newer left out, all of them when fewer than `n`. */
  ghost predicate NewestCut(reviews: seq<Review>, u: UserId, n: nat, r: seq<Review>) {
    && |r| <= n
    && (forall i :: 0 <= i < |r| ==> r[i] in reviews && r[i].user == u && r[i].isActive)
    && multiset(r) <= multiset(reviews)
    && NewestFirst(r)
    && (forall k, i :: 0 <= k < |reviews| && reviews[k].user == u && reviews[k].isActive && reviews[k] !in r && 0 <= i < |r| ==>
          reviews[k].createdAt <= r[i].createdAt)
    && (|r| < n ==> forall k :: 0 <= k < |reviews| && reviews[k].user == u && reviews[k].isActive ==> reviews[k] in r)
  }

  /** `Review.find({ user, isActive: true }).sort({ createdAt: -1 }).limit(n)`. */
  function NewestReviews(reviews: seq<Review>, u: UserId, n: nat): (r: seq<Review>)
    ensures |r| <= n
    ensures forall i :: 0 <= i < |r| ==> r[i] in reviews && r[i].user == u && r[i].isActive
    ensures multiset(r) <= multiset(reviews)
    ensures NewestFirst(r)
    // no active review of the user left out is newer than a kept one
    ensures forall k, i :: 0 <= k < |reviews| && reviews[k].user == u && reviews[k].isActive && reviews[k] !in r && 0 <= i < |r| ==>
      reviews[k].createdAt <= r[i].createdAt
    ensures |r| < n ==> forall k :: 0 <= k < |reviews| && reviews[k].user == u && reviews[k].isActive ==> reviews[k] in r
  {
    CreatedAfterOrder();
    var r := TopN(CreatedAfter, ActiveBy(u), reviews, n);
    NewestReviewsFacts(reviews, u, n, r);
    r
  }

  lemma NewestReviewsFacts(reviews: seq<Review>, u: UserId, n: nat, r: seq<Review>)
    requires StrictWeakOrder(CreatedAfter) && r == TopN(CreatedAfter, ActiveBy(u), reviews, n)
    ensures forall i :: 0 <= i < |r| ==> r[i].user == u && r[i].isActive
    ensures NewestFirst(r)
    ensures forall k, i :: 0 <= k < |reviews| && reviews[k].user == u && reviews[k].isActive && reviews[k] !in r && 0 <= i < |r| ==>
      reviews[k].createdAt <= r[i].createdAt
    ensures |r| < n ==> forall k :: 0 <= k < |reviews| && reviews[k].user == u && reviews[k].isActive ==> reviews[k] in r
  {
    assert forall i :: 0 <= i < |r| ==> ActiveBy(u)(r[i]);
    assert forall i, j :: 0 <= i < j < |r| ==> !CreatedAfter(r[j], r[i]);
    assert forall k, i :: 0 <= k < |reviews| && ActiveBy(u)(reviews[k]) && reviews[k] !in r && 0 <= i < |r| ==>
      !CreatedAfter(reviews[k], r[i]);
  }

  function Always(w: Watched): bool {
    true
  }

  /** `watchedMovies.sort((a, b) => new Date(b.watchedAt) - new Date(a.watchedAt)).slice(0, 10)`. */
  function RecentlyWatched(ws: seq<Watched>): (r: seq<Watched>)
    ensures |r| <= 10
    ensures multiset(r) <= multiset(ws)
    ensures forall i, j :: 0 <= i < j < |r| ==> r[i].watchedAt >= r[j].watchedAt
    // nothing left out was watched later than something kept
    ensures forall k, i :: 0 <= k < |ws| && ws[k] !in r && 0 <= i < |r| ==> ws[k].watchedAt <= r[i].watchedAt
    ensures |r| < 10 ==> multiset(r) == multiset(ws)
    // entries watched at the same time keep list order, and the earliest-listed make the cut
    ensures forall t :: Filter(WatchedAtTime(t), r) <= Filter(WatchedAtTime(t), ws)
  {
    WatchedAfterOrder();
    var r := TopN(WatchedAfter, Always, ws, 10);
    RecentlyWatchedFacts(ws, r);
    RecentlyWatchedStable(ws, r);
    r
  }

  function WatchedAtTime(t: Time): Watched -> bool {
    (w: Watched) => w.watchedAt == t
  }

  lemma RecentlyWatchedStable(ws: seq<Watched>, r: seq<Watched>)
    requires StrictWeakOrder(WatchedAfter) && r == TopN(WatchedAfter, Always, ws, 10)
    ensures forall t :: Filter(WatchedAtTime(t), r) <= Filter(WatchedAtTime(t), ws)
  {
    forall t ensures Filter(WatchedAtTime(t), r) <= Filter(WatchedAtTime(t), ws) {
      RecentlyWatchedStableAt(ws, r, t);
    }
  }

  lemma RecentlyWatchedStableAt(ws: seq<Watched>, r: seq<Watched>, t: Time)
    requires StrictWeakOrder(WatchedAfter) && r == TopN(WatchedAfter, Always, ws, 10)
    ensures Filter(WatchedAtTime(t), r) <= Filter(WatchedAtTime(t), ws)
  {
    var y := Watched(0, 0, t);
    TopNStable(WatchedAfter, Always, ws, 10, y);
    FilterAll(Always, ws);
    TiedAtTime(t, r);
    TiedAtTime(t, ws);
  }

  /** The entries tied with one watched at `t` are those watched at `t`. */
  lemma TiedAtTime(t: Time, ws: seq<Watched>)
    ensures Filter(Tied(WatchedAfter, Watched(0, 0, t)), ws) == Filter(WatchedAtTime(t), ws)
  {
    var y := Watched(0, 0, t);
    forall x ensures Tied(WatchedAfter, y)(x) == WatchedAtTime(t)(x) {
      assert Tied(WatchedAfter, y)(x) == (!WatchedAfter(x, y) && !WatchedAfter(y, x));
    }
    FilterSame(Tied(WatchedAfter, y), WatchedAtTime(t), ws);
  }

  lemma RecentlyWatchedFacts(ws: seq<Watched>, r: seq<Watched>)
    requires StrictWeakOrder(WatchedAfter) && r == TopN(WatchedAfter, Always, ws, 10)
    ensures forall i, j :: 0 <= i < j < |r| ==> r[i].watchedAt >= r[j].watchedAt
    ensures forall k, i :: 0 <= k < |ws| && ws[k] !in r && 0 <= i < |r| ==> ws[k].watchedAt <= r[i].watchedAt
    ensures |r| < 10 ==> multiset(r) == multiset(ws)
  {
    assert forall i, j :: 0 <= i < j < |r| ==> !WatchedAfter(r[j], r[i]);
    assert forall k, i :: 0 <= k < |ws| && Always(ws[k]) && ws[k] !in r && 0 <= i < |r| ==> !WatchedAfter(ws[k], r[i]);
    ShortTopIsAll(ws);
  }

  /** Fewer than ten entries after the cut means nothing was cut. */
  lemma ShortTopIsAll(ws: seq<Watched>)
    requires StrictWeakOrder(WatchedAfter)
    ensures |TopN(WatchedAfter, Always, ws, 10)| < 10 ==> multiset(TopN(WatchedAfter, Always, ws, 10)) == multiset(ws)
  {
    FilterAll(Always, ws);
    var sorted := Sort(WatchedAfter, Filter(Always, ws));
    assert TopN(WatchedAfter, Always, ws, 10) == Take(sorted, 10);
  }

  datatype DashboardStats = DashboardStats(totalReviews: nat, moviesWatched: nat, averageRating: real, favoriteGenres: seq<GenreCount>)

  datatype DashboardView = DashboardView(stats: DashboardStats, recentReviews: seq<Review>, recentlyWatched: seq<Watched>)

  /** Every watched entry's movie is still in the store (`populate` leaves `null`
      otherwise, and reading its genres throws). */
  predicate WatchedFound(movies: seq<Movie>, ws: seq<Watched>) {
    forall i :: 0 <= i < |ws| ==> FindMovie(movies, ws[i].movie).Some?
  }

  /** `GET /api/users/dashboard/stats` for the signed-in user. The statistics cover only
      the ten newest active reviews; a missing user or watched movie throws (500). */
  function Dashboard(s: Store, caller: UserId): (r: Result<DashboardView, Error>)
    ensures r.Failure? <==> FindUser(s.users, caller).None? || !WatchedFound(s.movies, FindUser(s.users, caller).value.watchedMovies)
    ensures r.Failure? ==> r.error == ServerError
    ensures r.Success? ==>
      var u := FindUser(s.users, caller).value;
      var ten := NewestReviews(s.reviews, caller, 10);
      && r.value.stats.totalReviews == |ten| <= 10
      && r.value.stats.averageRating == MeanRating(ten)
      && r.value.stats.moviesWatched == |u.watchedMovies|
      && r.value.stats.favoriteGenres == FavoriteGenres(WatchStream(s.movies, u.watchedMovies))
      && r.value.recentReviews <= ten && |r.value.recentReviews| == (if |ten| < 5 then |ten| else 5)
      && r.value.recentlyWatched == RecentlyWatched(u.watchedMovies)
    // the same, whichever way the store breaks ties among equally new reviews
    ensures r.Success? ==> exists ten :: (
              && NewestCut(s.reviews, caller, 10, ten)
              && r.value.stats.totalReviews == |ten|
              && r.value.stats.averageRating == MeanRating(ten)
              && r.value.recentReviews <= ten
              && |r.value.recentReviews| == (if |ten| < 5 then |ten| else 5))
  {
    match FindUser(s.users, caller)
    case None => Failure(ServerError)
    case Some(u) =>
      if !WatchedFound(s.movies, u.watchedMovies) then Failure(ServerError)
      else
        var ten := NewestReviews(s.reviews, caller, 10);
        assert NewestCut(s.reviews, caller, 10, ten);
        var stats := DashboardStats(|ten|, |u.watchedMovies|, MeanRating(ten), FavoriteGenres(WatchStream(s.movies, u.watchedMovies)));
        Success(DashboardView(stats, Take(ten, 5), RecentlyWatched(u.watchedMovies)))
  }
}
