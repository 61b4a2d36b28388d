/** The for-you and similar-movies routes of server/routes/recommendations.js. Both are
    `find(filter).sort(order).limit(n)` queries over the catalogue; for-you runs one on
    the user's preferred genres and, when that yields fewer than ten, a popularity
    backfill. */
module Recommendations {

  import opened Wrappers
  import opened Seqs
  import opened Sorting
  import opened Domain
  import opened Orders
  import opened Profile

  /** `genre: { $in: wanted }`: some genre of the movie is wanted. */
  predicate SharesGenre(genres: seq<string>, wanted: seq<string>) {
    exists i :: 0 <= i < |genres| && genres[i] in wanted
  }

  /** `basedOn.map(g => g.genre)`. */
  function Genres(basedOn: seq<GenreScore>): (r: seq<string>)
    ensures |r| == |basedOn| && forall i :: 0 <= i < |basedOn| ==> r[i] == basedOn[i].genre
  {
    seq(|basedOn|, i requires 0 <= i < |basedOn| => basedOn[i].genre)
  }

  /** `Review.find({ user })`: every review of the user, active or not. */
  function ByUser(u: UserId): Review -> bool {
    (r: Review) => r.user == u
  }

  /** The preference query: not excluded, of a wanted genre, active, and rated at least
      3.5 stars. */
  function Matches(exclude: seq<MovieId>, wanted: seq<string>): Movie -> bool {
    (m: Movie) => m.id !in exclude && SharesGenre(m.genres, wanted) && m.isActive && m.rating.average >= 35
  }

  /** The backfill query: not excluded and active. */
  function Unseen(exclude: seq<MovieId>): Movie -> bool {
    (m: Movie) => m.id !in exclude && m.isActive
  }

  /** `populate('watchedMovies.movie')` found every watched movie; a missing one becomes
      null and reading its `_id` throws. */
  predicate WatchedResolvable(movies: seq<Movie>, ws: seq<Watched>) {
    forall i :: 0 <= i < |ws| ==> FindMovie(movies, ws[i].movie).Some?
  }

  datatype ForYouResponse = ForYouResponse(recommendations: seq<Movie>, basedOn: seq<GenreScore>)

  /** The recommendations for a watched list and a preferred genre list: the best-ranked
      preference matches, then, while fewer than ten, the best-ranked remaining active
      movies. With no preferred genres nothing matches, so the whole answer is the
      backfill. */
  function Recommend(movies: seq<Movie>, watched: seq<MovieId>, wanted: seq<string>): seq<Movie> {
    RanksAboveOrder();
    var pref := TopN(RanksAbove, Matches(watched, wanted), movies, 10);
    if |pref| < 10 then pref + Backfill(movies, watched, pref) else pref
  }

  /** The second query: the best-ranked active movies neither watched nor already on the
      list, as many as the list still lacks. */
  function Backfill(movies: seq<Movie>, watched: seq<MovieId>, pref: seq<Movie>): seq<Movie>
    requires StrictWeakOrder(RanksAbove) && |pref| <= 10
  {
    TopN(RanksAbove, Unseen(watched + MovieIds(pref)), movies, 10 - |pref|)
  }

  /** `GET /api/recommendations/for-you`. The user record must exist and every watched
      movie must still exist; otherwise the handler throws (500). */
  function ForYou(s: Store, caller: UserId): (r: Result<ForYouResponse, Error>)
    ensures FindUser(s.users, caller).None? ==> r == Failure(ServerError)
    ensures FindUser(s.users, caller).Some? ==>
      (r.Success? <==> WatchedResolvable(s.movies, FindUser(s.users, caller).value.watchedMovies))
    ensures r.Failure? ==> r.error == ServerError
    ensures r.Success? ==>
      var watched := WatchedIds(FindUser(s.users, caller).value.watchedMovies);
      var basedOn := TopGenres(GenreStream(s.movies, Filter(ByUser(caller), s.reviews)));
      && r.value.basedOn == basedOn
      && Recommended(s.movies, watched, Genres(basedOn), r.value.recommendations)
  {
    match FindUser(s.users, caller)
    case None => Failure(ServerError)
    case Some(user) =>
      if !WatchedResolvable(s.movies, user.watchedMovies) then Failure(ServerError)
      else
        var watched := WatchedIds(user.watchedMovies);
        // with no reviews the stream is empty and so is the profile, which is what the
        // route's `userReviews.length > 0` guard gives
        var basedOn := TopGenres(GenreStream(s.movies, Filter(ByUser(caller), s.reviews)));
        RecommendFacts(s.movies, watched, Genres(basedOn));
        Success(ForYouResponse(Recommend(s.movies, watched, Genres(basedOn)), basedOn))
  }

  /** What a for-you list promises: at most ten active, unwatched movies; preference
      matches ahead of the backfill, each group in rank order; no better-ranked match
      left out; a match left out only when the list is ten matches; no active unwatched movie left off ranks before a backfilled one; short
      only when every active unwatched movie is on it; no id twice. */
  ghost predicate Recommended(movies: seq<Movie>, watched: seq<MovieId>, wanted: seq<string>, recs: seq<Movie>) {
    && |recs| <= 10
    && ActiveUnwatched(movies, watched, recs)
    && MatchesFirst(Matches(watched, wanted), recs)
    && NoBetterMatch(movies, Matches(watched, wanted), recs)
    && MatchesTaken(movies, Matches(watched, wanted), recs)
    && NoBetterBackfill(movies, watched, Matches(watched, wanted), recs)
    && (|recs| < 10 ==> Exhaustive(movies, watched, recs))
    && (DistinctBy(MovieKey, movies) ==> DistinctBy(MovieKey, recs))
  }

  ghost predicate ActiveUnwatched(movies: seq<Movie>, watched: seq<MovieId>, recs: seq<Movie>) {
    forall i :: 0 <= i < |recs| ==> recs[i] in movies && recs[i].isActive && recs[i].id !in watched
  }

  /** Matches come first, and within each group no movie ranks strictly before an
      earlier one. */
  ghost predicate MatchesFirst(p: Movie -> bool, recs: seq<Movie>) {
    && (forall i, j :: 0 <= i < j < |recs| && p(recs[j]) ==> p(recs[i]))
    && (forall i, j :: 0 <= i < j < |recs| && p(recs[i]) == p(recs[j]) ==> !RanksAbove(recs[j], recs[i]))
  }

  /** No match left out ranks strictly before a match kept. */
  ghost predicate NoBetterMatch(movies: seq<Movie>, p: Movie -> bool, recs: seq<Movie>) {
    forall k, i :: 0 <= k < |movies| && p(movies[k]) && movies[k] !in recs && 0 <= i < |recs| && p(recs[i]) ==>
      !RanksAbove(movies[k], recs[i])
  }

  /** A match is left off only when the list is ten matches: the backfill runs only
      when fewer than ten movies matched. */
  ghost predicate MatchesTaken(movies: seq<Movie>, p: Movie -> bool, recs: seq<Movie>) {
    forall k :: 0 <= k < |movies| && p(movies[k]) && movies[k] !in recs ==>
      |recs| == 10 && forall i :: 0 <= i < |recs| ==> p(recs[i])
  }

  /** No active, unwatched movie whose id is not on the list ranks strictly before a
      movie the popularity backfill added. */
  ghost predicate NoBetterBackfill(movies: seq<Movie>, watched: seq<MovieId>, p: Movie -> bool, recs: seq<Movie>) {
    forall k, i ::
      0 <= k < |movies| && movies[k].isActive && movies[k].id !in watched && movies[k].id !in MovieIds(recs) &&
      0 <= i < |recs| && !p(recs[i]) ==>
        !RanksAbove(movies[k], recs[i])
  }

  /** Every active, unwatched movie has its id on the list. */
  ghost predicate Exhaustive(movies: seq<Movie>, watched: seq<MovieId>, recs: seq<Movie>) {
    forall k :: 0 <= k < |movies| && movies[k].isActive && movies[k].id !in watched ==> movies[k].id in MovieIds(recs)
  }

  lemma RecommendFacts(movies: seq<Movie>, watched: seq<MovieId>, wanted: seq<string>)
    ensures Recommended(movies, watched, wanted, Recommend(movies, watched, wanted))
  {
    RanksAboveOrder();
    if |TopN(RanksAbove, Matches(watched, wanted), movies, 10)| < 10 {
      RecommendShort(movies, watched, wanted);
    } else {
      RecommendFull(movies, watched, wanted);
    }
  }

  /** Fewer than ten matches: the list is the matches followed by the backfill. */
  lemma RecommendShort(movies: seq<Movie>, watched: seq<MovieId>, wanted: seq<string>)
    requires StrictWeakOrder(RanksAbove) && |TopN(RanksAbove, Matches(watched, wanted), movies, 10)| < 10
    ensures Recommended(movies, watched, wanted, Recommend(movies, watched, wanted))
  {
    var pref := TopN(RanksAbove, Matches(watched, wanted), movies, 10);
    var back := Backfill(movies, watched, pref);
    ShortJoinable(movies, watched, wanted, pref, back);
    JoinedRecommended(movies, watched, wanted, pref, back);
    RecommendIsJoin(movies, watched, wanted, pref, back);
  }

  lemma RecommendIsJoin(movies: seq<Movie>, watched: seq<MovieId>, wanted: seq<string>, pref: seq<Movie>, back: seq<Movie>)
    requires StrictWeakOrder(RanksAbove)
    requires pref == TopN(RanksAbove, Matches(watched, wanted), movies, 10) && |pref| < 10
    requires back == Backfill(movies, watched, pref)
    ensures Recommend(movies, watched, wanted) == pref + back
  {
  }

  lemma ShortJoinable(movies: seq<Movie>, watched: seq<MovieId>, wanted: seq<string>, pref: seq<Movie>, back: seq<Movie>)
    requires StrictWeakOrder(RanksAbove)
    requires pref == TopN(RanksAbove, Matches(watched, wanted), movies, 10) && |pref| < 10
    requires back == Backfill(movies, watched, pref)
    ensures Joinable(movies, watched, wanted, pref, back)
  {
    TopNPart(Matches(watched, wanted), movies, 10);
    TopNPart(Unseen(watched + MovieIds(pref)), movies, 10 - |pref|);
    BackfillMisses(movies, watched, wanted, pref, back);
  }

  /** Ten matches: the list is the matches alone. */
  lemma RecommendFull(movies: seq<Movie>, watched: seq<MovieId>, wanted: seq<string>)
    requires StrictWeakOrder(RanksAbove) && |TopN(RanksAbove, Matches(watched, wanted), movies, 10)| >= 10
    ensures Recommended(movies, watched, wanted, Recommend(movies, watched, wanted))
  {
    var p := Matches(watched, wanted);
    var pref := TopN(RanksAbove, p, movies, 10);
    assert Recommend(movies, watched, wanted) == pref;
    TopNPart(p, movies, 10);
    FullPreferred(movies, p, watched, wanted, pref);
  }

  /** What one `find(p).sort(RanksAbove).limit(n)` query returns: at most `n` movies of
      the catalogue matching `p`, in rank order, no better match left out, and short
      only when every match was taken. */
  ghost predicate Part(movies: seq<Movie>, p: Movie -> bool, part: seq<Movie>, n: nat) {
    && |part| <= n
    && (forall i :: 0 <= i < |part| ==> p(part[i]) && part[i] in movies)
    && multiset(part) <= multiset(movies)
    && SortedBy(RanksAbove, part)
    && (forall k, i :: 0 <= k < |movies| && p(movies[k]) && movies[k] !in part && 0 <= i < |part| ==>
          !RanksAbove(movies[k], part[i]))
    && (|part| < n ==> forall k :: 0 <= k < |movies| && p(movies[k]) ==> movies[k] in part)
  }

  lemma TopNPart(p: Movie -> bool, movies: seq<Movie>, n: nat)
    ensures Part(movies, p, TopN(RanksAbove, p, movies, n), n)
  {
    RanksAboveOrder();
  }

  lemma FullPreferred(movies: seq<Movie>, p: Movie -> bool, watched: seq<MovieId>, wanted: seq<string>, pref: seq<Movie>)
    requires p == Matches(watched, wanted) && Part(movies, p, pref, 10) && |pref| == 10
    ensures Recommended(movies, watched, wanted, pref)
  {
    if DistinctBy(MovieKey, movies) {
      DistinctBySub(MovieKey, movies, pref);
    }
  }

  /** Nothing the backfill adds is a preference match: a match it could add would already
      be among the (short) preference results. */
  lemma BackfillMisses(movies: seq<Movie>, watched: seq<MovieId>, wanted: seq<string>, pref: seq<Movie>, back: seq<Movie>)
    requires Part(movies, Matches(watched, wanted), pref, 10) && |pref| < 10
    requires Part(movies, Unseen(watched + MovieIds(pref)), back, 10 - |pref|)
    ensures forall i :: 0 <= i < |back| ==> !Matches(watched, wanted)(back[i]) && back[i].id !in MovieIds(pref)
  {
    var p := Matches(watched, wanted);
    var q := Unseen(watched + MovieIds(pref));
    forall i | 0 <= i < |back| ensures !p(back[i]) && back[i].id !in MovieIds(pref) {
      assert q(back[i]);
    }
  }

  /** The preference results followed by a backfill that holds no match and repeats no
      preference id. */
  ghost predicate Joinable(movies: seq<Movie>, watched: seq<MovieId>, wanted: seq<string>, pref: seq<Movie>, back: seq<Movie>) {
    && Part(movies, Matches(watched, wanted), pref, 10) && |pref| < 10
    && Part(movies, Unseen(watched + MovieIds(pref)), back, 10 - |pref|)
    && (forall i :: 0 <= i < |back| ==> !Matches(watched, wanted)(back[i]) && back[i].id !in MovieIds(pref))
  }

  lemma JoinedRecommended(movies: seq<Movie>, watched: seq<MovieId>, wanted: seq<string>, pref: seq<Movie>, back: seq<Movie>)
    requires Joinable(movies, watched, wanted, pref, back)
    ensures Recommended(movies, watched, wanted, pref + back)
  {
    JoinedMembers(movies, watched, wanted, pref, back);
    JoinedGroups(movies, watched, wanted, pref, back);
    JoinedRanks(movies, watched, wanted, pref, back);
    JoinedNoBetter(movies, watched, wanted, pref, back);
    JoinedBackfillTop(movies, watched, wanted, pref, back);
    JoinedComplete(movies, watched, wanted, pref, back);
    JoinedDistinct(movies, watched, wanted, pref, back);
  }

  lemma JoinedMembers(movies: seq<Movie>, watched: seq<MovieId>, wanted: seq<string>, pref: seq<Movie>, back: seq<Movie>)
    requires Joinable(movies, watched, wanted, pref, back)
    ensures |pref + back| <= 10 && ActiveUnwatched(movies, watched, pref + back)
  {
    var p := Matches(watched, wanted);
    var q := Unseen(watched + MovieIds(pref));
    var recs := pref + back;
    forall i | 0 <= i < |recs| ensures recs[i] in movies && recs[i].isActive && recs[i].id !in watched {
      if i < |pref| {
        assert p(recs[i]);
      } else {
        assert recs[i] == back[i - |pref|];
        assert q(recs[i]);
      }
    }
  }

  lemma JoinedGroups(movies: seq<Movie>, watched: seq<MovieId>, wanted: seq<string>, pref: seq<Movie>, back: seq<Movie>)
    requires Joinable(movies, watched, wanted, pref, back)
    ensures forall i, j :: 0 <= i < j < |pref + back| && Matches(watched, wanted)((pref + back)[j]) ==>
      Matches(watched, wanted)((pref + back)[i])
  {
    var p := Matches(watched, wanted);
    var recs := pref + back;
    forall i, j | 0 <= i < j < |recs| && p(recs[j]) ensures p(recs[i]) {
      if j < |pref| {
        assert recs[i] == pref[i];
      }
    }
  }

  lemma JoinedRanks(movies: seq<Movie>, watched: seq<MovieId>, wanted: seq<string>, pref: seq<Movie>, back: seq<Movie>)
    requires Joinable(movies, watched, wanted, pref, back)
    ensures forall i, j ::
      (0 <= i < j < |pref + back| && Matches(watched, wanted)((pref + back)[i]) == Matches(watched, wanted)((pref + back)[j]))
      ==> !RanksAbove((pref + back)[j], (pref + back)[i])
  {
    var p := Matches(watched, wanted);
    var recs := pref + back;
    forall i, j | 0 <= i < j < |recs| && p(recs[i]) == p(recs[j]) ensures !RanksAbove(recs[j], recs[i]) {
      if j < |pref| {
        assert recs[i] == pref[i] && recs[j] == pref[j];
      } else if i >= |pref| {
        assert recs[i] == back[i - |pref|] && recs[j] == back[j - |pref|];
      }
    }
  }

  lemma JoinedNoBetter(movies: seq<Movie>, watched: seq<MovieId>, wanted: seq<string>, pref: seq<Movie>, back: seq<Movie>)
    requires Joinable(movies, watched, wanted, pref, back)
    ensures NoBetterMatch(movies, Matches(watched, wanted), pref + back)
    ensures MatchesTaken(movies, Matches(watched, wanted), pref + back)
  {
    var p := Matches(watched, wanted);
    forall k | 0 <= k < |movies| && p(movies[k]) ensures movies[k] in pref + back {
      assert movies[k] in pref;
    }
  }

  /** A backfilled movie is the best of what the second query could still take: an
      active unwatched movie whose id is neither on the preference list nor on the
      backfill matched that query and was left out. */
  lemma JoinedBackfillTop(movies: seq<Movie>, watched: seq<MovieId>, wanted: seq<string>, pref: seq<Movie>, back: seq<Movie>)
    requires Joinable(movies, watched, wanted, pref, back)
    ensures NoBetterBackfill(movies, watched, Matches(watched, wanted), pref + back)
  {
    var p := Matches(watched, wanted);
    var q := Unseen(watched + MovieIds(pref));
    var recs := pref + back;
    forall k, i |
      0 <= k < |movies| && movies[k].isActive && movies[k].id !in watched && movies[k].id !in MovieIds(recs) &&
      0 <= i < |recs| && !p(recs[i])
      ensures !RanksAbove(movies[k], recs[i])
    {
      assert i >= |pref|;
      var b := i - |pref|;
      assert recs[i] == back[b];
      forall j | 0 <= j < |pref| ensures MovieIds(pref)[j] != movies[k].id {
        assert MovieIds(pref)[j] == MovieIds(recs)[j];
      }
      assert q(movies[k]);
      forall j | 0 <= j < |back| ensures back[j] != movies[k] {
        assert MovieIds(recs)[|pref| + j] == back[j].id;
      }
    }
  }

  lemma JoinedComplete(movies: seq<Movie>, watched: seq<MovieId>, wanted: seq<string>, pref: seq<Movie>, back: seq<Movie>)
    requires Joinable(movies, watched, wanted, pref, back)
    ensures |pref + back| < 10 ==> Exhaustive(movies, watched, pref + back)
  {
    var q := Unseen(watched + MovieIds(pref));
    var recs := pref + back;
    if |recs| < 10 {
      forall k | 0 <= k < |movies| && movies[k].isActive && movies[k].id !in watched
        ensures movies[k].id in MovieIds(recs)
      {
        if movies[k].id in MovieIds(pref) {
          var j :| 0 <= j < |pref| && MovieIds(pref)[j] == movies[k].id;
          assert MovieIds(recs)[j] == movies[k].id;
        } else {
          assert q(movies[k]);
          assert movies[k] in back;
          var j :| 0 <= j < |back| && back[j] == movies[k];
          assert MovieIds(recs)[|pref| + j] == movies[k].id;
        }
      }
    }
  }

  lemma JoinedDistinct(movies: seq<Movie>, watched: seq<MovieId>, wanted: seq<string>, pref: seq<Movie>, back: seq<Movie>)
    requires Joinable(movies, watched, wanted, pref, back)
    ensures DistinctBy(MovieKey, movies) ==> DistinctBy(MovieKey, pref + back)
  {
    var recs := pref + back;
    if DistinctBy(MovieKey, movies) {
      DistinctBySub(MovieKey, movies, pref);
      DistinctBySub(MovieKey, movies, back);
      forall i, j | 0 <= i < j < |recs| ensures MovieKey(recs[i]) != MovieKey(recs[j]) {
        if j >= |pref| && i < |pref| {
          assert recs[j] == back[j - |pref|];
          assert MovieIds(pref)[i] == recs[i].id;
        } else if i >= |pref| {
          assert recs[i] == back[i - |pref|] && recs[j] == back[j - |pref|];
        }
      }
    }
  }

  /** The for-you list never offers a movie the user has reviewed, as long as every review
      is on its author's watched list. */
  lemma ForYouSkipsReviewed(s: Store, caller: UserId)
    requires ReviewsWatched(s)
    requires FindUser(s.users, caller).Some? && WatchedResolvable(s.movies, FindUser(s.users, caller).value.watchedMovies)
    ensures forall i, j :: 0 <= i < |ForYou(s, caller).value.recommendations| && 0 <= j < |s.reviews| && s.reviews[j].user == caller ==>
      ForYou(s, caller).value.recommendations[i].id != s.reviews[j].movie
  {
    var user := FindUser(s.users, caller).value;
    var k :| 0 <= k < |s.users| && s.users[k] == user;
    var recs := ForYou(s, caller).value.recommendations;
    forall i, j | 0 <= i < |recs| && 0 <= j < |s.reviews| && s.reviews[j].user == caller
      ensures recs[i].id != s.reviews[j].movie
    {
      assert s.reviews[j].movie in WatchedIds(user.watchedMovies);
    }
  }

  // ---- Similar movies ----

  /** The similar-movies query for a reference movie: another id, a shared genre,
      active. */
  function SimilarTo(ref: Movie): Movie -> bool {
    (m: Movie) => m.id != ref.id && SharesGenre(m.genres, ref.genres) && m.isActive
  }

  /** What the similar-movies answer for `ref` promises: at most eight movies of the
      store, none more often than the store holds it, each another active movie sharing a genre with `ref`, best average first;
      nothing left out rates higher than anything kept, and fewer than eight only when
      every match is kept. */
  ghost predicate SimilarList(movies: seq<Movie>, ref: Movie, out: seq<Movie>) {
    && |out| <= 8
    && multiset(out) <= multiset(movies)
    && (forall i :: 0 <= i < |out| ==>
          out[i] in movies && out[i].id != ref.id && out[i].isActive && SharesGenre(out[i].genres, ref.genres))
    && (forall i, j :: 0 <= i < j < |out| ==> out[i].rating.average >= out[j].rating.average)
    && (forall k, i :: 0 <= k < |movies| && SimilarTo(ref)(movies[k]) && movies[k] !in out && 0 <= i < |out| ==>
          movies[k].rating.average <= out[i].rating.average)
    && (|out| < 8 ==> forall k :: 0 <= k < |movies| && SimilarTo(ref)(movies[k]) ==> movies[k] in out)
  }

  /** `GET /api/recommendations/similar/:movieId`: 404 for an unknown id, otherwise the
      eight best-rated active movies sharing a genre with it. The reference movie itself
      need not be active. */
  function Similar(movies: seq<Movie>, id: MovieId): (r: Result<seq<Movie>, Error>)
    ensures FindMovie(movies, id).None? <==> r == Failure(NotFound)
    ensures r.Failure? ==> r.error == NotFound
    ensures r.Success? ==> SimilarList(movies, FindMovie(movies, id).value, r.value)
  {
    match FindMovie(movies, id)
    case None => Failure(NotFound)
    case Some(ref) =>
      AverageAboveOrder();
      var out := TopN(AverageAbove, SimilarTo(ref), movies, 8);
      SimilarFacts(movies, ref, out);
      Success(out)
  }

  lemma SimilarFacts(movies: seq<Movie>, ref: Movie, out: seq<Movie>)
    requires StrictWeakOrder(AverageAbove) && out == TopN(AverageAbove, SimilarTo(ref), movies, 8)
    ensures SimilarList(movies, ref, out)
  {
    assert forall i :: 0 <= i < |out| ==> SimilarTo(ref)(out[i]);
    assert forall i, j :: 0 <= i < j < |out| ==> !AverageAbove(out[j], out[i]);
  }
}
