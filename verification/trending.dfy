/** `GET /api/recommendations/trending` (server/routes/recommendations.js): the movies
    with the most active reviews created in the last thirty days. */
module Trending {

  import opened Wrappers
  import opened Seqs
  import opened Tallies
  import opened Domain

  /** Thirty days in milliseconds, the window `setDate(getDate() - 30)` opens. */
  const Window: int := 30 * 24 * 60 * 60 * 1000

  /** The start of the window for a request made at `now`. */
  function Since(now: Time): Time {
    now - Window
  }

  /** `Review.find({ createdAt: { $gte: since }, isActive: true })`. */
  function RecentFor(since: Time): Review -> bool {
    (r: Review) => r.isActive && r.createdAt >= since
  }

  /** One sighting of its movie per recent active review, in store order: the `forEach`
      that fills `movieReviewCounts`. */
  function RecentStream(reviews: seq<Review>, since: Time): seq<(MovieId, int)>
    decreases |reviews|
  {
    if reviews == [] then []
    else
      var n := |reviews| - 1;
      RecentStream(reviews[..n], since) + (if RecentFor(since)(reviews[n]) then [(reviews[n].movie, 1)] else [])
  }

  function RecentOf(since: Time, id: MovieId): Review -> bool {
    (r: Review) => r.movie == id && r.isActive && r.createdAt >= since
  }

  /** Reference definition: how many active reviews of `id` were created since `since`. */
  function RecentCount(reviews: seq<Review>, since: Time, id: MovieId): nat {
    |Filter(RecentOf(since, id), reviews)|
  }

  /** The stream counts exactly the recent active reviews of each movie. */
  lemma {:induction false} RecentCounted(reviews: seq<Review>, since: Time, id: MovieId)
    ensures Occurrences(RecentStream(reviews, since), id) == RecentCount(reviews, since, id)
    decreases |reviews|
  {
    if reviews != [] {
      var n := |reviews| - 1;
      var front := RecentStream(reviews[..n], since);
      RecentCounted(reviews[..n], since, id);
      assert reviews[..n + 1] == reviews;
      if RecentFor(since)(reviews[n]) {
        var s := front + [(reviews[n].movie, 1)];
        assert s[..|front|] == front;
      } else {
        assert RecentStream(reviews, since) == front;
      }
    }
  }

  /** A movie is sighted in the stream exactly when it has a recent active review. */
  lemma RecentSighted(reviews: seq<Review>, since: Time, id: MovieId)
    ensures id in StreamKeys(RecentStream(reviews, since)) <==> RecentCount(reviews, since, id) >= 1
  {
    var stream := RecentStream(reviews, since);
    RecentCounted(reviews, since, id);
    if id in StreamKeys(stream) {
      PresentKey(stream, id);
    } else {
      AbsentKey(stream, id);
    }
  }

  function ActiveWithId(id: MovieId): Movie -> bool {
    (m: Movie) => m.id == id && m.isActive
  }

  /** `x` occurs in `ids` before `y` does. */
  ghost predicate Precedes(ids: seq<MovieId>, x: MovieId, y: MovieId) {
    exists a, b :: 0 <= a < b < |ids| && ids[a] == x && ids[b] == y
  }

  /** What resolving `ids` against the catalogue gives: at most one movie per id, each
      an active catalogue movie whose id is listed; every active movie with a listed id
      represented; and the movies in the order of their ids. */
  ghost predicate Resolves(movies: seq<Movie>, ids: seq<MovieId>, r: seq<Movie>) {
    && |r| <= |ids|
    && (forall i :: 0 <= i < |r| ==> r[i] in movies && r[i].isActive && r[i].id in ids)
    && (forall j :: 0 <= j < |movies| && movies[j].isActive && movies[j].id in ids ==> movies[j].id in MovieIds(r))
    && (forall i, j :: 0 <= i < j < |r| ==> Precedes(ids, r[i].id, r[j].id))
  }

  /** `ids.map(id => found.find(m => m._id == id)).filter(Boolean)` over
      `found = Movie.find({ _id: { $in: ids }, isActive: true })`: the active movie of
      each id, in the order of `ids`, ids without one dropped and not replaced. */
  function Resolve(movies: seq<Movie>, ids: seq<MovieId>): (r: seq<Movie>)
    ensures Resolves(movies, ids, r)
    decreases |ids|
  {
    if ids == [] then []
    else
      var n := |ids| - 1;
      var front := Resolve(movies, ids[..n]);
      match Find(ActiveWithId(ids[n]), movies)
      case Some(j) => ResolveFound(movies, ids, front, movies[j]); front + [movies[j]]
      case None => ResolveMissing(movies, ids, front); front
  }

  lemma ResolvePrefix(movies: seq<Movie>, ids: seq<MovieId>, front: seq<Movie>)
    requires ids != [] && Resolves(movies, ids[..|ids| - 1], front)
    ensures forall i :: 0 <= i < |front| ==> front[i].id in ids
    ensures forall i, j :: 0 <= i < j < |front| ==> Precedes(ids, front[i].id, front[j].id)
  {
    var n := |ids| - 1;
    forall i | 0 <= i < |front| ensures front[i].id in ids {
      var a :| 0 <= a < n && ids[..n][a] == front[i].id;
      assert ids[a] == front[i].id;
    }
    forall i, j | 0 <= i < j < |front| ensures Precedes(ids, front[i].id, front[j].id) {
      var a, b :| 0 <= a < b < n && ids[..n][a] == front[i].id && ids[..n][b] == front[j].id;
      assert ids[a] == front[i].id && ids[b] == front[j].id;
    }
  }

  /** An id in `ids` is either among all but the last, or the last. */
  lemma InInit(ids: seq<MovieId>, x: MovieId)
    requires x in ids && x != ids[|ids| - 1]
    ensures x in ids[..|ids| - 1]
  {
    var a :| 0 <= a < |ids| && ids[a] == x;
    assert ids[..|ids| - 1][a] == x;
  }

  /** The last id has an active movie `m`, which is appended. */
  lemma ResolveFound(movies: seq<Movie>, ids: seq<MovieId>, front: seq<Movie>, m: Movie)
    requires ids != [] && Resolves(movies, ids[..|ids| - 1], front)
    requires m in movies && m.isActive && m.id == ids[|ids| - 1]
    ensures Resolves(movies, ids, front + [m])
  {
    var n := |ids| - 1;
    var r := front + [m];
    ResolvePrefix(movies, ids, front);
    forall i | 0 <= i < |r| ensures r[i] in movies && r[i].isActive && r[i].id in ids {
      if i == |front| {
        assert ids[n] == m.id;
      } else {
        assert r[i] == front[i];
      }
    }
    forall j | 0 <= j < |movies| && movies[j].isActive && movies[j].id in ids ensures movies[j].id in MovieIds(r) {
      if movies[j].id == ids[n] {
        assert MovieIds(r)[|front|] == movies[j].id;
      } else {
        InInit(ids, movies[j].id);
        var k :| 0 <= k < |front| && MovieIds(front)[k] == movies[j].id;
        assert MovieIds(r)[k] == movies[j].id;
      }
    }
    forall i, j | 0 <= i < j < |r| ensures Precedes(ids, r[i].id, r[j].id) {
      assert r[i] == front[i];
      if j == |front| {
        var a :| 0 <= a < n && ids[..n][a] == front[i].id;
        assert ids[a] == r[i].id && ids[n] == r[j].id;
      } else {
        assert r[j] == front[j];
      }
    }
  }

  /** The last id has no active movie: nothing is appended. */
  lemma ResolveMissing(movies: seq<Movie>, ids: seq<MovieId>, front: seq<Movie>)
    requires ids != [] && Resolves(movies, ids[..|ids| - 1], front)
    requires forall j :: 0 <= j < |movies| ==> !ActiveWithId(ids[|ids| - 1])(movies[j])
    ensures Resolves(movies, ids, front)
  {
    var n := |ids| - 1;
    ResolvePrefix(movies, ids, front);
    forall j | 0 <= j < |movies| && movies[j].isActive && movies[j].id in ids ensures movies[j].id in MovieIds(front) {
      assert !ActiveWithId(ids[n])(movies[j]);
      InInit(ids, movies[j].id);
    }
  }

  /** The ids of the ten movies with the most recent active reviews, most first; equal
      counts keep the order in which the movies were first seen in the scan. */
  function TrendingIds(reviews: seq<Review>, since: Time): (r: seq<MovieId>)
    ensures |r| <= 10 && NoDup(r)
    ensures forall i :: 0 <= i < |r| ==>
      RecentCount(reviews, since, r[i]) >= 1 && r[i] in StreamKeys(RecentStream(reviews, since))
    ensures forall i, j :: 0 <= i < j < |r| ==> RecentCount(reviews, since, r[i]) >= RecentCount(reviews, since, r[j])
    ensures forall i, j :: 0 <= i < j < |r| && RecentCount(reviews, since, r[i]) == RecentCount(reviews, since, r[j]) ==>
      r[i] in StreamKeys(RecentStream(reviews, since)) && r[j] in StreamKeys(RecentStream(reviews, since)) &&
      FirstIndex(RecentStream(reviews, since), r[i]) < FirstIndex(RecentStream(reviews, since), r[j])
    // no movie left out has more recent reviews than one kept
    ensures forall id, i :: id !in r && 0 <= i < |r| ==> RecentCount(reviews, since, id) <= RecentCount(reviews, since, r[i])
    ensures |r| < 10 ==> forall id :: RecentCount(reviews, since, id) >= 1 ==> id in r
  {
    var top := TopCounts(RecentStream(reviews, since), 10);
    TrendingIdsFacts(reviews, since, top, KeysOf(top));
    KeysOf(top)
  }

  lemma TrendingIdsFacts(reviews: seq<Review>, since: Time, top: seq<Stat<MovieId>>, r: seq<MovieId>)
    requires top == TopCounts(RecentStream(reviews, since), 10) && r == KeysOf(top)
    ensures |r| <= 10 && NoDup(r)
    ensures forall i :: 0 <= i < |r| ==>
      RecentCount(reviews, since, r[i]) >= 1 && r[i] in StreamKeys(RecentStream(reviews, since))
    ensures forall i, j :: 0 <= i < j < |r| ==> RecentCount(reviews, since, r[i]) >= RecentCount(reviews, since, r[j])
    ensures forall i, j :: 0 <= i < j < |r| && RecentCount(reviews, since, r[i]) == RecentCount(reviews, since, r[j]) ==>
      r[i] in StreamKeys(RecentStream(reviews, since)) && r[j] in StreamKeys(RecentStream(reviews, since)) &&
      FirstIndex(RecentStream(reviews, since), r[i]) < FirstIndex(RecentStream(reviews, since), r[j])
    ensures forall id, i :: id !in r && 0 <= i < |r| ==> RecentCount(reviews, since, id) <= RecentCount(reviews, since, r[i])
    ensures |r| < 10 ==> forall id :: RecentCount(reviews, since, id) >= 1 ==> id in r
  {
    TrendingExact(reviews, since, top, r);
    TrendingRanked(reviews, since, top, r);
    TrendingLeftOut(reviews, since, top, r);
  }

  /** Each kept entry counts the recent active reviews of its movie. */
  lemma TrendingExact(reviews: seq<Review>, since: Time, top: seq<Stat<MovieId>>, r: seq<MovieId>)
    requires CountsExact(top, RecentStream(reviews, since)) && r == KeysOf(top)
    ensures NoDup(r)
    ensures forall i :: 0 <= i < |r| ==> RecentCount(reviews, since, r[i]) == top[i].count >= 1
    ensures forall i :: 0 <= i < |r| ==> r[i] in StreamKeys(RecentStream(reviews, since))
  {
    forall i | 0 <= i < |r| ensures RecentCount(reviews, since, r[i]) == top[i].count >= 1 {
      RecentCounted(reviews, since, r[i]);
    }
  }

  lemma TrendingRanked(reviews: seq<Review>, since: Time, top: seq<Stat<MovieId>>, r: seq<MovieId>)
    requires CountsExact(top, RecentStream(reviews, since)) && r == KeysOf(top)
    requires CountsRanked(top, RecentStream(reviews, since))
    ensures forall i, j :: 0 <= i < j < |r| ==> RecentCount(reviews, since, r[i]) >= RecentCount(reviews, since, r[j])
    ensures forall i, j :: 0 <= i < j < |r| && RecentCount(reviews, since, r[i]) == RecentCount(reviews, since, r[j]) ==>
      r[i] in StreamKeys(RecentStream(reviews, since)) && r[j] in StreamKeys(RecentStream(reviews, since)) &&
      FirstIndex(RecentStream(reviews, since), r[i]) < FirstIndex(RecentStream(reviews, since), r[j])
  {
    TrendingExact(reviews, since, top, r);
  }

  lemma TrendingLeftOut(reviews: seq<Review>, since: Time, top: seq<Stat<MovieId>>, r: seq<MovieId>)
    requires CountsExact(top, RecentStream(reviews, since)) && r == KeysOf(top) && |top| <= 10
    requires CountsTop(top, RecentStream(reviews, since), 10)
    ensures forall id, i :: id !in r && 0 <= i < |r| ==> RecentCount(reviews, since, id) <= RecentCount(reviews, since, r[i])
    ensures |r| < 10 ==> forall id :: RecentCount(reviews, since, id) >= 1 ==> id in r
  {
    var stream := RecentStream(reviews, since);
    TrendingExact(reviews, since, top, r);
    forall id, i | id !in r && 0 <= i < |r| ensures RecentCount(reviews, since, id) <= RecentCount(reviews, since, r[i]) {
      RecentCounted(reviews, since, id);
      assert KeyMissing(top, id) by {
        forall j | 0 <= j < |top| ensures top[j].key != id {
          assert r[j] == top[j].key;
        }
      }
      if id !in StreamKeys(stream) {
        AbsentKey(stream, id);
      }
    }
    if |r| < 10 {
      forall id | RecentCount(reviews, since, id) >= 1 ensures id in r {
        RecentSighted(reviews, since, id);
        assert !KeyMissing(top, id);
        var j :| 0 <= j < |top| && top[j].key == id;
        assert r[j] == id;
      }
    }
  }

  /** `GET /api/recommendations/trending` for a request made at `now`. */
  function Trending(s: Store, now: Time): (r: seq<Movie>)
    ensures |r| <= 10
    ensures forall i :: 0 <= i < |r| ==> r[i] in s.movies && r[i].isActive && RecentCount(s.reviews, Since(now), r[i].id) >= 1
    ensures forall i, j :: 0 <= i < j < |r| ==> r[i].id != r[j].id
    ensures forall i, j :: 0 <= i < j < |r| ==> RecentCount(s.reviews, Since(now), r[i].id) >= RecentCount(s.reviews, Since(now), r[j].id)
    ensures forall i, j :: 0 <= i < j < |r| && RecentCount(s.reviews, Since(now), r[i].id) == RecentCount(s.reviews, Since(now), r[j].id) ==>
      r[i].id in StreamKeys(RecentStream(s.reviews, Since(now))) && r[j].id in StreamKeys(RecentStream(s.reviews, Since(now))) &&
      FirstIndex(RecentStream(s.reviews, Since(now)), r[i].id) < FirstIndex(RecentStream(s.reviews, Since(now)), r[j].id)
    // an active movie left off has no more recent reviews than any listed one
    ensures forall k, i :: 0 <= k < |s.movies| && s.movies[k].isActive && s.movies[k].id !in MovieIds(r) && 0 <= i < |r| ==>
      RecentCount(s.reviews, Since(now), s.movies[k].id) <= RecentCount(s.reviews, Since(now), r[i].id)
    // fewer than ten movies reviewed lately: every active one of them is listed
    ensures |TrendingIds(s.reviews, Since(now))| < 10 ==>
      forall k :: 0 <= k < |s.movies| && s.movies[k].isActive && RecentCount(s.reviews, Since(now), s.movies[k].id) >= 1 ==>
        s.movies[k].id in MovieIds(r)
    // the top ten ids, resolved in order; ids without an active movie are dropped, not refilled
    ensures Resolves(s.movies, TrendingIds(s.reviews, Since(now)), r)
  {
    TrendingFacts(s, now, Resolve(s.movies, TrendingIds(s.reviews, Since(now))));
    Resolve(s.movies, TrendingIds(s.reviews, Since(now)))
  }

  lemma TrendingFacts(s: Store, now: Time, r: seq<Movie>)
    requires r == Resolve(s.movies, TrendingIds(s.reviews, Since(now)))
    ensures |r| <= 10
    ensures forall i :: 0 <= i < |r| ==> r[i] in s.movies && r[i].isActive && RecentCount(s.reviews, Since(now), r[i].id) >= 1
    ensures forall i, j :: 0 <= i < j < |r| ==> r[i].id != r[j].id
    ensures forall i, j :: 0 <= i < j < |r| ==> RecentCount(s.reviews, Since(now), r[i].id) >= RecentCount(s.reviews, Since(now), r[j].id)
    ensures forall i, j :: 0 <= i < j < |r| && RecentCount(s.reviews, Since(now), r[i].id) == RecentCount(s.reviews, Since(now), r[j].id) ==>
      r[i].id in StreamKeys(RecentStream(s.reviews, Since(now))) && r[j].id in StreamKeys(RecentStream(s.reviews, Since(now))) &&
      FirstIndex(RecentStream(s.reviews, Since(now)), r[i].id) < FirstIndex(RecentStream(s.reviews, Since(now)), r[j].id)
    // an active movie left off has no more recent reviews than any listed one
    ensures forall k, i :: 0 <= k < |s.movies| && s.movies[k].isActive && s.movies[k].id !in MovieIds(r) && 0 <= i < |r| ==>
      RecentCount(s.reviews, Since(now), s.movies[k].id) <= RecentCount(s.reviews, Since(now), r[i].id)
    // fewer than ten movies reviewed lately: every active one of them is listed
    ensures |TrendingIds(s.reviews, Since(now))| < 10 ==>
      forall k :: 0 <= k < |s.movies| && s.movies[k].isActive && RecentCount(s.reviews, Since(now), s.movies[k].id) >= 1 ==>
        s.movies[k].id in MovieIds(r)
  {
    var ids := TrendingIds(s.reviews, Since(now));
    TrendingIdsRanked(s.reviews, Since(now));
    TrendingOrder(s.movies, s.reviews, Since(now), ids, r);
    TrendingTop(s.movies, s.reviews, Since(now), ids, r);
  }

  lemma TrendingIdsRanked(reviews: seq<Review>, since: Time)
    ensures RankedIds(reviews, since, TrendingIds(reviews, since))
  {
  }

  /** The facts about a trending id list that order the resolved movies: every id has
      a recent review, no id repeats, counts never increase, and ties keep first-sighting
      order. */
  ghost predicate RankedIds(reviews: seq<Review>, since: Time, ids: seq<MovieId>) {
    && NoDup(ids)
    && (forall i :: 0 <= i < |ids| ==> RecentCount(reviews, since, ids[i]) >= 1)
    && (forall i, j :: 0 <= i < j < |ids| ==> RecentCount(reviews, since, ids[i]) >= RecentCount(reviews, since, ids[j]))
    && (forall i, j :: 0 <= i < j < |ids| && RecentCount(reviews, since, ids[i]) == RecentCount(reviews, since, ids[j]) ==>
          ids[i] in StreamKeys(RecentStream(reviews, since)) && ids[j] in StreamKeys(RecentStream(reviews, since)) &&
          FirstIndex(RecentStream(reviews, since), ids[i]) < FirstIndex(RecentStream(reviews, since), ids[j]))
  }

  lemma TrendingOrder(movies: seq<Movie>, reviews: seq<Review>, since: Time, ids: seq<MovieId>, r: seq<Movie>)
    requires RankedIds(reviews, since, ids) && |ids| <= 10 && Resolves(movies, ids, r)
    ensures |r| <= 10
    ensures forall i :: 0 <= i < |r| ==> RecentCount(reviews, since, r[i].id) >= 1
    ensures forall i, j :: 0 <= i < j < |r| ==> r[i].id != r[j].id
    ensures forall i, j :: 0 <= i < j < |r| ==> RecentCount(reviews, since, r[i].id) >= RecentCount(reviews, since, r[j].id)
    ensures forall i, j :: 0 <= i < j < |r| && RecentCount(reviews, since, r[i].id) == RecentCount(reviews, since, r[j].id) ==>
      r[i].id in StreamKeys(RecentStream(reviews, since)) && r[j].id in StreamKeys(RecentStream(reviews, since)) &&
      FirstIndex(RecentStream(reviews, since), r[i].id) < FirstIndex(RecentStream(reviews, since), r[j].id)
  {
    forall i | 0 <= i < |r| ensures RecentCount(reviews, since, r[i].id) >= 1 {
      var a :| 0 <= a < |ids| && ids[a] == r[i].id;
    }
    forall i, j | 0 <= i < j < |r|
      ensures r[i].id != r[j].id
      ensures RecentCount(reviews, since, r[i].id) >= RecentCount(reviews, since, r[j].id)
      ensures RecentCount(reviews, since, r[i].id) == RecentCount(reviews, since, r[j].id) ==>
        r[i].id in StreamKeys(RecentStream(reviews, since)) && r[j].id in StreamKeys(RecentStream(reviews, since)) &&
        FirstIndex(RecentStream(reviews, since), r[i].id) < FirstIndex(RecentStream(reviews, since), r[j].id)
    {
      TrendingPair(reviews, since, ids, r[i].id, r[j].id);
    }
  }

  /** Two trending ids in list order: distinct, and ranked by recent review count, then
      by first sighting. */
  lemma TrendingPair(reviews: seq<Review>, since: Time, ids: seq<MovieId>, x: MovieId, y: MovieId)
    requires RankedIds(reviews, since, ids) && Precedes(ids, x, y)
    ensures x != y && RecentCount(reviews, since, x) >= RecentCount(reviews, since, y)
    ensures RecentCount(reviews, since, x) == RecentCount(reviews, since, y) ==>
      x in StreamKeys(RecentStream(reviews, since)) && y in StreamKeys(RecentStream(reviews, since)) &&
      FirstIndex(RecentStream(reviews, since), x) < FirstIndex(RecentStream(reviews, since), y)
  {
    var a, b :| 0 <= a < b < |ids| && ids[a] == x && ids[b] == y;
  }

  lemma TrendingTop(movies: seq<Movie>, reviews: seq<Review>, since: Time, ids: seq<MovieId>, r: seq<Movie>)
    requires ids == TrendingIds(reviews, since) && r == Resolve(movies, ids)
    ensures forall k, i :: 0 <= k < |movies| && movies[k].isActive && movies[k].id !in MovieIds(r) && 0 <= i < |r| ==>
      RecentCount(reviews, since, movies[k].id) <= RecentCount(reviews, since, r[i].id)
    ensures |ids| < 10 ==>
      forall k :: 0 <= k < |movies| && movies[k].isActive && RecentCount(reviews, since, movies[k].id) >= 1 ==>
        movies[k].id in MovieIds(r)
  {
    forall k, i | 0 <= k < |movies| && movies[k].isActive && movies[k].id !in MovieIds(r) && 0 <= i < |r|
      ensures RecentCount(reviews, since, movies[k].id) <= RecentCount(reviews, since, r[i].id)
    {
      assert movies[k].id !in ids;
    }
  }
}
