/** The genre preference profile of the for-you route (server/routes/recommendations.js):
    every review of the user adds its rating to each genre of the reviewed movie, the
    genres are ranked by mean rating, and the first three are kept. */
module Profile {

  import opened Wrappers
  import opened Seqs
  import opened Sorting
  import opened Tallies
  import opened Domain

  /** An entry of `basedOn`: a genre and the mean rating the user gave it. */
  datatype GenreScore = GenreScore(genre: string, avgRating: real)

  /** What one review adds to the tally: its rating once per genre of its movie, or
      nothing when the movie no longer exists (`populate` yields null). */
  function Sightings(movies: seq<Movie>, r: Review): (out: seq<(string, int)>)
    ensures FindMovie(movies, r.movie).None? ==> out == []
    ensures FindMovie(movies, r.movie).Some? ==>
      var gs := FindMovie(movies, r.movie).value.genres;
      |out| == |gs| && forall i :: 0 <= i < |gs| ==> out[i] == (gs[i], r.rating)
  {
    match FindMovie(movies, r.movie)
    case None => []
    case Some(m) => seq(|m.genres|, i requires 0 <= i < |m.genres| => (m.genres[i], r.rating))
  }

  /** The sightings of the reviews in order: the nested `forEach` loops. */
  function GenreStream(movies: seq<Movie>, reviews: seq<Review>): seq<(string, int)>
    decreases |reviews|
  {
    if reviews == [] then []
    else
      var n := |reviews| - 1;
      GenreStream(movies, reviews[..n]) + Sightings(movies, reviews[n])
  }

  /** A sighting comes from a review whose movie exists and carries the genre. */
  ghost predicate FromReview(movies: seq<Movie>, r: Review, p: (string, int)) {
    FindMovie(movies, r.movie).Some? && p.0 in FindMovie(movies, r.movie).value.genres && p.1 == r.rating
  }

  /** Every sighting in the stream comes from one of the reviews. */
  lemma GenreStreamSound(movies: seq<Movie>, reviews: seq<Review>)
    ensures forall p :: p in GenreStream(movies, reviews) ==>
      exists j :: 0 <= j < |reviews| && FromReview(movies, reviews[j], p)
  {
    forall p | p in GenreStream(movies, reviews)
      ensures exists j :: 0 <= j < |reviews| && FromReview(movies, reviews[j], p)
    {
      SightingSource(movies, reviews, p);
    }
  }

  lemma {:induction false} SightingSource(movies: seq<Movie>, reviews: seq<Review>, p: (string, int))
    requires p in GenreStream(movies, reviews)
    ensures exists j :: 0 <= j < |reviews| && FromReview(movies, reviews[j], p)
    decreases |reviews|
  {
    var n := |reviews| - 1;
    var front := reviews[..n];
    assert GenreStream(movies, reviews) == GenreStream(movies, front) + Sightings(movies, reviews[n]);
    if p in GenreStream(movies, front) {
      SightingSource(movies, front, p);
      var j :| 0 <= j < |front| && FromReview(movies, front[j], p);
      assert reviews[j] == front[j];
    } else {
      SightingFrom(movies, reviews[n], p);
    }
  }

  /** A sighting of one review is of a genre of its movie, with its rating. */
  lemma SightingFrom(movies: seq<Movie>, r: Review, p: (string, int))
    requires p in Sightings(movies, r)
    ensures FromReview(movies, r, p)
  {
    var out := Sightings(movies, r);
    var i :| 0 <= i < |out| && out[i] == p;
  }

  /** Every genre of every reviewed, existing movie is sighted with the review's rating. */
  lemma {:induction false} GenreStreamComplete(movies: seq<Movie>, reviews: seq<Review>, j: nat, g: string)
    requires j < |reviews| && FindMovie(movies, reviews[j].movie).Some?
    requires g in FindMovie(movies, reviews[j].movie).value.genres
    ensures (g, reviews[j].rating) in GenreStream(movies, reviews)
    decreases |reviews|
  {
    var n := |reviews| - 1;
    var front := reviews[..n];
    var x := reviews[j];
    var sighted := (g, x.rating);
    assert GenreStream(movies, reviews) == GenreStream(movies, front) + Sightings(movies, reviews[n]);
    if j < n {
      assert front[j] == x;
      GenreStreamComplete(movies, front, j, g);
      assert sighted in GenreStream(movies, front);
    } else {
      assert j == n;
      SightingOf(movies, reviews[n], g);
    }
  }

  /** A review of an existing movie sights each of the movie's genres with its rating. */
  lemma SightingOf(movies: seq<Movie>, r: Review, g: string)
    requires FindMovie(movies, r.movie).Some? && g in FindMovie(movies, r.movie).value.genres
    ensures (g, r.rating) in Sightings(movies, r)
  {
    var gs := FindMovie(movies, r.movie).value.genres;
    var i :| 0 <= i < |gs| && gs[i] == g;
    assert Sightings(movies, r)[i] == (g, r.rating);
  }

  /** The mean of the weights sighted for `g`, by the reference definitions. */
  function MeanOf(stream: seq<(string, int)>, g: string): real {
    if Occurrences(stream, g) == 0 then 0.0 else WeightOf(stream, g) as real / Occurrences(stream, g) as real
  }

  function Score(s: Stat<string>): GenreScore {
    GenreScore(s.key, Mean(s))
  }

  /** No score in `r` is for genre `g`. */
  ghost predicate Unlisted(r: seq<GenreScore>, g: string) {
    forall j :: 0 <= j < |r| ==> r[j].genre != g
  }

  /** The three best-rated genres of a stream: `Object.entries(..).map(mean)
      .sort(by mean desc).slice(0, 3)`. */
  function TopGenres(stream: seq<(string, int)>): (r: seq<GenreScore>)
    ensures |r| <= 3
    ensures forall i :: 0 <= i < |r| ==>
      r[i].genre in StreamKeys(stream) && Occurrences(stream, r[i].genre) >= 1 && r[i].avgRating == MeanOf(stream, r[i].genre)
    ensures forall i, j :: 0 <= i < j < |r| ==> r[i].genre != r[j].genre
    ensures forall i, j :: 0 <= i < j < |r| ==> r[i].avgRating >= r[j].avgRating
    // equal means keep the order in which the genres were first seen
    ensures forall i, j :: 0 <= i < j < |r| && r[i].avgRating == r[j].avgRating ==>
      r[i].genre in StreamKeys(stream) && r[j].genre in StreamKeys(stream) &&
      FirstIndex(stream, r[i].genre) < FirstIndex(stream, r[j].genre)
    // no genre left out has a higher mean than one kept
    ensures forall g, i :: g in StreamKeys(stream) && Unlisted(r, g) && 0 <= i < |r| ==> MeanOf(stream, g) <= r[i].avgRating
    ensures |r| < 3 ==> forall g :: g in StreamKeys(stream) ==> !Unlisted(r, g)
    ensures r == [] <==> stream == []
  {
    TopGenresFacts(stream);
    Scores(Take(Sort(MeanAbove, Tally(stream)), 3))
  }

  function Scores(top: seq<Stat<string>>): (r: seq<GenreScore>)
    ensures |r| == |top| && forall i :: 0 <= i < |top| ==> r[i] == Score(top[i])
  {
    seq(|top|, i requires 0 <= i < |top| => Score(top[i]))
  }

  /** Each score is the exact mean of a sighted genre, and no genre is scored twice. */
  ghost predicate ScoresExact(r: seq<GenreScore>, stream: seq<(string, int)>) {
    && (forall i :: 0 <= i < |r| ==>
          r[i].genre in StreamKeys(stream) && Occurrences(stream, r[i].genre) >= 1 && r[i].avgRating == MeanOf(stream, r[i].genre))
    && (forall i, j :: 0 <= i < j < |r| ==> r[i].genre != r[j].genre)
  }

  /** Means never increase along the list, and equal means keep first-sighting order. */
  ghost predicate ScoresRanked(r: seq<GenreScore>, stream: seq<(string, int)>) {
    && (forall i, j :: 0 <= i < j < |r| ==> r[i].avgRating >= r[j].avgRating)
    && (forall i, j :: 0 <= i < j < |r| && r[i].avgRating == r[j].avgRating ==>
          r[i].genre in StreamKeys(stream) && r[j].genre in StreamKeys(stream) &&
          FirstIndex(stream, r[i].genre) < FirstIndex(stream, r[j].genre))
  }

  /** No genre left out beats a kept one, and a short list left nothing out. */
  ghost predicate ScoresTop(r: seq<GenreScore>, stream: seq<(string, int)>, n: nat) {
    && (forall g, i :: g in StreamKeys(stream) && Unlisted(r, g) && 0 <= i < |r| ==> MeanOf(stream, g) <= r[i].avgRating)
    && (|r| < n ==> forall g :: g in StreamKeys(stream) ==> !Unlisted(r, g))
    && (r == [] <==> stream == [])
  }

  lemma TopGenresFacts(stream: seq<(string, int)>)
    ensures ScoresExact(Scores(Take(Sort(MeanAbove, Tally(stream)), 3)), stream)
    ensures ScoresRanked(Scores(Take(Sort(MeanAbove, Tally(stream)), 3)), stream)
    ensures ScoresTop(Scores(Take(Sort(MeanAbove, Tally(stream)), 3)), stream, 3)
  {
    TallyAccurate(stream);
    MeanAboveOrder<string>();
    ScoresExactOf(Tally(stream), stream);
    ScoresRankedOf(Tally(stream), stream, Take(Sort(MeanAbove, Tally(stream)), 3));
    ScoresTopOf(Tally(stream), stream, Take(Sort(MeanAbove, Tally(stream)), 3));
  }

  lemma ScoresExactOf(t: seq<Stat<string>>, stream: seq<(string, int)>)
    requires Accurate(t, stream)
    ensures ScoresExact(Scores(Take(Sort(MeanAbove, t), 3)), stream)
  {
    var top := Take(Sort(MeanAbove, t), 3);
    var r := Scores(top);
    RankedEntries(MeanAbove, t, stream, 3, top);
    forall i | 0 <= i < |r|
      ensures r[i].genre in StreamKeys(stream) && Occurrences(stream, r[i].genre) >= 1
      ensures r[i].avgRating == MeanOf(stream, r[i].genre)
    {
      assert r[i] == Score(top[i]);
    }
    forall i, j | 0 <= i < j < |r| ensures r[i].genre != r[j].genre {
      assert r[i].genre == top[i].key && r[j].genre == top[j].key;
    }
  }

  lemma ScoresRankedOf(t: seq<Stat<string>>, stream: seq<(string, int)>, top: seq<Stat<string>>)
    requires Accurate(t, stream) && StrictWeakOrder(MeanAbove<string>)
    requires top == Take(Sort(MeanAbove, t), 3)
    ensures ScoresRanked(Scores(top), stream)
  {
    RankedSorted(MeanAbove, t, 3, top);
    RankedFirstSeen(MeanAbove, t, stream, 3, top);
    RankedRanks(MeanAbove, t, stream, 3, top);
    ScoresDescending(top, Scores(top));
    ScoresTieOrder(top, Scores(top), stream);
  }

  lemma ScoresDescending(top: seq<Stat<string>>, r: seq<GenreScore>)
    requires SortedBy(MeanAbove, top) && r == Scores(top)
    ensures forall i, j :: 0 <= i < j < |r| ==> r[i].avgRating >= r[j].avgRating
  {
    forall i, j | 0 <= i < j < |r| ensures r[i].avgRating >= r[j].avgRating {
      assert !MeanAbove(top[j], top[i]);
    }
  }

  /** Sorted by mean with ties broken by rank, two equal means sit in rank order, which
      is first-sighting order. */
  lemma ScoresTieOrder(top: seq<Stat<string>>, r: seq<GenreScore>, stream: seq<(string, int)>)
    requires SortedBy(MeanAbove, top) && r == Scores(top)
    requires forall i, j :: 0 <= i < |top| && 0 <= j < |top| && top[i].rank < top[j].rank ==>
      top[i].key in StreamKeys(stream) && top[j].key in StreamKeys(stream) &&
      FirstIndex(stream, top[i].key) < FirstIndex(stream, top[j].key)
    requires forall i, j :: 0 <= i < j < |top| ==> top[i].rank != top[j].rank
    ensures forall i, j :: 0 <= i < j < |r| && r[i].avgRating == r[j].avgRating ==>
      r[i].genre in StreamKeys(stream) && r[j].genre in StreamKeys(stream) &&
      FirstIndex(stream, r[i].genre) < FirstIndex(stream, r[j].genre)
  {
    forall i, j | 0 <= i < j < |r| && r[i].avgRating == r[j].avgRating
      ensures r[i].genre in StreamKeys(stream) && r[j].genre in StreamKeys(stream)
      ensures FirstIndex(stream, r[i].genre) < FirstIndex(stream, r[j].genre)
    {
      assert Mean(top[i]) == Mean(top[j]) && !MeanAbove(top[j], top[i]);
      assert top[i].rank < top[j].rank;
    }
  }

  lemma ScoresTopOf(t: seq<Stat<string>>, stream: seq<(string, int)>, top: seq<Stat<string>>)
    requires Accurate(t, stream) && StrictWeakOrder(MeanAbove<string>)
    requires top == Take(Sort(MeanAbove, t), 3)
    requires stream == [] ==> t == []
    ensures ScoresTop(Scores(top), stream, 3)
  {
    ScoresLeftOut(t, stream, top, Scores(top));
    ScoresShort(t, stream, top, Scores(top));
  }

  lemma ScoresLeftOut(t: seq<Stat<string>>, stream: seq<(string, int)>, top: seq<Stat<string>>, r: seq<GenreScore>)
    requires Accurate(t, stream) && StrictWeakOrder(MeanAbove<string>)
    requires top == Take(Sort(MeanAbove, t), 3) && r == Scores(top)
    ensures forall g, i :: g in StreamKeys(stream) && Unlisted(r, g) && 0 <= i < |r| ==> MeanOf(stream, g) <= r[i].avgRating
  {
    RankedLeftOut(MeanAbove, t, stream, 3, top);
    forall g, i | g in StreamKeys(stream) && Unlisted(r, g) && 0 <= i < |r|
      ensures MeanOf(stream, g) <= r[i].avgRating
    {
      UnlistedMissing(top, g);
      LeftOutMean(t, stream, g, top[i]);
    }
  }

  /** A list shorter than three scores every sighted genre, so it is empty exactly when
      nothing was sighted. */
  lemma ScoresShort(t: seq<Stat<string>>, stream: seq<(string, int)>, top: seq<Stat<string>>, r: seq<GenreScore>)
    requires Accurate(t, stream)
    requires stream == [] ==> t == []
    requires top == Take(Sort(MeanAbove, t), 3) && r == Scores(top)
    ensures |r| < 3 ==> forall g :: g in StreamKeys(stream) ==> !Unlisted(r, g)
    ensures r == [] <==> stream == []
  {
    RankedShort(MeanAbove, t, stream, 3, top);
    if |r| < 3 {
      forall g | g in StreamKeys(stream) ensures !Unlisted(r, g) {
        assert !KeyMissing(top, g);
        var j :| 0 <= j < |top| && top[j].key == g;
        assert r[j].genre == g;
      }
    }
    if stream != [] {
      assert stream[0].0 in StreamKeys(stream);
    }
  }

  lemma UnlistedMissing(top: seq<Stat<string>>, g: string)
    requires Unlisted(Scores(top), g)
    ensures KeyMissing(top, g)
  {
    var r := Scores(top);
    forall j | 0 <= j < |top| ensures top[j].key != g {
      assert r[j].genre == top[j].key;
    }
  }

  /** An entry of an accurate tally that does not rank before `kept` has a mean no
      higher than it. */
  lemma LeftOutMean(t: seq<Stat<string>>, stream: seq<(string, int)>, g: string, kept: Stat<string>)
    requires Accurate(t, stream)
    requires exists s :: s in t && s.key == g && !MeanAbove(s, kept)
    ensures MeanOf(stream, g) <= Mean(kept)
  {
    var s: Stat<string> :| s in t && s.key == g && !MeanAbove(s, kept);
    var a :| 0 <= a < |t| && t[a] == s;
    assert s.count == Occurrences(stream, g) && s.total == WeightOf(stream, g);
  }
}
