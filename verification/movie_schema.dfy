/** The `Movie` schema of server/models/Movie.js: what saving a movie document checks
    and fills in. The admin create route saves the request body through it and answers
    500 when validation fails. */
module MovieSchema {

  import opened Wrappers
  import opened Seqs
  import opened Text
  import opened Domain

  /** A movie document as submitted: every schema path may be absent. Genre entries may
      be absent too (`null` in the array). */
  datatype MovieInput = MovieInput(
    title: Option<string>,
    description: Option<string>,
    director: Option<string>,
    cast: seq<string>,
    genres: seq<Option<string>>,
    releaseDate: Option<Time>,
    duration: Option<int>,
    poster: Option<string>,
    trailer: Option<string>,
    rating: Option<Aggregate>,
    boxOffice: Option<int>,
    movieLanguage: Option<string>,
    country: Option<string>,
    awards: seq<string>,
    isActive: Option<bool>)

  /** `required: true` on a string path: present and not empty. */
  predicate RequiredString(v: Option<string>) {
    v.Some? && v.value != ""
  }

  /** The title after its `trim` setter, which runs before validation. */
  function TrimmedTitle(v: Option<string>): Option<string> {
    match v
    case None => None
    case Some(t) => Some(Trim(t))
  }

  /** `genre: [{ type: String, required: true }]`: every entry a non-empty string; the
      list itself may be empty. */
  predicate GenresValid(gs: seq<Option<string>>) {
    forall i :: 0 <= i < |gs| ==> RequiredString(gs[i])
  }

  /** `rating.average` lies in `min: 0, max: 5` (0..50 in tenths). */
  predicate RatingValid(a: Option<Aggregate>) {
    a.None? || 0 <= a.value.average <= 50
  }

  /** All the validators of the schema pass. */
  predicate Valid(m: MovieInput) {
    && RequiredString(TrimmedTitle(m.title))
    && RequiredString(m.description)
    && RequiredString(m.director)
    && GenresValid(m.genres)
    && m.releaseDate.Some?
    && m.duration.Some?
    && RequiredString(m.poster)
    && RatingValid(m.rating)
  }

  function Present(gs: seq<Option<string>>): (r: seq<string>)
    requires GenresValid(gs)
    ensures |r| == |gs| && forall i :: 0 <= i < |gs| ==> Some(r[i]) == gs[i] && r[i] != ""
  {
    seq(|gs|, i requires 0 <= i < |gs| => gs[i].value)
  }

  /** `new Movie(body).save()`: the stored movie with the trimmed title and the schema
      defaults (empty trailer, 0/0 rating, no box office, active), or a 500 when a
      validator fails. */
  function SaveMovie(m: MovieInput, id: MovieId): (r: Result<Movie, Error>)
    ensures r.Success? <==> Valid(m)
    ensures r.Failure? ==> r.error == ServerError
    ensures r.Success? ==> r.value.id == id && Stored(r.value)
    ensures r.Success? ==> Some(r.value.title) == TrimmedTitle(m.title) && r.value.genres == Present(m.genres)
    ensures r.Success? ==>
      && (m.trailer.None? ==> r.value.trailer == "")
      && (m.rating.None? ==> r.value.rating == Aggregate(0, 0))
      && (m.boxOffice.None? ==> r.value.boxOffice == 0)
      && (m.isActive.None? ==> r.value.isActive)
  {
    if !Valid(m) then Failure(ServerError)
    else
      BuiltIsStored(m, id);
      Success(Build(m, id))
  }

  /** The document a valid input is saved as: the trimmed title, the genre strings and
      the schema defaults for absent paths. */
  function Build(m: MovieInput, id: MovieId): Movie
    requires Valid(m)
  {
    Movie(
      id, Trim(m.title.value), m.description.value, m.director.value, m.cast, Present(m.genres),
      m.releaseDate.value, m.duration.value, m.poster.value, OrElse(m.trailer, ""),
      OrElse(m.rating, Aggregate(0, 0)), OrElse(m.boxOffice, 0), m.movieLanguage, m.country,
      m.awards, OrElse(m.isActive, true))
  }

  lemma BuiltIsStored(m: MovieInput, id: MovieId)
    requires Valid(m)
    ensures Stored(Build(m, id))
  {
    TrimIdempotent(m.title.value);
  }

  /** What every stored movie satisfies: a non-empty title without surrounding white
      space, the other required strings non-empty, genre entries non-empty, and the
      average within [0, 5] stars. */
  ghost predicate Stored(m: Movie) {
    && m.title != "" && Trim(m.title) == m.title
    && m.description != "" && m.director != "" && m.poster != ""
    && (forall i :: 0 <= i < |m.genres| ==> m.genres[i] != "")
    && 0 <= m.rating.average <= 50
  }

  /** A stored movie as a document with every path given. */
  function InputOf(m: Movie): (r: MovieInput)
    ensures r.title == Some(m.title) && |r.genres| == |m.genres|
    ensures forall i :: 0 <= i < |m.genres| ==> r.genres[i] == Some(m.genres[i])
  {
    MovieInput(
      Some(m.title), Some(m.description), Some(m.director), m.cast,
      seq(|m.genres|, i requires 0 <= i < |m.genres| => Some(m.genres[i])),
      Some(m.releaseDate), Some(m.duration), Some(m.poster), Some(m.trailer), Some(m.rating),
      Some(m.boxOffice), m.movieLanguage, m.country, m.awards, Some(m.isActive))
  }

  /** A stored movie's own fields pass every validator. */
  lemma InputOfValid(m: Movie)
    requires Stored(m)
    ensures Valid(InputOf(m)) && Present(InputOf(m).genres) == m.genres
  {
    var inp := InputOf(m);
    assert RequiredString(TrimmedTitle(inp.title));
    InputGenres(m.genres, inp.genres);
    assert RequiredString(inp.description) && RequiredString(inp.director) && RequiredString(inp.poster);
    assert RatingValid(inp.rating);
  }

  lemma InputGenres(gs: seq<string>, given: seq<Option<string>>)
    requires |given| == |gs| && forall i :: 0 <= i < |gs| ==> given[i] == Some(gs[i]) && gs[i] != ""
    ensures GenresValid(given) && Present(given) == gs
  {
  }

  /** Saving a stored movie's own fields gives the same movie back. */
  lemma SaveRoundTrip(m: Movie)
    requires Stored(m)
    ensures SaveMovie(InputOf(m), m.id) == Success(m)
  {
    InputOfValid(m);
    var r := SaveMovie(InputOf(m), m.id);
    assert r.value.title == m.title;
  }

  /** A movie created with the required paths only starts unrated and active. */
  lemma NewMovieDefaults(title: string, description: string, director: string, releaseDate: Time, duration: int, poster: string, id: MovieId)
    requires Trim(title) != "" && description != "" && director != "" && poster != ""
    ensures var r := SaveMovie(MovieInput(Some(title), Some(description), Some(director), [], [], Some(releaseDate),
                                          Some(duration), Some(poster), None, None, None, None, None, [], None), id);
      && r.Success?
      && r.value.rating == Aggregate(0, 0) && r.value.isActive && r.value.trailer == "" && r.value.boxOffice == 0
      && r.value.title == Trim(title)
  {
  }
}
