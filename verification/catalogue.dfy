/** The catalogue routes of server/routes/movies.js: the filtered, sorted and paged
    listing, a movie with its reviews, the admin soft delete, and the popular ranking. */
module Catalogue {

  import opened Wrappers
  import opened Seqs
  import opened Sorting
  import opened Text
  import opened Domain
  import opened Aggregation
  import opened Orders
  import opened Reviews

  // ---- Listing: GET /api/movies ----

  /** The query string of the listing. An absent `search` or `genre` is the empty string
      (both are falsy to the route); the other four are absent until given. */
  datatype ListParams = ListParams(
    search: string,
    genre: string,
    sortBy: Option<string>,
    sortOrder: Option<string>,
    page: Option<int>,
    limit: Option<nat>)

  /** `totalPages` is `Math.ceil(total / limit)`, which is not a finite number when the
      limit is 0; JSON carries it as `null`, here `None`. */
  datatype ListResponse = ListResponse(movies: seq<Movie>, totalPages: Option<nat>, currentPage: int, total: nat)

  /** The query `{ isActive: true, title: { $regex: search, $options: 'i' }, genre: { $in: [genre] } }`,
      the title and genre parts present only for a non-empty search and a genre other
      than `all`. */
  function Listed(search: string, genre: string): Movie -> bool {
    (m: Movie) =>
      && m.isActive
      && (search == "" || ContainsIgnoringCase(m.title, search))
      && (genre == "" || genre == "all" || genre in m.genres)
  }

  /** The field a `sortBy` value selects; any other value sorts by nothing. */
  datatype SortField = ByRating | ByReleaseDate | ByTitle | Unordered

  function FieldOf(sortBy: string): SortField {
    if sortBy == "rating" then ByRating
    else if sortBy == "releaseDate" then ByReleaseDate
    else if sortBy == "title" then ByTitle
    else Unordered
  }

  /** Strict "comes before" on strings by character code, as the store compares them. */
  predicate LexBefore(a: string, b: string)
    decreases |a|
  {
    if a == [] then b != []
    else if b == [] then false
    else if a[0] != b[0] then a[0] < b[0]
    else LexBefore(a[1..], b[1..])
  }

  lemma {:induction false} LexAsymmetric(a: string, b: string)
    ensures LexBefore(a, b) ==> !LexBefore(b, a)
    decreases |a|
  {
    if a != [] && b != [] && a[0] == b[0] {
      LexAsymmetric(a[1..], b[1..]);
    }
  }

  lemma {:induction false} LexNegTransitive(a: string, b: string, c: string)
    ensures LexBefore(a, c) ==> LexBefore(a, b) || LexBefore(b, c)
    decreases |a|
  {
    if a != [] && b != [] && c != [] && a[0] == b[0] && b[0] == c[0] {
      LexNegTransitive(a[1..], b[1..], c[1..]);
    }
  }

  /** Ascending order on each sort field: `{ field: 1 }`. */
  function Ascending(f: SortField): (Movie, Movie) -> bool {
    match f
    case ByRating => (a: Movie, b: Movie) => a.rating.average < b.rating.average
    case ByReleaseDate => (a: Movie, b: Movie) => a.releaseDate < b.releaseDate
    case ByTitle => (a: Movie, b: Movie) => LexBefore(a.title, b.title)
    case Unordered => (a: Movie, b: Movie) => false
  }

  /** `sortOrder === 'desc' ? -1 : 1`. */
  function Ordering(f: SortField, desc: bool): (Movie, Movie) -> bool {
    if desc then Flip(Ascending(f)) else Ascending(f)
  }

  lemma OrderingIsStrictWeak(f: SortField, desc: bool)
    ensures StrictWeakOrder(Ordering(f, desc))
  {
    var lt := Ascending(f);
    if f == ByTitle {
      forall a, b ensures lt(a, b) ==> !lt(b, a) {
        LexAsymmetric(a.title, b.title);
      }
      forall a, b, c ensures lt(a, c) ==> lt(a, b) || lt(b, c) {
        LexNegTransitive(a.title, b.title, c.title);
      }
    }
    assert StrictWeakOrder(lt);
    if desc {
      FlipStrictWeakOrder(lt);
    }
  }

  /** The matches in the order the route asks for: sorted by the chosen field and
      direction, and in store order when no known field is chosen. */
  function Arranged(movies: seq<Movie>, p: ListParams): (r: seq<Movie>)
    ensures multiset(r) == multiset(Filter(Listed(p.search, p.genre), movies))
    ensures FieldOf(OrElse(p.sortBy, "releaseDate")) != Unordered ==>
      SortedBy(Ordering(FieldOf(OrElse(p.sortBy, "releaseDate")), OrElse(p.sortOrder, "desc") == "desc"), r)
  {
    var f := FieldOf(OrElse(p.sortBy, "releaseDate"));
    var matches := Filter(Listed(p.search, p.genre), movies);
    if f == Unordered then matches
    else
      OrderingIsStrictWeak(f, OrElse(p.sortOrder, "desc") == "desc");
      SortSorted(Ordering(f, OrElse(p.sortOrder, "desc") == "desc"), matches);
      Sort(Ordering(f, OrElse(p.sortOrder, "desc") == "desc"), matches)
  }

  /** `.skip(from).limit(limit)`: the items from position `from` on, at most `limit` of
      them. A limit of 0 places no limit. */
  function Window<T>(xs: seq<T>, from: nat, limit: nat): (r: seq<T>)
    ensures limit > 0 ==> |r| <= limit
    ensures from <= |xs| ==> from + |r| <= |xs| && r == xs[from..from + |r|] && (|r| == limit || from + |r| == |xs|)
    ensures from >= |xs| ==> r == []
  {
    if from >= |xs| then []
    else if limit == 0 then xs[from..]
    else Take(xs[from..], limit)
  }

  /** `.skip((page - 1) * limit).limit(limit)` on a sorted list, whenever the skip is not
      negative: for `page >= 1`, or for a limit of 0, where the skip is 0. */
  function Page<T>(xs: seq<T>, page: int, limit: nat): (r: seq<T>)
    requires page >= 1 || limit == 0
    ensures limit > 0 ==> |r| <= limit
    ensures var from := (page - 1) * limit;
      from <= |xs| ==> from + |r| <= |xs| && r == xs[from..from + |r|] && (|r| == limit || from + |r| == |xs|)
    ensures (page - 1) * limit >= |xs| ==> r == []
    ensures limit == 0 ==> r == xs
  {
    var from: nat := if limit == 0 then 0 else (page - 1) * limit;
    Window(xs, from, limit)
  }

  /** `Math.ceil(total / limit)` for a positive limit: the fewest pages of `limit` items
      that hold `total`. */
  function CeilDiv(total: nat, limit: nat): (t: nat)
    requires limit > 0
    ensures t * limit >= total
    ensures t == 0 || (t - 1) * limit < total
  {
    (total + limit - 1) / limit
  }

  /** `GET /api/movies`. A page below 1 with a positive limit asks the store for a
      negative skip, which it refuses; the route answers 500. With a limit of 0 the skip
      `(page - 1) * 0` is 0 for every page (a JavaScript `-0` is not negative) and
      `limit(0)` places no limit, so every match comes back. */
  function ListMovies(movies: seq<Movie>, p: ListParams): (r: Result<ListResponse, Error>)
    ensures r.Failure? <==> OrElse(p.page, 1) < 1 && OrElse(p.limit, 12) > 0
    ensures r.Failure? ==> r.error == ServerError
    ensures r.Success? ==>
      && r.value.currentPage == OrElse(p.page, 1)
      && (forall i :: 0 <= i < |r.value.movies| ==> r.value.movies[i] in movies && Listed(p.search, p.genre)(r.value.movies[i]))
      && (OrElse(p.limit, 12) > 0 ==> |r.value.movies| <= OrElse(p.limit, 12))
      && (OrElse(p.limit, 12) == 0 ==> multiset(r.value.movies) == multiset(Filter(Listed(p.search, p.genre), movies)))
      && PageOfSome(movies, p, OrElse(p.page, 1), OrElse(p.limit, 12), r.value.movies)
      && r.value.total == |Filter(Listed(p.search, p.genre), movies)|
      && (OrElse(p.limit, 12) == 0 <==> r.value.totalPages.None?)
      && (r.value.totalPages.Some? ==>
            r.value.totalPages.value * OrElse(p.limit, 12) >= r.value.total
            && (r.value.totalPages.value == 0 || (r.value.totalPages.value - 1) * OrElse(p.limit, 12) < r.value.total))
  {
    var page := OrElse(p.page, 1);
    var limit := OrElse(p.limit, 12);
    if page < 1 && limit > 0 then Failure(ServerError)
    else
      ListingFacts(movies, p, page, limit);
      Success(Listing(movies, p, page, limit))
  }

  /** The response body for a page the store accepts. */
  function Listing(movies: seq<Movie>, p: ListParams, page: int, limit: nat): ListResponse
    requires page >= 1 || limit == 0
  {
    var total := |Filter(Listed(p.search, p.genre), movies)|;
    ListResponse(Page(Arranged(movies, p), page, limit), if limit == 0 then None else Some(CeilDiv(total, limit)), page, total)
  }

  lemma ListingFacts(movies: seq<Movie>, p: ListParams, page: int, limit: nat)
    requires page >= 1 || limit == 0
    ensures var l := Listing(movies, p, page, limit);
      && l.currentPage == page
      && (forall i :: 0 <= i < |l.movies| ==> l.movies[i] in movies && Listed(p.search, p.genre)(l.movies[i]))
      && (limit > 0 ==> |l.movies| <= limit)
      && (limit == 0 ==> multiset(l.movies) == multiset(Filter(Listed(p.search, p.genre), movies)))
      && PageOfSome(movies, p, page, limit, l.movies)
      && l.total == |Filter(Listed(p.search, p.genre), movies)|
      && (limit == 0 <==> l.totalPages.None?)
      && (l.totalPages.Some? ==>
            l.totalPages.value * limit >= l.total
            && (l.totalPages.value == 0 || (l.totalPages.value - 1) * limit < l.total))
  {
    PageMembers(movies, p, page, limit);
    assert Arrangement(movies, p, Arranged(movies, p));
  }

  /** `ys` holds the matches of `p`, each as often as the store does, sorted by the
      requested field when there is one. The store may break ties any way it likes, so
      every such `ys` is a possible answer of the sorted query. */
  ghost predicate Arrangement(movies: seq<Movie>, p: ListParams, ys: seq<Movie>) {
    && multiset(ys) == multiset(Filter(Listed(p.search, p.genre), movies))
    && (FieldOf(OrElse(p.sortBy, "releaseDate")) != Unordered ==>
          SortedBy(Ordering(FieldOf(OrElse(p.sortBy, "releaseDate")), OrElse(p.sortOrder, "desc") == "desc"), ys))
  }

  /** `out` is page `page` of some arrangement of the matches: what `.skip().limit()`
      returns whichever way the store breaks ties. */
  ghost predicate PageOfSome(movies: seq<Movie>, p: ListParams, page: int, limit: nat, out: seq<Movie>) {
    && (page >= 1 || limit == 0)
    && exists ys :: Arrangement(movies, p, ys) && out == Page(ys, page, limit)
  }

  lemma PageMembers(movies: seq<Movie>, p: ListParams, page: int, limit: nat)
    requires page >= 1 || limit == 0
    ensures forall i :: 0 <= i < |Page(Arranged(movies, p), page, limit)| ==>
      Page(Arranged(movies, p), page, limit)[i] in movies && Listed(p.search, p.genre)(Page(Arranged(movies, p), page, limit)[i])
  {
    var all := Arranged(movies, p);
    var r := Page(all, page, limit);
    ArrangedMembers(movies, p);
    PageWithin(all, page, limit);
    forall i | 0 <= i < |r| ensures r[i] in movies && Listed(p.search, p.genre)(r[i]) {
      var j :| 0 <= j < |all| && all[j] == r[i];
    }
  }

  /** A page holds elements of the list it is cut from. */
  lemma PageWithin<T>(xs: seq<T>, page: int, limit: nat)
    requires page >= 1 || limit == 0
    ensures forall i :: 0 <= i < |Page(xs, page, limit)| ==> Page(xs, page, limit)[i] in xs
  {
    var from: nat := if limit == 0 then 0 else (page - 1) * limit;
    assert Page(xs, page, limit) == Window(xs, from, limit);
    WindowWithin(xs, from, limit);
  }

  lemma WindowWithin<T>(xs: seq<T>, from: nat, limit: nat)
    ensures forall i :: 0 <= i < |Window(xs, from, limit)| ==> Window(xs, from, limit)[i] in xs
  {
    var r := Window(xs, from, limit);
    forall i | 0 <= i < |r| ensures r[i] in xs {
      assert r[i] == xs[from + i];
    }
  }

  lemma ArrangedMembers(movies: seq<Movie>, p: ListParams)
    ensures |Arranged(movies, p)| == |Filter(Listed(p.search, p.genre), movies)|
    ensures forall i :: 0 <= i < |Arranged(movies, p)| ==>
      Arranged(movies, p)[i] in movies && Listed(p.search, p.genre)(Arranged(movies, p)[i])
    ensures forall k :: 0 <= k < |movies| && Listed(p.search, p.genre)(movies[k]) ==> movies[k] in Arranged(movies, p)
  {
    var r := Arranged(movies, p);
    var f := Filter(Listed(p.search, p.genre), movies);
    FilterMultiset(Listed(p.search, p.genre), movies);
    assert |r| == |multiset(r)| == |multiset(f)| == |f|;
    forall i | 0 <= i < |r| ensures r[i] in movies && Listed(p.search, p.genre)(r[i]) {
      assert r[i] in multiset(f);
      assert r[i] in multiset(movies);
      assert r[i] in f;
    }
    forall k | 0 <= k < |movies| && Listed(p.search, p.genre)(movies[k]) ensures movies[k] in r {
      assert movies[k] in multiset(f);
    }
  }

  function Min(a: int, b: int): int {
    if a <= b then a else b
  }

  /** Pages 1 to `k` of `xs`, one after the other. */
  function Pages<T>(xs: seq<T>, limit: nat, k: nat): seq<T>
    decreases k
  {
    if k == 0 then [] else Pages(xs, limit, k - 1) + Page(xs, k, limit)
  }

  /** The first `k` pages are the first `k * limit` items. */
  lemma {:induction false} PagesPrefix<T>(xs: seq<T>, limit: nat, k: nat)
    requires limit > 0
    ensures Pages(xs, limit, k) == xs[..Min(k * limit, |xs|)]
    decreases k
  {
    if k > 0 {
      PagesPrefix(xs, limit, k - 1);
      var from := (k - 1) * limit;
      MulStep(k, limit);
      assert Pages(xs, limit, k) == xs[..Min(from, |xs|)] + Window(xs, from, limit);
      WindowExtends(xs, from, limit);
    }
  }

  lemma MulStep(k: nat, limit: nat)
    requires k > 0
    ensures 0 <= (k - 1) * limit && k * limit == (k - 1) * limit + limit
  {
  }

  /** The items before `from` followed by the window at `from` are the items before
      `from + limit`. */
  lemma WindowExtends<T>(xs: seq<T>, from: nat, limit: nat)
    requires limit > 0
    ensures xs[..Min(from, |xs|)] + Window(xs, from, limit) == xs[..Min(from + limit, |xs|)]
  {
    var r := Window(xs, from, limit);
    if from < |xs| {
      assert from + |r| == Min(from + limit, |xs|);
      assert xs[..from + |r|] == xs[..from] + r;
    }
  }

  /** Page `k` is empty exactly when it starts at or past the end of the list. */
  lemma PageEmpty<T>(xs: seq<T>, k: int, limit: nat)
    requires k >= 1 && limit > 0
    ensures Page(xs, k, limit) == [] <==> (k - 1) * limit >= |xs|
  {
  }

  /** Pages 1 to `Math.ceil(|xs| / limit)` give back the whole list, none of them empty,
      and every later page is empty. */
  lemma PagesCover<T>(xs: seq<T>, limit: nat)
    requires limit > 0
    ensures Pages(xs, limit, CeilDiv(|xs|, limit)) == xs
    ensures forall k :: 1 <= k <= CeilDiv(|xs|, limit) ==> Page(xs, k, limit) != []
    ensures forall k :: k > CeilDiv(|xs|, limit) ==> Page(xs, k, limit) == []
  {
    var t := CeilDiv(|xs|, limit);
    PagesWhole(xs, limit, t);
    forall k | 1 <= k <= t ensures Page(xs, k, limit) != [] {
      PageNonEmpty(xs, k, limit, t);
    }
    forall k | k > t ensures Page(xs, k, limit) == [] {
      PageBeyond(xs, k, limit, t);
    }
  }

  lemma PagesWhole<T>(xs: seq<T>, limit: nat, t: nat)
    requires limit > 0 && t == CeilDiv(|xs|, limit)
    ensures Pages(xs, limit, t) == xs
  {
    PagesPrefix(xs, limit, t);
    assert Min(t * limit, |xs|) == |xs|;
    assert xs[..|xs|] == xs;
  }

  lemma PageNonEmpty<T>(xs: seq<T>, k: int, limit: nat, t: nat)
    requires limit > 0 && t == CeilDiv(|xs|, limit) && 1 <= k <= t
    ensures Page(xs, k, limit) != []
  {
    MulMonotone(limit, k - 1, t - 1);
    assert (k - 1) * limit <= (t - 1) * limit < |xs|;
    PageEmpty(xs, k, limit);
  }

  lemma PageBeyond<T>(xs: seq<T>, k: int, limit: nat, t: nat)
    requires limit > 0 && t == CeilDiv(|xs|, limit) && k > t
    ensures Page(xs, k, limit) == []
  {
    MulMonotone(limit, t, k - 1);
    assert (k - 1) * limit >= t * limit >= |xs|;
    PageEmpty(xs, k, limit);
  }

  /** The listing at page `k`, all other parameters as in `p`. */
  function AtPage(p: ListParams, k: int): ListParams {
    p.(page := Some(k))
  }

  lemma ListAtPage(movies: seq<Movie>, p: ListParams, k: int)
    requires k >= 1
    ensures ListMovies(movies, AtPage(p, k)).Success?
    ensures ListMovies(movies, AtPage(p, k)).value.movies == Page(Arranged(movies, p), k, OrElse(p.limit, 12))
    ensures PageOfSome(movies, p, k, OrElse(p.limit, 12), ListMovies(movies, AtPage(p, k)).value.movies)
  {
    var limit := OrElse(p.limit, 12);
    assert ListMovies(movies, AtPage(p, k)) == Success(Listing(movies, AtPage(p, k), k, limit));
    assert Arranged(movies, AtPage(p, k)) == Arranged(movies, p);
  }

  /** The movies of listing pages 1 to `k`, one after the other. */
  function ListedPages(movies: seq<Movie>, p: ListParams, k: nat): seq<Movie>
    decreases k
  {
    if k == 0 then [] else ListedPages(movies, p, k - 1) + ListMovies(movies, AtPage(p, k)).value.movies
  }

  lemma ListedPagesArePages(movies: seq<Movie>, p: ListParams, k: nat)
    ensures ListedPages(movies, p, k) == Pages(Arranged(movies, p), OrElse(p.limit, 12), k)
  {
    var j := 0;
    while j < k
      invariant j <= k
      invariant ListedPages(movies, p, j) == Pages(Arranged(movies, p), OrElse(p.limit, 12), j)
    {
      ListedPagesNext(movies, p, j + 1);
      j := j + 1;
    }
  }

  /** If pages 1 to `k - 1` of the listing are the first `k - 1` pages of the sorted
      matches, so are pages 1 to `k`. */
  lemma ListedPagesNext(movies: seq<Movie>, p: ListParams, k: nat)
    requires k > 0
    requires ListedPages(movies, p, k - 1) == Pages(Arranged(movies, p), OrElse(p.limit, 12), k - 1)
    ensures ListedPages(movies, p, k) == Pages(Arranged(movies, p), OrElse(p.limit, 12), k)
  {
    ListedPagesStep(movies, p, k);
    PagesStep(Arranged(movies, p), OrElse(p.limit, 12), k);
  }

  lemma PagesStep<T>(xs: seq<T>, limit: nat, k: nat)
    requires k > 0
    ensures Pages(xs, limit, k) == Pages(xs, limit, k - 1) + Page(xs, k, limit)
  {
    assert Pages(xs, limit, k) == Pages(xs, limit, k - 1) + Page(xs, k, limit);
  }

  lemma ListedPagesStep(movies: seq<Movie>, p: ListParams, k: nat)
    requires k > 0
    ensures ListedPages(movies, p, k) == ListedPages(movies, p, k - 1) + Page(Arranged(movies, p), k, OrElse(p.limit, 12))
  {
    ListAtPage(movies, p, k);
  }

  /** No two different matches tie under `lt`: the sort key alone fixes their order. */
  ghost predicate NoTies<T>(lt: (T, T) -> bool, xs: seq<T>) {
    forall i, j :: 0 <= i < |xs| && 0 <= j < |xs| && xs[i] != xs[j] ==> lt(xs[i], xs[j]) || lt(xs[j], xs[i])
  }

  /** `ys` holds the elements of `xs`, each as often, sorted under `lt`. */
  ghost predicate SortedArrangement<T>(lt: (T, T) -> bool, xs: seq<T>, ys: seq<T>) {
    multiset(ys) == multiset(xs) && SortedBy(lt, ys)
  }

  /** Walking the listing from page 1 to `totalPages` shows every matching movie exactly
      once, in the requested order. Each page is a separate query, and the store does
      not promise to break ties the same way in each, so this holds when no two matches
      tie on the sort key: then the pages join up to the one sorted arrangement of the
      matches, whichever order the store picks. */
  lemma ListPagesCover(movies: seq<Movie>, p: ListParams)
    requires OrElse(p.limit, 12) > 0
    requires NoTies(Ordering(FieldOf(OrElse(p.sortBy, "releaseDate")), OrElse(p.sortOrder, "desc") == "desc"),
      Filter(Listed(p.search, p.genre), movies))
    ensures ListMovies(movies, AtPage(p, 1)).Success?
    ensures var t := ListMovies(movies, AtPage(p, 1)).value.totalPages.value;
      && multiset(ListedPages(movies, p, t)) == multiset(Filter(Listed(p.search, p.genre), movies))
      && (FieldOf(OrElse(p.sortBy, "releaseDate")) != Unordered ==>
            SortedBy(Ordering(FieldOf(OrElse(p.sortBy, "releaseDate")), OrElse(p.sortOrder, "desc") == "desc"), ListedPages(movies, p, t)))
    ensures var t := ListMovies(movies, AtPage(p, 1)).value.totalPages.value;
      var lt := Ordering(FieldOf(OrElse(p.sortBy, "releaseDate")), OrElse(p.sortOrder, "desc") == "desc");
      var matches := Filter(Listed(p.search, p.genre), movies);
      forall ys :: SortedArrangement(lt, matches, ys) ==> ListedPages(movies, p, t) == ys
  {
    var t := ListMovies(movies, AtPage(p, 1)).value.totalPages.value;
    var f := FieldOf(OrElse(p.sortBy, "releaseDate"));
    var lt := Ordering(f, OrElse(p.sortOrder, "desc") == "desc");
    var matches := Filter(Listed(p.search, p.genre), movies);
    ArrangedMembers(movies, p);
    assert t == CeilDiv(|Arranged(movies, p)|, OrElse(p.limit, 12));
    PagesCover(Arranged(movies, p), OrElse(p.limit, 12));
    ListedPagesArePages(movies, p, t);
    OrderingIsStrictWeak(f, OrElse(p.sortOrder, "desc") == "desc");
    forall ys | SortedArrangement(lt, matches, ys) ensures ListedPages(movies, p, t) == ys {
      ArrangedSorted(movies, p, lt);
      NoTiesSame(lt, matches, Arranged(movies, p));
      SortedUnique(lt, Arranged(movies, p), ys);
    }
  }

  /** With no sort field the arrangement keeps store order, and without ties every
      match is the same movie, so it is sorted under any order. */
  lemma ArrangedSorted(movies: seq<Movie>, p: ListParams, lt: (Movie, Movie) -> bool)
    requires lt == Ordering(FieldOf(OrElse(p.sortBy, "releaseDate")), OrElse(p.sortOrder, "desc") == "desc")
    requires NoTies(lt, Filter(Listed(p.search, p.genre), movies))
    ensures SortedBy(lt, Arranged(movies, p))
  {
    if FieldOf(OrElse(p.sortBy, "releaseDate")) == Unordered {
      var xs := Arranged(movies, p);
      forall i, j | 0 <= i < j < |xs| ensures !lt(xs[j], xs[i]) {
        assert lt == Ascending(Unordered) || lt == Flip(Ascending(Unordered));
      }
    }
  }

  /** Having no ties depends only on which elements there are. */
  lemma NoTiesSame<T>(lt: (T, T) -> bool, a: seq<T>, b: seq<T>)
    requires NoTies(lt, a) && multiset(a) == multiset(b)
    ensures NoTies(lt, b)
  {
    forall i, j | 0 <= i < |b| && 0 <= j < |b| && b[i] != b[j] ensures lt(b[i], b[j]) || lt(b[j], b[i]) {
      assert b[i] in multiset(a) && b[j] in multiset(a);
      var x :| 0 <= x < |a| && a[x] == b[i];
      var y :| 0 <= y < |a| && a[y] == b[j];
    }
  }

  /** Without ties there is only one sorted arrangement of a multiset. */
  lemma {:induction false} SortedUnique<T>(lt: (T, T) -> bool, a: seq<T>, b: seq<T>)
    requires NoTies(lt, a) && multiset(a) == multiset(b)
    requires SortedBy(lt, a) && SortedBy(lt, b)
    ensures a == b
    decreases |a|
  {
    if a != [] {
      assert |multiset(b)| == |multiset(a)|;
      SortedHeads(lt, a, b);
      MultisetTails(a, b);
      NoTiesTail(lt, a);
      SortedTail(lt, a);
      SortedTail(lt, b);
      SortedUnique(lt, a[1..], b[1..]);
    }
  }

  /** Two sorted arrangements of one multiset without ties start alike. */
  lemma SortedHeads<T>(lt: (T, T) -> bool, a: seq<T>, b: seq<T>)
    requires a != [] && b != [] && NoTies(lt, a) && multiset(a) == multiset(b)
    requires SortedBy(lt, a) && SortedBy(lt, b)
    ensures a[0] == b[0]
  {
    assert b[0] in multiset(a) && a[0] in multiset(b);
    var i :| 0 <= i < |a| && a[i] == b[0];
    var j :| 0 <= j < |b| && b[j] == a[0];
  }

  lemma MultisetTails<T>(a: seq<T>, b: seq<T>)
    requires a != [] && b != [] && a[0] == b[0] && multiset(a) == multiset(b)
    ensures multiset(a[1..]) == multiset(b[1..])
  {
    assert a == [a[0]] + a[1..] && b == [b[0]] + b[1..];
    forall v ensures multiset(a[1..])[v] == multiset(b[1..])[v] {
      assert multiset(a)[v] == multiset([a[0]])[v] + multiset(a[1..])[v];
      assert multiset(b)[v] == multiset([b[0]])[v] + multiset(b[1..])[v];
    }
  }

  lemma NoTiesTail<T>(lt: (T, T) -> bool, a: seq<T>)
    requires a != [] && NoTies(lt, a)
    ensures NoTies(lt, a[1..])
  {
    forall i, j | 0 <= i < |a[1..]| && 0 <= j < |a[1..]| && a[1..][i] != a[1..][j]
      ensures lt(a[1..][i], a[1..][j]) || lt(a[1..][j], a[1..][i])
    {
      assert a[1..][i] == a[i + 1] && a[1..][j] == a[j + 1];
    }
  }

  lemma SortedTail<T>(lt: (T, T) -> bool, a: seq<T>)
    requires a != [] && SortedBy(lt, a)
    ensures SortedBy(lt, a[1..])
  {
    forall i, j | 0 <= i < j < |a[1..]| ensures !lt(a[1..][j], a[1..][i]) {
      assert a[1..][i] == a[i + 1] && a[1..][j] == a[j + 1];
    }
  }

  // ---- GET /api/movies/:id ----

  datatype MovieDetail = MovieDetail(movie: Movie, reviews: seq<Review>)

  /** `GET /api/movies/:id`: the movie, active or not, with its active reviews newest
      first; 404 when no movie has the id. */
  function GetMovie(s: Store, id: MovieId): (r: Result<MovieDetail, Error>)
    ensures r.Failure? <==> forall k :: 0 <= k < |s.movies| ==> s.movies[k].id != id
    ensures r.Failure? ==> r.error == NotFound
    ensures r.Success? ==> r.value.movie in s.movies && r.value.movie.id == id
    ensures r.Success? ==> forall x :: x in r.value.reviews ==> x in s.reviews && x.movie == id && x.isActive
    ensures r.Success? ==> forall k :: 0 <= k < |s.reviews| && s.reviews[k].movie == id && s.reviews[k].isActive ==>
      s.reviews[k] in r.value.reviews
    ensures r.Success? ==> ActiveCounts(s.reviews, id, r.value.reviews)
    ensures r.Success? ==> NewestFirst(r.value.reviews)
  {
    match FindMovie(s.movies, id)
    case None => Failure(NotFound)
    case Some(m) =>
      SortNewestFirst(ActiveFor(id), s.reviews);
      FilterCount(ActiveFor(id), s.reviews);
      Success(MovieDetail(m, Sort(CreatedAfter, Filter(ActiveFor(id), s.reviews))))
  }

  // ---- DELETE /api/movies/:id (admin) ----

  /** `Movie.findByIdAndUpdate(id, { isActive: false })`: the movie stays in the store,
      deactivated; 404 when no movie has the id. */
  function SoftDelete(s: Store, id: MovieId): (r: Result<Store, Error>)
    ensures r.Failure? <==> forall k :: 0 <= k < |s.movies| ==> s.movies[k].id != id
    ensures r.Failure? ==> r.error == NotFound
    ensures r.Success? ==> r.value.reviews == s.reviews && r.value.users == s.users && |r.value.movies| == |s.movies|
    // the first movie with the id is deactivated, every other field and movie as before
    ensures r.Success? ==> forall k :: 0 <= k < |s.movies| ==>
      if s.movies[k].id == id && forall j :: 0 <= j < k ==> s.movies[j].id != id
      then r.value.movies[k] == s.movies[k].(isActive := false)
      else r.value.movies[k] == s.movies[k]
  {
    match Find(MovieIdIs(id), s.movies)
    case None => Failure(NotFound)
    case Some(i) => Success(s.(movies := s.movies[i := s.movies[i].(isActive := false)]))
  }

  /** Deleting twice leaves the store as deleting once. */
  lemma SoftDeleteIdempotent(s: Store, id: MovieId)
    requires SoftDelete(s, id).Success?
    ensures SoftDelete(SoftDelete(s, id).value, id) == SoftDelete(s, id)
  {
    var t := SoftDelete(s, id).value;
    var i := Find(MovieIdIs(id), s.movies).value;
    assert Find(MovieIdIs(id), t.movies) == Some(i) by {
      assert MovieIdIs(id)(t.movies[i]);
      assert forall j :: 0 <= j < i ==> !MovieIdIs(id)(t.movies[j]);
    }
    assert t.movies[i := t.movies[i].(isActive := false)] == t.movies;
  }

  /** With unique ids, a deleted movie is inactive, so no query that keeps active movies
      only (the listing, popular, for-you, similar, trending) can return it; and the
      ratings, which are kept in the movie, stay consistent. */
  lemma SoftDeleteHides(s: Store, id: MovieId)
    requires DistinctIds(s) && SoftDelete(s, id).Success?
    ensures forall k :: 0 <= k < |SoftDelete(s, id).value.movies| && SoftDelete(s, id).value.movies[k].id == id ==>
      !SoftDelete(s, id).value.movies[k].isActive
    ensures DistinctIds(SoftDelete(s, id).value)
    ensures Consistent(s) ==> Consistent(SoftDelete(s, id).value)
  {
    var t := SoftDelete(s, id).value;
    var i := Find(MovieIdIs(id), s.movies).value;
    assert MovieIdIs(id)(s.movies[i]);
    assert forall k :: 0 <= k < |t.movies| ==> MovieKey(t.movies[k]) == MovieKey(s.movies[k]);
  }

  // ---- GET /api/movies/popular/trending ----

  predicate IsActive(m: Movie) {
    m.isActive
  }

  /** `Movie.find({ isActive: true }).sort({ 'rating.average': -1, 'rating.count': -1 }).limit(10)`. */
  function Popular(movies: seq<Movie>): (r: seq<Movie>)
    ensures |r| <= 10
    ensures forall i :: 0 <= i < |r| ==> r[i] in movies && r[i].isActive
    ensures multiset(r) <= multiset(movies)
    // higher average first, then more reviews
    ensures forall i, j :: 0 <= i < j < |r| ==>
      r[i].rating.average > r[j].rating.average
      || (r[i].rating.average == r[j].rating.average && r[i].rating.count >= r[j].rating.count)
    // no active movie left out outranks a listed one
    ensures forall k, i :: 0 <= k < |movies| && movies[k].isActive && movies[k] !in r && 0 <= i < |r| ==>
      !RanksAbove(movies[k], r[i])
    ensures |r| < 10 ==> forall k :: 0 <= k < |movies| && movies[k].isActive ==> movies[k] in r
  {
    RanksAboveOrder();
    var r := TopN(RanksAbove, IsActive, movies, 10);
    PopularFacts(movies, r);
    r
  }

  lemma PopularFacts(movies: seq<Movie>, r: seq<Movie>)
    requires StrictWeakOrder(RanksAbove) && r == TopN(RanksAbove, IsActive, movies, 10)
    ensures forall i :: 0 <= i < |r| ==> r[i].isActive
    ensures forall i, j :: 0 <= i < j < |r| ==>
      r[i].rating.average > r[j].rating.average
      || (r[i].rating.average == r[j].rating.average && r[i].rating.count >= r[j].rating.count)
    ensures forall k, i :: 0 <= k < |movies| && movies[k].isActive && movies[k] !in r && 0 <= i < |r| ==>
      !RanksAbove(movies[k], r[i])
    ensures |r| < 10 ==> forall k :: 0 <= k < |movies| && movies[k].isActive ==> movies[k] in r
  {
    assert forall i :: 0 <= i < |r| ==> IsActive(r[i]);
    assert forall i, j :: 0 <= i < j < |r| ==> !RanksAbove(r[j], r[i]);
  }
}
