/** The browse page of src/pages/Movies.jsx: its state and event handlers, the query
    string it sends to `GET /api/movies`, and the pagination bar it renders. */
module BrowsePage {

  import opened Wrappers
  import opened Seqs
  import opened Domain
  import opened Catalogue

  // ---- Decimal numerals, as `URLSearchParams` writes numbers and Express reads them ----

  predicate IsDigit(ch: char) {
    '0' <= ch <= '9'
  }

  predicate AllDigits(s: string) {
    forall i :: 0 <= i < |s| ==> IsDigit(s[i])
  }

  function DigitChar(d: nat): (ch: char)
    requires d < 10
    ensures IsDigit(ch) && ch as int - '0' as int == d
  {
    ('0' as int + d) as char
  }

  /** The decimal numeral of `n`, without leading zeros. */
  function ShowNat(n: nat): (r: string)
    ensures r != [] && AllDigits(r)
    ensures r[0] == '0' ==> n == 0
    decreases n
  {
    if n < 10 then [DigitChar(n)] else ShowNat(n / 10) + [DigitChar(n % 10)]
  }

  /** The number a string of digits denotes. */
  function Value(s: string): nat
    requires AllDigits(s)
    decreases |s|
  {
    if s == [] then 0 else 10 * Value(s[..|s| - 1]) + (s[|s| - 1] as int - '0' as int)
  }

  /** A numeral read back; anything that is not a non-empty run of digits reads as nothing. */
  function ParseNat(s: string): (r: Option<nat>)
    ensures r.Some? <==> s != [] && AllDigits(s)
  {
    if s != [] && AllDigits(s) then Some(Value(s)) else None
  }

  function ShowInt(i: int): (r: string)
    ensures r != []
  {
    if i < 0 then "-" + ShowNat(-i) else ShowNat(i)
  }

  function ParseInt(s: string): Option<int> {
    if s != [] && s[0] == '-' then
      match ParseNat(s[1..])
      case Some(n) => Some(-(n as int))
      case None => None
    else
      match ParseNat(s)
      case Some(n) => Some(n)
      case None => None
  }

  lemma {:induction false} ValueShow(n: nat)
    ensures Value(ShowNat(n)) == n
    decreases n
  {
    if n >= 10 {
      var s := ShowNat(n);
      assert s[..|s| - 1] == ShowNat(n / 10);
      ValueShow(n / 10);
    }
  }

  /** Reading back a written number gives the number. */
  lemma ParseShowNat(n: nat)
    ensures ParseNat(ShowNat(n)) == Some(n)
  {
    ValueShow(n);
  }

  lemma ParseShowInt(i: int)
    ensures ParseInt(ShowInt(i)) == Some(i)
  {
    if i < 0 {
      ParseShowNat(-i);
      assert ShowInt(i)[1..] == ShowNat(-i);
    } else {
      ParseShowNat(i);
      assert IsDigit(ShowNat(i)[0]);
    }
  }

  // ---- The query string ----

  type Query = seq<(string, string)>

  /** The first value given for `key`. Each key is taken to carry one value: Express
      reads a repeated key as an array, which the model does not follow. */
  function Lookup(q: Query, key: string): (r: Option<string>)
    ensures r.None? <==> forall i :: 0 <= i < |q| ==> q[i].0 != key
    ensures r.Some? ==> exists i :: 0 <= i < |q| && q[i] == (key, r.value)
  {
    if q == [] then None
    else if q[0].0 == key then Some(q[0].1)
    else
      var r := Lookup(q[1..], key);
      assert r.Some? ==> exists i :: 0 <= i < |q[1..]| && q[1..][i] == (key, r.value);
      r
  }

  lemma {:induction false} LookupAppend(a: Query, b: Query, key: string)
    ensures Lookup(a + b, key) == if Lookup(a, key).Some? then Lookup(a, key) else Lookup(b, key)
    decreases |a|
  {
    if a != [] {
      assert (a + b)[1..] == a[1..] + b;
      LookupAppend(a[1..], b, key);
    } else {
      assert a + b == b;
    }
  }

  /** What the listing route reads from a query string: `search` and `genre` default to
      the empty string, the numbers are read as numerals. `None` when `page` or `limit`
      is not a numeral. */
  function ReadQuery(q: Query): (r: Option<ListParams>)
    ensures r.Some? ==> r.value.sortBy == Lookup(q, "sortBy") && r.value.sortOrder == Lookup(q, "sortOrder")
    ensures r.Some? ==> r.value.search == OrElse(Lookup(q, "search"), "") && r.value.genre == OrElse(Lookup(q, "genre"), "")
    ensures r.None? <==>
      (Lookup(q, "page").Some? && ParseInt(Lookup(q, "page").value).None?)
      || (Lookup(q, "limit").Some? && ParseNat(Lookup(q, "limit").value).None?)
  {
    var page := Lookup(q, "page");
    var limit := Lookup(q, "limit");
    if page.Some? && ParseInt(page.value).None? then None
    else if limit.Some? && ParseNat(limit.value).None? then None
    else
      Some(ListParams(
        OrElse(Lookup(q, "search"), ""),
        OrElse(Lookup(q, "genre"), ""),
        Lookup(q, "sortBy"),
        Lookup(q, "sortOrder"),
        if page.Some? then ParseInt(page.value) else None,
        if limit.Some? then ParseNat(limit.value) else None))
  }

  // ---- The page's state and handlers ----

  /** `currentPage`, `totalPages`, `searchTerm`, the debounced term the requests use,
      `selectedGenre` and `sortBy`. */
  datatype BrowseState = BrowseState(
    page: int,
    totalPages: int,
    searchTerm: string,
    debounced: string,
    genre: string,
    sortBy: string)

  /** The state on first render. */
  const Initial := BrowseState(1, 1, "", "", "all", "releaseDate")

  /** The page size the browse page asks for. */
  const PageSize: nat := 12

  /** The pagination controls: Previous, Next, and a numbered page button. */
  datatype Control = Prev | Next | Numbered(target: int)

  /** What can happen on the page: submitting the search bar's form, the 300 ms debounce timer
      firing, choosing a genre or a sort order, pressing a pagination control, and a
      listing arriving with its `totalPages`. */
  datatype Event =
    | Submit(term: string)
    | Settle
    | ChooseGenre(genre: string)
    | ChooseSort(sortBy: string)
    | Press(control: Control)
    | Loaded(totalPages: int)

  /** The query string `fetchMovies` builds: page, limit 12, sort field and `desc`
      always; the search term only when non-empty; the genre only when chosen and not
      `all`. */
  function RequestQuery(st: BrowseState): Query {
    Fixed(st) + SearchPart(st) + GenrePart(st)
  }

  function Fixed(st: BrowseState): Query {
    [("page", ShowInt(st.page)), ("limit", ShowNat(PageSize)), ("sortBy", st.sortBy), ("sortOrder", "desc")]
  }

  function SearchPart(st: BrowseState): Query {
    if st.debounced != "" then [("search", st.debounced)] else []
  }

  function GenrePart(st: BrowseState): Query {
    if st.genre != "" && st.genre != "all" then [("genre", st.genre)] else []
  }

  /** A key is looked up in the fixed part first, then in the search part, then in the
      genre part. */
  lemma LookupRequest(st: BrowseState, key: string)
    ensures Lookup(RequestQuery(st), key) ==
      if Lookup(Fixed(st), key).Some? then Lookup(Fixed(st), key)
      else if Lookup(SearchPart(st), key).Some? then Lookup(SearchPart(st), key)
      else Lookup(GenrePart(st), key)
  {
    LookupAppend(Fixed(st) + SearchPart(st), GenrePart(st), key);
    LookupAppend(Fixed(st), SearchPart(st), key);
  }

  /** One step of `Lookup`: the head pair answers for its own key and passes every other
      key on. */
  lemma LookupCons(p: (string, string), q: Query, key: string)
    ensures Lookup([p] + q, key) == if p.0 == key then Some(p.1) else Lookup(q, key)
  {
    assert ([p] + q)[1..] == q;
  }

  lemma FixedLookups(st: BrowseState)
    ensures Lookup(Fixed(st), "page") == Some(ShowInt(st.page))
    ensures Lookup(Fixed(st), "limit") == Some(ShowNat(PageSize))
    ensures Lookup(Fixed(st), "sortBy") == Some(st.sortBy)
    ensures Lookup(Fixed(st), "sortOrder") == Some("desc")
    ensures Lookup(Fixed(st), "search").None? && Lookup(Fixed(st), "genre").None?
  {
    var p0, p1, p2, p3 := ("page", ShowInt(st.page)), ("limit", ShowNat(PageSize)), ("sortBy", st.sortBy), ("sortOrder", "desc");
    var r3: Query := [p3];
    var r2: Query := [p2] + r3;
    var r1: Query := [p1] + r2;
    assert Fixed(st) == [p0] + r1;
    assert r3 == [p3] + [];
    LookupCons(p0, r1, "limit");
    LookupCons(p0, r1, "sortBy");
    LookupCons(p0, r1, "sortOrder");
    LookupCons(p0, r1, "search");
    LookupCons(p0, r1, "genre");
    LookupCons(p1, r2, "sortBy");
    LookupCons(p1, r2, "sortOrder");
    LookupCons(p1, r2, "search");
    LookupCons(p1, r2, "genre");
    LookupCons(p2, r3, "sortOrder");
    LookupCons(p2, r3, "search");
    LookupCons(p2, r3, "genre");
    LookupCons(p3, [], "search");
    LookupCons(p3, [], "genre");
  }

  /** Each parameter of the request carries the state it comes from. */
  lemma RequestLookups(st: BrowseState)
    ensures Lookup(RequestQuery(st), "page") == Some(ShowInt(st.page))
    ensures Lookup(RequestQuery(st), "limit") == Some(ShowNat(PageSize))
    ensures Lookup(RequestQuery(st), "sortBy") == Some(st.sortBy)
    ensures Lookup(RequestQuery(st), "sortOrder") == Some("desc")
    ensures Lookup(RequestQuery(st), "search") == (if st.debounced == "" then None else Some(st.debounced))
    ensures Lookup(RequestQuery(st), "genre") == (if st.genre == "" || st.genre == "all" then None else Some(st.genre))
  {
    FixedLookups(st);
    LookupRequest(st, "page");
    LookupRequest(st, "limit");
    LookupRequest(st, "sortBy");
    LookupRequest(st, "sortOrder");
    LookupRequest(st, "search");
    LookupRequest(st, "genre");
    assert Lookup(SearchPart(st), "genre").None?;
  }

  /** The listing the page means to ask for. */
  function Intended(st: BrowseState): ListParams {
    ListParams(st.debounced, if st.genre == "all" then "" else st.genre, Some(st.sortBy), Some("desc"), Some(st.page), Some(PageSize))
  }

  /** The route reads back exactly the listing the page means: the page number survives
      the trip through the query string, and omitting the genre `all` asks for the same
      movies as sending it. */
  lemma RequestRoundTrip(st: BrowseState)
    ensures ReadQuery(RequestQuery(st)) == Some(Intended(st))
    ensures forall m :: Listed(st.debounced, st.genre)(m) == Listed(Intended(st).search, Intended(st).genre)(m)
  {
    RequestLookups(st);
    ParseShowInt(st.page);
    ParseShowNat(PageSize);
  }

  /** The pagination bar as React renders it: absent unless there is more than one page. */
  datatype Slot = PageButton(page: int, isCurrent: bool) | Gap(page: int)
  datatype Pager = Pager(prevDisabled: bool, slots: seq<Slot>, nextDisabled: bool)

  /** `shouldShow`: the first page, the last page and the pages within 2 of the current one. */
  predicate Shown(total: int, current: int, p: int) {
    p == 1 || p == total || (current - 2 <= p <= current + 2)
  }

  /** A hidden page exactly 3 away from the current one renders as `...`. */
  predicate IsGap(total: int, current: int, p: int) {
    !Shown(total, current, p) && (p == current - 3 || p == current + 3)
  }

  /** What page `p` renders as: a button, an ellipsis, or nothing. */
  function SlotOf(total: int, current: int, p: int): (r: seq<Slot>)
    ensures |r| <= 1
  {
    if Shown(total, current, p) then [PageButton(p, p == current)]
    else if IsGap(total, current, p) then [Gap(p)]
    else []
  }

  /** The rendered items for pages 1..k, in page order. */
  function Slots(total: int, current: int, k: nat): (r: seq<Slot>)
    ensures forall i, j :: 0 <= i < j < |r| ==> r[i].page < r[j].page
    ensures forall s :: s in r <==> 1 <= s.page <= k && SlotOf(total, current, s.page) == [s]
    decreases k
  {
    if k == 0 then []
    else
      var front := Slots(total, current, k - 1);
      assert forall s :: s in front ==> s.page < k;
      front + SlotOf(total, current, k)
  }

  /** The pagination bar for `totalPages` and `currentPage`. */
  function PagerOf(total: int, current: int): (r: Option<Pager>)
    ensures r.Some? <==> total > 1
    ensures r.Some? ==> (r.value.prevDisabled <==> current == 1) && (r.value.nextDisabled <==> current == total)
    ensures r.Some? ==> forall i, j :: 0 <= i < j < |r.value.slots| ==> r.value.slots[i].page < r.value.slots[j].page
    ensures r.Some? ==> forall p, b :: PageButton(p, b) in r.value.slots <==> 1 <= p <= total && Shown(total, current, p) && b == (p == current)
    ensures r.Some? ==> forall p :: Gap(p) in r.value.slots <==> 1 <= p <= total && IsGap(total, current, p)
  {
    if total > 1 then
      var slots := Slots(total, current, total);
      assert forall p, b :: PageButton(p, b) in slots <==> 1 <= p <= total && SlotOf(total, current, p) == [PageButton(p, b)];
      assert forall p :: Gap(p) in slots <==> 1 <= p <= total && SlotOf(total, current, p) == [Gap(p)];
      Some(Pager(current == 1, slots, current == total))
    else None
  }

  /** Between two neighbouring page buttons there is an ellipsis exactly when pages are
      skipped, and never more than one. */
  lemma OneGapPerRun(total: int, current: int, p: int, q: int)
    requires 1 <= current <= total
    requires 1 <= p < q <= total && Shown(total, current, p) && Shown(total, current, q)
    requires forall r :: p < r < q ==> !Shown(total, current, r)
    ensures q > p + 1 <==> exists r :: p < r < q && IsGap(total, current, r)
    ensures forall r1, r2 :: p < r1 < q && p < r2 < q && IsGap(total, current, r1) && IsGap(total, current, r2) ==> r1 == r2
  {
    if q > p + 1 {
      assert !Shown(total, current, p + 1);
      if p + 1 < current - 2 {
        assert !Shown(total, current, current - 2) ==> false;
        assert IsGap(total, current, current - 3);
      } else {
        assert !Shown(total, current, current + 2) ==> false;
        assert IsGap(total, current, current + 3);
      }
    }
  }

  /** The page a pagination control leads to, or `None` when it is disabled or not on
      screen (then pressing it does nothing). */
  function Target(st: BrowseState, c: Control): (r: Option<int>)
    ensures r.Some? ==> st.totalPages > 1
    ensures c == Prev ==> (r.Some? <==> st.totalPages > 1 && st.page != 1) && (r.Some? ==> r.value == st.page - 1)
    ensures c == Next ==> (r.Some? <==> st.totalPages > 1 && st.page != st.totalPages) && (r.Some? ==> r.value == st.page + 1)
    ensures c.Numbered? ==> (r.Some? <==> st.totalPages > 1 && 1 <= c.target <= st.totalPages && Shown(st.totalPages, st.page, c.target))
    ensures c.Numbered? && r.Some? ==> r.value == c.target
  {
    match PagerOf(st.totalPages, st.page)
    case None => None
    case Some(v) =>
      match c
      case Prev => if v.prevDisabled then None else Some(st.page - 1)
      case Next => if v.nextDisabled then None else Some(st.page + 1)
      case Numbered(p) =>
        if PageButton(p, p == st.page) in v.slots then Some(p) else None
  }

  /** The handlers: a new search term, genre or sort order goes back to page 1
      (`handleSearch`, `handleFilter`, `handleSortChange`); a pagination control moves to
      its page (`handlePageChange`); the debounce timer copies the search term into the
      term the requests use; a listing updates `totalPages`. */
  function Step(st: BrowseState, e: Event): (r: BrowseState)
    ensures e.Submit? ==> r == st.(searchTerm := e.term, page := 1)
    ensures e.ChooseGenre? ==> r == st.(genre := e.genre, page := 1)
    ensures e.ChooseSort? ==> r == st.(sortBy := e.sortBy, page := 1)
    ensures e.Settle? ==> r == st.(debounced := st.searchTerm)
    ensures e.Loaded? ==> r == st.(totalPages := e.totalPages)
    ensures e.Press? ==> r == st.(page := OrElse(Target(st, e.control), st.page))
  {
    match e
    case Submit(term) => st.(searchTerm := term, page := 1)
    case Settle => st.(debounced := st.searchTerm)
    case ChooseGenre(g) => st.(genre := g, page := 1)
    case ChooseSort(s) => st.(sortBy := s, page := 1)
    case Press(c) => st.(page := OrElse(Target(st, c), st.page))
    case Loaded(t) => st.(totalPages := t)
  }

  /** The pagination controls never lead off the known pages, and no handler takes the
      page below 1. */
  lemma StepKeepsPage(st: BrowseState, e: Event)
    ensures st.page >= 1 ==> Step(st, e).page >= 1
    ensures e.Press? && 1 <= st.page <= st.totalPages ==> 1 <= Step(st, e).page <= st.totalPages
  {
  }

  function Run(st: BrowseState, es: seq<Event>): BrowseState
    decreases |es|
  {
    if es == [] then st else Run(Step(st, es[0]), es[1..])
  }

  /** From the first render on, whatever the user does, the page asked for is at least 1,
      so the listing request never fails and shows page `page` of the listing the page
      means, at most 12 movies. */
  lemma {:induction false} RunKeepsPage(st: BrowseState, es: seq<Event>)
    requires st.page >= 1
    ensures Run(st, es).page >= 1
    decreases |es|
  {
    if es != [] {
      StepKeepsPage(st, es[0]);
      RunKeepsPage(Step(st, es[0]), es[1..]);
    }
  }

  lemma BrowseListing(movies: seq<Movie>, es: seq<Event>)
    ensures var st := Run(Initial, es);
      var r := ListMovies(movies, Intended(st));
      && r.Success?
      && r.value.movies == Page(Arranged(movies, Intended(st)), st.page, PageSize)
      && PageOfSome(movies, Intended(st), st.page, PageSize, r.value.movies)
      && |r.value.movies| <= 12
      && r.value.totalPages.Some?
  {
    RunKeepsPage(Initial, es);
  }
}
