# Movie review site: rating, ranking and listing logic in Dafny

This project models the server-side logic of a MERN movie-review site, and proves properties of that model.

The model covers:

- the rating aggregate each movie carries;
- the rules for writing, editing, deleting and reacting to reviews;
- the recommendation routes: for-you, similar and trending;
- the catalogue listing, with its search, genre filter, sort and paging;
- the profile and dashboard statistics, and the profile-update rules;
- the `Movie` schema;
- the browse page's request building and pagination bar.

The database is an immutable `Store` holding three sequences: movies, reviews and users.

- Every query is a filter, then a stable sort, then a take.
- Every write route is a function from a store to a `Result`. The result holds either the new store or the error status the route answers with.
- Time is integer milliseconds.
- A movie's average is kept exactly, in tenths of a star.

Modules:

- `Wrappers`: `Option` and `Result`.
- `Seqs`: filtering, finding, taking, distinctness.
- `Sorting`: a stable insertion sort over any strict weak order, and `TopN` (filter, sort, take n).
- `Tallies`: counting keys in a stream, in first-seen order, and the top n by count.
- `Domain`: the records (`Movie`, `Review`, `User`, `Watched`, `Store`), the error statuses and the store invariants.
- `Orders`: the sort orders the routes use.
- `Aggregation`: `updateMovieRating`.
- `Reviews`: the review routes.
- `Profile`: the genre-preference profile of the for-you route.
- `Recommendations`: the for-you and similar routes.
- `Trending`: the trending route.
- `Text`: case-insensitive substring search, and `String.prototype.trim`.
- `Catalogue`: the movie routes.
- `Users`: the user routes.
- `MovieSchema`: validation and defaults of the `Movie` schema.
- `BrowsePage`: the browse page of the client.

Ties that Mongo leaves unspecified are broken by store order. Ties in the JavaScript sorts (`Array.prototype.sort` is stable) keep first-seen order. Every contract that speaks of order states what the source promises: the order by the sort key, and for the JavaScript sorts, first-seen order among equal keys. Three members also equate their result with the model's own store-order answer: Users.Dashboard (the `.limit(10)` query, through `NewestReviews`), BrowsePage.BrowseListing and Catalogue.ListAtPage (through `Arranged`). Each of the three states its result as well through a clause that holds for every tie-break (`NewestCut`, `PageOfSome`). The page-walking helpers of Catalogue.ListPagesCover (Catalogue.ListedPagesArePages, Catalogue.ListedPagesNext, Catalogue.ListedPagesStep) are stated against `Arranged` only. ListPagesCover itself carries the walk to every sorted arrangement.

## Model

| member | source | states |
|---|---|---|
| Domain.FindMovie | server/routes/movies.js:62-66 | `findById`: finds a movie with the id exactly when one exists |
| Domain.FindUser | server/routes/users.js:11-17 | finds a user with the id exactly when one exists |
| Orders.RanksAboveOrder | server/routes/movies.js:135 | (average desc, count desc) is a strict weak order, so sorting by it is well defined |
| Aggregation.ActiveReviewsOf | server/routes/reviews.js:210 | holds the movie's active reviews and nothing else: every member is an active review of the movie, and every such review is a member |
| Aggregation.ActiveReviewsCounts | server/routes/reviews.js:210 | each active review of the movie occurs in the query's result exactly as often as in the store, and no other review occurs |
| Aggregation.RoundedTenths | server/routes/reviews.js:221-224 | `Math.round(mean * 10)`: the integer nearest to 10·sum/n, with halves rounding up |
| Aggregation.AggregateOf | server/routes/reviews.js:212-226 | 0/0 with no active reviews; otherwise the count is the number of reviews and the average is the mean rounded half up to tenths |
| Aggregation.AverageInRange | server/routes/reviews.js:220-226 | with ratings in 1..5 and at least one review, the stored average lies in [1, 5] stars |
| Aggregation.RatingInSchema | server/routes/reviews.js:208-230 | the aggregate always satisfies the schema's [0, 5] bound, and is at least 1 whenever some review counts |
| Aggregation.SumRatingsPermutation | server/routes/reviews.js:220 | the rating sum does not depend on the order in which the store returns the reviews |
| Aggregation.RatingOfReplaceSame | server/routes/reviews.js:208-230 | replacing a review by one with the same movie, flag and rating leaves every aggregate unchanged |
| Aggregation.Recompute | server/routes/reviews.js:208-230 | a swallowed fault leaves the movies unchanged; otherwise every movie with the id gets the aggregate of its active reviews and no other movie changes |
| Aggregation.ComputeRating | server/routes/reviews.js:210-225 | the `reduce` loop computes the same aggregate as the reference definition |
| Reviews.LocateReview | server/routes/reviews.js:66-70 | finds the first review with the id, or reports that none has it |
| Reviews.AddToSet | server/routes/reviews.js:41-49 | `$addToSet`: the entry is present afterwards, nothing is lost, and nothing changes when it was already there |
| Reviews.AddWatched | server/routes/reviews.js:41-49 | only the caller's watched list grows; every other user, and every other field, stays as it was |
| Reviews.CreateReview | server/routes/reviews.js:10-58 | 400 iff the user has any review of the movie, active or not; 500 iff the rating is outside 1..5 or the title or content is empty; no other failure; otherwise appends the new active review, refreshes the movie's aggregate and adds the movie to the caller's watched list |
| Reviews.CreateFaultKeepsReview | server/routes/reviews.js:35-38 | when the aggregate refresh fails, the review is still stored and the movies are untouched |
| Reviews.UpdateReview | server/routes/reviews.js:62-93 | 404 iff no review has the id; 403 iff the caller does not own it; 500 iff the owner sends a rating outside 1..5 or an empty title or content; failures are only 404, 403 or 500; otherwise only rating, title and content change, and the aggregate is refreshed |
| Reviews.DeleteReview | server/routes/reviews.js:96-119 | 404 or 403 as for update; otherwise the review is removed from the store and the aggregate is refreshed |
| Reviews.CreateWellFormed | server/routes/reviews.js:10-58 | creation keeps the store invariants: distinct ids, stars in range, one review per user and movie, each review's movie on its author's watched list |
| Reviews.UpdateWellFormed | server/routes/reviews.js:62-93 | an update keeps the store invariants |
| Reviews.DeleteWellFormed | server/routes/reviews.js:96-119 | a delete keeps the store invariants |
| Reviews.CreateConsistent | server/routes/reviews.js:38 | after a fault-free create, every movie's aggregate is the aggregate of its active reviews |
| Reviews.UpdateConsistent | server/routes/reviews.js:84 | after a fault-free update, every aggregate is consistent with the reviews |
| Reviews.DeleteConsistent | server/routes/reviews.js:113 | after a fault-free delete, every aggregate is consistent with the reviews |
| Reviews.Without | server/routes/reviews.js:133 | removes the user and keeps everyone else |
| Reviews.Toggle | server/routes/reviews.js:136-141 | adds the user when absent and removes them when present; no one else's membership changes |
| Reviews.Like | server/routes/reviews.js:132-141 | the user leaves dislikes and flips like-membership; nobody else's reactions change |
| Reviews.Dislike | server/routes/reviews.js:167-176 | the user leaves likes and flips dislike-membership; nobody else's reactions change |
| Reviews.LikeTwice | server/routes/reviews.js:132-141 | liking twice restores the likes and leaves the user out of dislikes |
| Reviews.DislikeTwice | server/routes/reviews.js:167-176 | disliking twice restores the dislikes and leaves the user out of likes |
| Reviews.React | server/routes/reviews.js:122-189 | 404 for an unknown review; the counts returned are the list lengths; `userLiked`/`userDisliked` say whether the caller is on the new lists, never both; a like is on exactly when the caller had not liked before (dislike alike) |
| Reviews.ReactPreserves | server/routes/reviews.js:143 | a reaction keeps the store invariants and every aggregate |
| Reviews.UserReviews | server/routes/reviews.js:192-205 | exactly the user's active reviews, newest first |
| Reviews.RoundingExample | server/routes/reviews.js:220-226 | ratings 4, 4, 5 give 4.3 from 3 reviews, and a fourth review rated 2 gives 3.8 from 4 |
| Profile.Sightings | server/routes/recommendations.js:25-35 | a review adds its rating once to each genre of its movie; a review whose movie is missing adds nothing |
| Profile.GenreStreamSound | server/routes/recommendations.js:25-35 | every (genre, rating) sighting comes from one of the user's reviews |
| Profile.GenreStreamComplete | server/routes/recommendations.js:25-35 | every genre of every reviewed, existing movie is sighted with that review's rating |
| Profile.TopGenres | server/routes/recommendations.js:37-44 | at most 3 genres, each reviewed and paired with its mean; means non-increasing; ties in first-seen order; no genre left out has a higher mean; empty exactly when nothing was sighted |
| Recommendations.RecommendFacts | server/routes/recommendations.js:47-70 | at most 10; active and unwatched; matches before backfill; each group ranked by (average, count); no better match left out; a match is left out only when the list is ten matches (backfill runs only when fewer than ten matched); no unlisted active unwatched movie ranks above a backfilled one; when short, every active unwatched movie is listed; distinct when the store ids are |
| Recommendations.ForYou | server/routes/recommendations.js:9-80 | 500 when the user or a watched movie is missing; otherwise `basedOn` is the top-3 profile of all of the user's reviews, and the recommendations satisfy the facts above |
| Recommendations.ForYouSkipsReviewed | server/routes/recommendations.js:20 | never recommends a movie the caller has reviewed |
| Recommendations.Similar | server/routes/recommendations.js:82-102 | 404 iff no movie has the id; otherwise at most 8 active movies sharing a genre, not the movie itself, none more often than stored, by average desc, none better left out, and all of them when fewer than 8 |
| Tallies.TopCounts | server/routes/recommendations.js:120-123 | at most n keys with their exact occurrence counts; counts non-increasing; ties in first-seen order; no key left out has a higher count |
| Trending.RecentCounted | server/routes/recommendations.js:109-118 | the count of a movie is the number of its active reviews created within the window |
| Trending.RecentSighted | server/routes/recommendations.js:114-118 | a movie is counted iff it has at least one recent active review |
| Trending.TrendingIds | server/routes/recommendations.js:120-123 | at most 10 distinct ids with count at least 1, by count desc, ties in first-seen order; no id left out has more reviews; all of them when fewer than 10 |
| Trending.Resolve | server/routes/recommendations.js:125-132 | keeps, in id order, each listed id that has an active movie, and drops the rest |
| Trending.Trending | server/routes/recommendations.js:104-138 | at most 10 active movies with recent reviews, by count desc, ties in first-seen order, no active movie left out ahead of a listed one; when the top ids are fewer than 10, every active movie with recent reviews; the result is exactly the top-10 trending ids resolved in order, with ids lacking an active movie dropped and not refilled |
| Text.IsInfixIff | server/routes/movies.js:22-24 | the recursive substring test holds iff the query occurs at some position |
| Text.ContainsIgnoringCaseFacts | server/routes/movies.js:22-24 | the empty query matches every title, a title matches itself, and a match is never longer than the title |
| Text.Trim | server/models/Movie.js:4-8 | strips only white space, from both ends, and leaves none at either end |
| Text.TrimIdempotent | server/models/Movie.js:7 | trimming a trimmed title changes nothing |
| Text.TrimUnpadded | server/models/Movie.js:7 | a title with no white space at either end is left as it is by the setter |
| Catalogue.OrderingIsStrictWeak | server/routes/movies.js:32-39 | each sort field, ascending or descending, is a strict weak order |
| Catalogue.Arranged | server/routes/movies.js:19-42 | exactly the listed movies, sorted by the chosen field when `sortBy` names one |
| Catalogue.Page | server/routes/movies.js:43-44 | skips (page−1)·limit movies and takes at most `limit`, or all the rest when the limit is 0 |
| Catalogue.CeilDiv | server/routes/movies.js:50 | the least t with t·limit ≥ total |
| Catalogue.ListMovies | server/routes/movies.js:8-57 | 500 iff page < 1 with a positive limit; otherwise every movie is listed (active, matching the search and genre), at most `limit`, `total` counts every match, and `totalPages` is the ceiling; the page is page `page` of some arrangement of the matches (sorted by the chosen field), whichever way ties are broken; with limit 0, on any page, every match comes back and `totalPages` is absent |
| Catalogue.PagesCover | server/routes/movies.js:43-50 | pages 1..ceil(n/limit) concatenate to the whole list; each is non-empty, and every later page is empty |
| Catalogue.ListPagesCover | server/routes/movies.js:41-53 | when no two matches tie on the sort key, the listing's pages 1..totalPages together hold every match exactly once, sorted, and equal every sorted arrangement of the matches |
| Catalogue.GetMovie | server/routes/movies.js:60-80 | 404 iff no movie has the id; otherwise that movie, even if inactive, and exactly its active reviews, each as often as stored, newest first |
| Catalogue.SoftDelete | server/routes/movies.js:113-129 | 404 iff no movie has the id; otherwise only `isActive` of that movie becomes false |
| Catalogue.SoftDeleteIdempotent | server/routes/movies.js:115-119 | deleting twice is the same as deleting once |
| Catalogue.SoftDeleteHides | server/routes/movies.js:115-119 | with distinct ids the movie is inactive afterwards; ids and aggregates stay consistent |
| Catalogue.Popular | server/routes/movies.js:132-142 | at most 10 active movies by (average desc, count desc); none better left out; all of them when fewer than 10 |
| Users.MeanRating | server/routes/users.js:29-31 | 0 for no reviews; otherwise mean × n equals the rating sum |
| Users.Profile | server/routes/users.js:9-38 | 404 iff the user is missing; otherwise the user's active reviews newest first, their number and mean, and the length of the watched list |
| Users.MeanOfPermutation | server/routes/users.js:29-31 | the mean does not depend on the order of the reviews |
| Users.UpdateProfile | server/routes/users.js:41-67 | 400 iff a non-empty new username differs from the caller's and some user holds it; otherwise empty strings keep the old username and bio, any given genre list replaces the old one, and nothing else changes |
| Users.UpdateKeepsUsernamesUnique | server/routes/users.js:45-58 | an update keeps usernames unique |
| Users.WatchStreamCounts | server/routes/users.js:81-86 | a genre's count is the number of watched movies that have it |
| Users.FavoriteGenres | server/routes/users.js:88-91 | at most 5 genres with exact counts; counts non-increasing; ties in first-seen order; no genre left out counted higher; all of them when fewer than 5 |
| Users.NewestReviews | server/routes/users.js:75-78 | at most n of the user's active reviews, newest first; none newer left out; all of them when fewer than n |
| Sorting.SortStable | server/routes/users.js:104 | the sort is stable, as `Array.prototype.sort` is: the ties of any element come out in the order they went in |
| Users.RecentlyWatched | server/routes/users.js:103-105 | at most 10 entries, most recent first; none later left out; all of them when fewer than 10; entries watched at the same time keep list order, and the earliest-listed of them make the cut |
| Users.Dashboard | server/routes/users.js:70-110 | 500 iff the user or a watched movie is missing; otherwise the statistics cover only the 10 newest active reviews (some valid newest-ten cut, under any tie-break), `recentReviews` is the first min(5, n) of them, plus the genre counts and the recently watched list |
| MovieSchema.SaveMovie | server/models/Movie.js:3-71 | saves iff every required path is present and non-empty after trimming the title, each genre entry is present and non-empty, and the average is in [0, 5]; fills the defaults |
| MovieSchema.SaveRoundTrip | server/models/Movie.js:3-71 | saving a valid stored movie's own fields gives the same movie back |
| MovieSchema.NewMovieDefaults | server/models/Movie.js:36-68 | a movie given only its required paths starts unrated (0/0), active, with no trailer and no box office |
| BrowsePage.ParseShowInt | src/pages/Movies.jsx:35-40 | reading back a written page number gives the number |
| BrowsePage.ReadQuery | server/routes/movies.js:10-17 | the route reads search and genre as the empty string when absent, and the other parameters as given |
| BrowsePage.RequestLookups | src/pages/Movies.jsx:35-48 | the request always carries page, limit 12, sortBy and `desc`; search only when non-empty; genre only when set and not `all` |
| BrowsePage.RequestRoundTrip | src/pages/Movies.jsx:35-48 | the route reads back exactly the listing the page means, and omitting `all` selects the same movies as sending it |
| BrowsePage.Slots | src/pages/Movies.jsx:150-178 | items in page order; an item for page p is rendered exactly as page p's rule says |
| BrowsePage.PagerOf | src/pages/Movies.jsx:138-189 | rendered iff totalPages > 1; Previous disabled iff on page 1; Next disabled iff on the last page; a button for exactly the pages that are 1, the last, or within 2; an ellipsis for exactly the hidden pages 3 away |
| BrowsePage.OneGapPerRun | src/pages/Movies.jsx:153-162 | between neighbouring buttons there is an ellipsis iff pages are skipped, and never more than one |
| BrowsePage.Target | src/pages/Movies.jsx:140-183 | a control leads somewhere only when rendered and enabled: Previous to page − 1, Next to page + 1, a number to its page |
| BrowsePage.Step | src/pages/Movies.jsx:19-78 | a new search term, genre or sort resets to page 1; a control moves to its page; the debounce copies the term; nothing else changes |
| BrowsePage.StepKeepsPage | src/pages/Movies.jsx:60-78 | no event takes the page below 1, and the controls keep it within 1..totalPages |
| BrowsePage.RunKeepsPage | src/pages/Movies.jsx:60-78 | after any sequence of events the page is still at least 1 |
| BrowsePage.BrowseListing | src/pages/Movies.jsx:28-52 | from the first render on, every listing request succeeds and returns that page of the intended listing (a page of some sorted arrangement of the matches, under any tie-break), at most 12 movies |

## Left out

- Floating point: averages are exact. The aggregate is an integer number of tenths rounded half up. The profile and dashboard means are reals. Where `Math.round` on doubles rounds a boundary value differently, the model does not follow it.
- Regular expressions: the title search is a case-insensitive substring match. Regex metacharacters in the search term, and case folding beyond ASCII, are not modelled.
- Dates: time is integer milliseconds, and the thirty-day window is a constant. Daylight-saving shifts in `setDate` are not modelled.
- `Object.entries` lists integer-like keys first. The model keeps first-seen order for every key, which matches for ObjectId strings and ordinary genre names.
- Concurrency: two review writes on the same movie racing in `updateMovieRating` are not modelled. Every route is one atomic step.
- Mongo sorts leave ties unspecified; the model breaks them by store order. Contracts on a single query state what holds for every tie-break. Users.Dashboard, BrowsePage.BrowseListing and Catalogue.ListAtPage also equate their result with the store-order answer, besides a clause that holds for every tie-break. The page-walking helpers of Catalogue.ListPagesCover are stated against the store order (`Arranged`) only. Catalogue.ListPagesCover relates several page queries and so requires that no two matches tie on the sort key (see Notes on the code).
- The `protect` and `admin` middleware and authentication: the caller's id is a parameter.
- Users.UpdateProfile requires the caller to exist, because the middleware has already loaded them.
- server/models/User.js and server/models/Review.js are not part of this model.
- Reviews.CreateReview, Reviews.UpdateReview: the 500 for a rating outside 1..5, and for an empty title or content, is an assumption about the Review schema, which is not part of this model. Both review forms mark the title and content `required` (src/pages/MovieDetail.jsx:272,285; src/components/ReviewCard.jsx:108,121). Whether the schema trims white space before that check is not known, so a title of only spaces is accepted. server/routes/reviews.js:10-93 does no range check itself. The range is the one the star widget offers (src/components/StarRating.jsx:33).
- Recommendations.ForYou and Users.Dashboard answer 500 when the caller's record or a watched movie is missing. In the source, that is a `null` dereference inside the handler.
- Catalogue.ListMovies: `limit` is a natural number. A negative limit, and non-numeric `page` or `limit` strings coerced by JavaScript, are not modelled. BrowsePage.ReadQuery gives nothing for such strings.
- The admin create and update routes (server/routes/movies.js:83-110) are modelled only through the schema they save through: MovieSchema.SaveMovie. Update's partial bodies are not modelled.
- MovieSchema.SaveMovie: values of the wrong type (a cast error) and the `createdAt`/`updatedAt` timestamps are not modelled.
- BrowsePage.Lookup: a query key given more than once, which Express reads as an array, is not modelled; the first value is taken.
- Rendering, `window.scrollTo`, the loading flag, the axios call and its error logging are left out. The 300 ms debounce timer is an explicit `Settle` event.
- Response population (`populate`, `select`) only shapes the JSON and is left out.

## Notes on the code

- Deleting a review removes it physically (server/routes/reviews.js:110). The `isActive` flag on reviews is never cleared by any route.
- The duplicate check on creation finds any review of the movie by the user, active or not (server/routes/reviews.js:15-18).
- The genre profile of for-you reads all of the user's reviews, active or not (server/routes/recommendations.js:14).
- The schema allows an empty genre list. Only each entry is required (server/models/Movie.js:20-23).
- Paging a sorted listing with `skip`/`limit` (server/routes/movies.js:41-44) runs one query per page. When matches tie on the sort key, the store may order the ties differently from one query to the next, so a movie can show on two pages or on none. Ties are common: every new movie has average 0 (server/models/Movie.js:41-46), so `sortBy=rating` ties them all.
- `page=0&limit=0` (or any page below 1 with limit 0) is not an error: the skip `(page - 1) * 0` is `-0`, which the store accepts as 0, and `limit(0)` means no limit, so every match comes back (server/routes/movies.js:42-44).
- The dashboard's `totalReviews` and `averageRating` cover only the 10 newest active reviews (server/routes/users.js:75-78), not all of them.
