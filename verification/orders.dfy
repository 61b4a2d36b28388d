/** The orderings the routes sort by, each a "ranks strictly before" relation, and the
    fact that each is a strict weak order (so the sort arranges by it). */
module Orders {

  import opened Sorting
  import opened Domain

  /** `sort({ 'rating.average': -1, 'rating.count': -1 })`: higher average first, then
      more reviews first. */
  predicate RanksAbove(a: Movie, b: Movie) {
    a.rating.average > b.rating.average
    || (a.rating.average == b.rating.average && a.rating.count > b.rating.count)
  }

  /** `sort({ 'rating.average': -1 })`. */
  predicate AverageAbove(a: Movie, b: Movie) {
    a.rating.average > b.rating.average
  }

  /** `sort({ createdAt: -1 })`: newest review first. */
  predicate CreatedAfter(a: Review, b: Review) {
    a.createdAt > b.createdAt
  }

  /** `sort((a, b) => new Date(b.watchedAt) - new Date(a.watchedAt))`: most recently
      watched first. */
  predicate WatchedAfter(a: Watched, b: Watched) {
    a.watchedAt > b.watchedAt
  }

  /** Newest first: creation times never increase along the list. */
  ghost predicate NewestFirst(rs: seq<Review>) {
    forall i, j :: 0 <= i < j < |rs| ==> rs[i].createdAt >= rs[j].createdAt
  }

  lemma RanksAboveOrder()
    ensures StrictWeakOrder(RanksAbove)
  {
  }

  lemma AverageAboveOrder()
    ensures StrictWeakOrder(AverageAbove)
  {
  }

  lemma CreatedAfterOrder()
    ensures StrictWeakOrder(CreatedAfter)
  {
  }

  lemma WatchedAfterOrder()
    ensures StrictWeakOrder(WatchedAfter)
  {
  }
}
