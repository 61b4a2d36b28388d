/** Running tallies keyed by a value: the `{ [key]: { total, count } }` objects the
    routes build with `forEach`, and the `Object.entries(..).sort(..).slice(0, n)` that
    ranks them. Entries are kept in the order their keys were first seen, which is the
    order `Object.entries` reports them in for string keys. */
module Tallies {

  import opened Wrappers
  import opened Seqs
  import opened Sorting

  /** One accumulator: its key, the sum of the weights seen for it, how many times it
      was seen, and `rank`, its position among the keys in order of first sighting. */
  datatype Stat<K> = Stat(key: K, total: int, count: nat, rank: nat)

  function IndexOf<K(==)>(stats: seq<Stat<K>>, k: K): (r: Option<nat>)
    ensures r.Some? ==> r.value < |stats| && stats[r.value].key == k
    ensures r.None? ==> forall i :: 0 <= i < |stats| ==> stats[i].key != k
  {
    if stats == [] then None
    else if stats[0].key == k then Some(0)
    else match IndexOf(stats[1..], k)
      case None => None
      case Some(i) => Some(i + 1)
  }

  /** Adds one sighting of `k` with weight `w`: `if (!acc[k]) acc[k] = { total: 0, count: 0 };
      acc[k].total += w; acc[k].count++`. */
  function Bump<K(==)>(stats: seq<Stat<K>>, k: K, w: int): seq<Stat<K>> {
    match IndexOf(stats, k)
    case Some(i) => stats[i := stats[i].(total := stats[i].total + w, count := stats[i].count + 1)]
    case None => stats + [Stat(k, w, 1, |stats|)]
  }

  /** The tally of a stream of (key, weight) sightings, scanned left to right. */
  function Tally<K(==)>(stream: seq<(K, int)>): seq<Stat<K>>
    decreases |stream|
  {
    if stream == [] then []
    else
      var n := |stream| - 1;
      Bump(Tally(stream[..n]), stream[n].0, stream[n].1)
  }

  // ---- Reference definitions, independent of the accumulator ----

  /** How many sightings of `k` the stream holds. */
  function Occurrences<K(==)>(stream: seq<(K, int)>, k: K): nat
    decreases |stream|
  {
    if stream == [] then 0
    else
      var n := |stream| - 1;
      Occurrences(stream[..n], k) + (if stream[n].0 == k then 1 else 0)
  }

  /** The sum of the weights of the sightings of `k`. */
  function WeightOf<K(==)>(stream: seq<(K, int)>, k: K): int
    decreases |stream|
  {
    if stream == [] then 0
    else
      var n := |stream| - 1;
      WeightOf(stream[..n], k) + (if stream[n].0 == k then stream[n].1 else 0)
  }

  ghost function StreamKeys<K>(stream: seq<(K, int)>): set<K> {
    set j | 0 <= j < |stream| :: stream[j].0
  }

  ghost function Keys<K>(stats: seq<Stat<K>>): set<K> {
    set i | 0 <= i < |stats| :: stats[i].key
  }

  /** Where `k` is first sighted. */
  ghost function FirstIndex<K>(stream: seq<(K, int)>, k: K): (r: nat)
    requires k in StreamKeys(stream)
    ensures r < |stream| && stream[r].0 == k
    ensures forall j :: 0 <= j < r ==> stream[j].0 != k
    decreases |stream|
  {
    var n := |stream| - 1;
    if k in StreamKeys(stream[..n]) then FirstIndex(stream[..n], k) else n
  }

  lemma {:induction false} AppendKeys<K>(stream: seq<(K, int)>)
    requires stream != []
    ensures StreamKeys(stream) == StreamKeys(stream[..|stream| - 1]) + {stream[|stream| - 1].0}
  {
    var n := |stream| - 1;
    forall k | k in StreamKeys(stream) ensures k in StreamKeys(stream[..n]) + {stream[n].0} {
      var j :| 0 <= j < |stream| && stream[j].0 == k;
      if j < n {
        assert stream[..n][j].0 == k;
      }
    }
    forall k | k in StreamKeys(stream[..n]) ensures k in StreamKeys(stream) {
      var j :| 0 <= j < n && stream[..n][j].0 == k;
      assert stream[j].0 == k;
    }
  }

  lemma {:induction false} AbsentKey<K>(stream: seq<(K, int)>, k: K)
    requires k !in StreamKeys(stream)
    ensures Occurrences(stream, k) == 0 && WeightOf(stream, k) == 0
    decreases |stream|
  {
    if stream != [] {
      AppendKeys(stream);
      AbsentKey(stream[..|stream| - 1], k);
    }
  }

  lemma {:induction false} PresentKey<K>(stream: seq<(K, int)>, k: K)
    requires k in StreamKeys(stream)
    ensures Occurrences(stream, k) >= 1
    decreases |stream|
  {
    var n := |stream| - 1;
    AppendKeys(stream);
    if k in StreamKeys(stream[..n]) {
      PresentKey(stream[..n], k);
    }
  }

  /** Counting a stream in two parts adds up. */
  lemma {:induction false} OccurrencesConcat<K>(a: seq<(K, int)>, b: seq<(K, int)>, k: K)
    ensures Occurrences(a + b, k) == Occurrences(a, k) + Occurrences(b, k)
    decreases |b|
  {
    if b == [] {
      assert a + b == a;
    } else {
      var n := |b| - 1;
      OccurrencesConcat(a, b[..n], k);
      var ab := a + b;
      assert ab[..|ab| - 1] == a + b[..n];
    }
  }

  /** What the accumulator holds after any stream: one entry per distinct key, in order
      of first sighting, each with the key's exact count and weight sum. */
  ghost predicate Accurate<K>(stats: seq<Stat<K>>, stream: seq<(K, int)>) {
    && Keys(stats) == StreamKeys(stream)
    && (forall i :: 0 <= i < |stats| ==> stats[i].rank == i)
    && (forall i, j :: 0 <= i < j < |stats| ==> stats[i].key != stats[j].key)
    && (forall i :: 0 <= i < |stats| ==>
          stats[i].count == Occurrences(stream, stats[i].key)
          && stats[i].total == WeightOf(stream, stats[i].key))
    && FirstSeenOrder(stats, stream)
  }

  ghost predicate FirstSeenOrder<K>(stats: seq<Stat<K>>, stream: seq<(K, int)>) {
    forall i, j :: 0 <= i < j < |stats| ==>
      stats[i].key in StreamKeys(stream) && stats[j].key in StreamKeys(stream)
      && FirstIndex(stream, stats[i].key) < FirstIndex(stream, stats[j].key)
  }

  /** How one more sighting changes the reference definitions. */
  lemma Extend<K>(prev: seq<(K, int)>, k: K, w: int)
    ensures var s := prev + [(k, w)];
      && s[..|prev|] == prev
      && StreamKeys(s) == StreamKeys(prev) + {k}
      && (forall x :: Occurrences(s, x) == Occurrences(prev, x) + (if x == k then 1 else 0))
      && (forall x :: WeightOf(s, x) == WeightOf(prev, x) + (if x == k then w else 0))
      && (forall x :: x in StreamKeys(prev) ==> FirstIndex(s, x) == FirstIndex(prev, x))
      && (k !in StreamKeys(prev) ==> FirstIndex(s, k) == |prev|)
  {
    var s := prev + [(k, w)];
    assert s[..|prev|] == prev;
    AppendKeys(s);
  }

  lemma SameKeys<K>(a: seq<Stat<K>>, b: seq<Stat<K>>)
    requires |a| == |b| && forall j :: 0 <= j < |a| ==> a[j].key == b[j].key
    ensures Keys(a) == Keys(b)
  {
    forall x | x in Keys(a) ensures x in Keys(b) {
      var j :| 0 <= j < |a| && a[j].key == x;
      assert b[j].key == x;
    }
    forall x | x in Keys(b) ensures x in Keys(a) {
      var j :| 0 <= j < |b| && b[j].key == x;
      assert a[j].key == x;
    }
  }

  /** A sighting of a key already in the tally updates its entry in place. */
  lemma BumpSeen<K>(before: seq<Stat<K>>, prev: seq<(K, int)>, k: K, w: int, i: nat)
    requires Accurate(before, prev)
    requires i < |before| && before[i].key == k
    ensures Accurate(before[i := before[i].(total := before[i].total + w, count := before[i].count + 1)], prev + [(k, w)])
  {
    var s := prev + [(k, w)];
    var after := before[i := before[i].(total := before[i].total + w, count := before[i].count + 1)];
    Extend(prev, k, w);
    SameKeys(after, before);
    assert k in Keys(before);
    assert Keys(after) == StreamKeys(s);
    BumpSeenCounts(before, prev, k, w, i, after);
    BumpSeenOrder(before, prev, k, w, after);
  }

  lemma BumpSeenCounts<K>(before: seq<Stat<K>>, prev: seq<(K, int)>, k: K, w: int, i: nat, after: seq<Stat<K>>)
    requires forall j :: 0 <= j < |before| ==>
      before[j].count == Occurrences(prev, before[j].key) && before[j].total == WeightOf(prev, before[j].key)
    requires forall a, b :: 0 <= a < b < |before| ==> before[a].key != before[b].key
    requires i < |before| && before[i].key == k
    requires after == before[i := before[i].(total := before[i].total + w, count := before[i].count + 1)]
    ensures forall j :: 0 <= j < |after| ==>
      after[j].count == Occurrences(prev + [(k, w)], after[j].key) && after[j].total == WeightOf(prev + [(k, w)], after[j].key)
  {
    var s := prev + [(k, w)];
    Extend(prev, k, w);
    forall j | 0 <= j < |after|
      ensures after[j].count == Occurrences(s, after[j].key)
      ensures after[j].total == WeightOf(s, after[j].key)
    {
      if j != i {
        assert before[j].key != k;
      }
    }
  }

  lemma BumpSeenOrder<K>(before: seq<Stat<K>>, prev: seq<(K, int)>, k: K, w: int, after: seq<Stat<K>>)
    requires FirstSeenOrder(before, prev)
    requires Keys(before) == StreamKeys(prev)
    requires |after| == |before| && forall j :: 0 <= j < |after| ==> after[j].key == before[j].key
    ensures FirstSeenOrder(after, prev + [(k, w)])
  {
    var s := prev + [(k, w)];
    forall a | 0 <= a < |after| ensures after[a].key in StreamKeys(s) {
      assert before[a].key in Keys(before);
      FirstIndexKept(prev, k, w, before[a].key);
    }
    forall a, b | 0 <= a < b < |after|
      ensures FirstIndex(s, after[a].key) < FirstIndex(s, after[b].key)
    {
      assert after[a].key == before[a].key && after[b].key == before[b].key;
      KeptPair(before, prev, k, w, a, b);
    }
  }

  lemma KeptPair<K>(before: seq<Stat<K>>, prev: seq<(K, int)>, k: K, w: int, a: nat, b: nat)
    requires FirstSeenOrder(before, prev) && a < b < |before|
    ensures before[a].key in StreamKeys(prev + [(k, w)]) && before[b].key in StreamKeys(prev + [(k, w)])
    ensures FirstIndex(prev + [(k, w)], before[a].key) < FirstIndex(prev + [(k, w)], before[b].key)
  {
    var x, y := before[a].key, before[b].key;
    assert x in StreamKeys(prev) && y in StreamKeys(prev) && FirstIndex(prev, x) < FirstIndex(prev, y);
    FirstIndexKept(prev, k, w, before[a].key);
    FirstIndexKept(prev, k, w, before[b].key);
  }

  /** A key already sighted keeps its first sighting when the stream grows. */
  lemma FirstIndexKept<K>(prev: seq<(K, int)>, k: K, w: int, x: K)
    requires x in StreamKeys(prev)
    ensures x in StreamKeys(prev + [(k, w)])
    ensures FirstIndex(prev + [(k, w)], x) == FirstIndex(prev, x)
  {
    Extend(prev, k, w);
  }

  lemma KeysAppend<K>(before: seq<Stat<K>>, e: Stat<K>)
    ensures Keys(before + [e]) == Keys(before) + {e.key}
  {
    var after := before + [e];
    forall x | x in Keys(after) ensures x in Keys(before) + {e.key} {
      var j :| 0 <= j < |after| && after[j].key == x;
      if j < |before| {
        assert before[j].key == x;
      }
    }
    forall x | x in Keys(before) ensures x in Keys(after) {
      var j :| 0 <= j < |before| && before[j].key == x;
      assert after[j].key == x;
    }
    assert after[|before|].key == e.key;
  }

  /** A sighting of a new key appends an entry ranked after every other. */
  lemma BumpNew<K>(before: seq<Stat<K>>, prev: seq<(K, int)>, k: K, w: int)
    requires Accurate(before, prev)
    requires forall j :: 0 <= j < |before| ==> before[j].key != k
    ensures Accurate(before + [Stat(k, w, 1, |before|)], prev + [(k, w)])
  {
    var after := before + [Stat(k, w, 1, |before|)];
    Extend(prev, k, w);
    assert k !in Keys(before);
    AbsentKey(prev, k);
    KeysAppend(before, Stat(k, w, 1, |before|));
    BumpNewCounts(before, prev, k, w, after);
    BumpNewOrder(before, prev, k, w, after);
  }

  lemma BumpNewCounts<K>(before: seq<Stat<K>>, prev: seq<(K, int)>, k: K, w: int, after: seq<Stat<K>>)
    requires forall j :: 0 <= j < |before| ==>
      before[j].count == Occurrences(prev, before[j].key) && before[j].total == WeightOf(prev, before[j].key)
    requires forall j :: 0 <= j < |before| ==> before[j].key != k
    requires Occurrences(prev, k) == 0 && WeightOf(prev, k) == 0
    requires after == before + [Stat(k, w, 1, |before|)]
    ensures forall j :: 0 <= j < |after| ==>
      after[j].count == Occurrences(prev + [(k, w)], after[j].key) && after[j].total == WeightOf(prev + [(k, w)], after[j].key)
  {
    var s := prev + [(k, w)];
    Extend(prev, k, w);
    forall j | 0 <= j < |after|
      ensures after[j].count == Occurrences(s, after[j].key)
      ensures after[j].total == WeightOf(s, after[j].key)
    {
      if j < |before| {
        assert after[j] == before[j];
      }
    }
  }

  lemma BumpNewOrder<K>(before: seq<Stat<K>>, prev: seq<(K, int)>, k: K, w: int, after: seq<Stat<K>>)
    requires FirstSeenOrder(before, prev)
    requires Keys(before) == StreamKeys(prev) && k !in StreamKeys(prev)
    requires after == before + [Stat(k, w, 1, |before|)]
    ensures FirstSeenOrder(after, prev + [(k, w)])
  {
    var s := prev + [(k, w)];
    FirstIndexNew(prev, k, w);
    forall a | 0 <= a < |after| ensures after[a].key in StreamKeys(s) {
      if a < |before| {
        assert after[a] == before[a] && before[a].key in Keys(before);
        FirstIndexKept(prev, k, w, before[a].key);
      }
    }
    forall a, b | 0 <= a < b < |after|
      ensures FirstIndex(s, after[a].key) < FirstIndex(s, after[b].key)
    {
      assert after[a] == before[a];
      if b < |before| {
        assert after[b] == before[b];
        KeptPair(before, prev, k, w, a, b);
      } else {
        assert before[a].key in Keys(before);
        FirstIndexKept(prev, k, w, before[a].key);
      }
    }
  }

  /** A key sighted for the first time is first sighted at the end of the stream. */
  lemma FirstIndexNew<K>(prev: seq<(K, int)>, k: K, w: int)
    requires k !in StreamKeys(prev)
    ensures k in StreamKeys(prev + [(k, w)]) && FirstIndex(prev + [(k, w)], k) == |prev|
  {
    Extend(prev, k, w);
  }


  lemma {:induction false} TallyAccurate<K>(stream: seq<(K, int)>)
    ensures Accurate(Tally(stream), stream)
    decreases |stream|
  {
    if stream == [] {
      assert Keys(Tally(stream)) == {};
    } else {
      var n := |stream| - 1;
      var prev := stream[..n];
      var k, w := stream[n].0, stream[n].1;
      assert stream == prev + [(k, w)];
      var before := Tally(prev);
      TallyAccurate(prev);
      match IndexOf(before, k)
      case Some(i) => BumpSeen(before, prev, k, w, i);
      case None => BumpNew(before, prev, k, w);
    }
  }

  // ---- Rankings of a tally ----

  /** Higher count first; equal counts keep first-sighting order. This is what a
      stable `sort(([, a], [, b]) => b - a)` does to entries listed in that order. */
  predicate CountAbove<K>(a: Stat<K>, b: Stat<K>) {
    a.count > b.count || (a.count == b.count && a.rank < b.rank)
  }

  /** The mean weight of a key, `total / count`. */
  function Mean<K>(s: Stat<K>): real {
    if s.count == 0 then 0.0 else s.total as real / s.count as real
  }

  /** Higher mean first; equal means keep first-sighting order. */
  predicate MeanAbove<K>(a: Stat<K>, b: Stat<K>) {
    Mean(a) > Mean(b) || (Mean(a) == Mean(b) && a.rank < b.rank)
  }

  lemma CountAboveOrder<K(!new)>()
    ensures StrictWeakOrder(CountAbove<K>)
  {
  }

  lemma MeanAboveOrder<K(!new)>()
    ensures StrictWeakOrder(MeanAbove<K>)
  {
  }

  lemma TakeSortMultiset<T(!new)>(lt: (T, T) -> bool, t: seq<T>, n: nat)
    ensures multiset(Take(Sort(lt, t), n)) <= multiset(t)
  {
    var s := Sort(lt, t);
    var r := Take(s, n);
    var rest := s[|r|..];
    assert s == r + rest;
    assert multiset(s) == multiset(r) + multiset(rest);
  }

  /** A ranking cut from a tally holds tally entries only, each at most once. */
  lemma RankedMembers<K(!new)>(lt: (Stat<K>, Stat<K>) -> bool, t: seq<Stat<K>>, n: nat, r: seq<Stat<K>>)
    requires r == Take(Sort(lt, t), n)
    ensures multiset(r) <= multiset(t)
    ensures forall i :: 0 <= i < |r| ==> r[i] in t
  {
    TakeSortMultiset(lt, t, n);
    forall i | 0 <= i < |r| ensures r[i] in t {
      assert r[i] in multiset(r);
    }
  }

  /** A ranking cut from a tally: each entry is an accurate, sighted key, and keys are
      distinct. */
  lemma RankedEntries<K(!new)>(lt: (Stat<K>, Stat<K>) -> bool, t: seq<Stat<K>>, stream: seq<(K, int)>, n: nat, r: seq<Stat<K>>)
    requires r == Take(Sort(lt, t), n)
    requires Accurate(t, stream)
    ensures forall i :: 0 <= i < |r| ==>
      && r[i].key in StreamKeys(stream)
      && r[i].count == Occurrences(stream, r[i].key) >= 1
      && r[i].total == WeightOf(stream, r[i].key)
    ensures forall i, j :: 0 <= i < j < |r| ==> r[i].key != r[j].key
  {
    RankedMembers(lt, t, n, r);
    forall i | 0 <= i < |r|
      ensures r[i].key in StreamKeys(stream)
      ensures r[i].count == Occurrences(stream, r[i].key) >= 1
      ensures r[i].total == WeightOf(stream, r[i].key)
    {
      var a :| 0 <= a < |t| && t[a] == r[i];
      assert r[i].key in Keys(t);
      PresentKey(stream, r[i].key);
    }
    assert DistinctBy(StatKey<K>, t) by {
      forall i, j | 0 <= i < j < |t| ensures StatKey(t[i]) != StatKey(t[j]) {
      }
    }
    DistinctBySub(StatKey<K>, t, r);
    forall i, j | 0 <= i < j < |r| ensures r[i].key != r[j].key {
      assert StatKey(r[i]) != StatKey(r[j]);
    }
  }

  /** In a ranking cut from a tally, a smaller rank means an earlier first sighting. */
  lemma RankedFirstSeen<K(!new)>(lt: (Stat<K>, Stat<K>) -> bool, t: seq<Stat<K>>, stream: seq<(K, int)>, n: nat, r: seq<Stat<K>>)
    requires r == Take(Sort(lt, t), n)
    requires Accurate(t, stream)
    ensures forall i, j :: 0 <= i < |r| && 0 <= j < |r| && r[i].rank < r[j].rank ==>
      r[i].key in StreamKeys(stream) && r[j].key in StreamKeys(stream) &&
      FirstIndex(stream, r[i].key) < FirstIndex(stream, r[j].key)
  {
    RankedMembers(lt, t, n, r);
    forall i, j | 0 <= i < |r| && 0 <= j < |r| && r[i].rank < r[j].rank
      ensures r[i].key in StreamKeys(stream) && r[j].key in StreamKeys(stream)
      ensures FirstIndex(stream, r[i].key) < FirstIndex(stream, r[j].key)
    {
      var a :| 0 <= a < |t| && t[a] == r[i];
      var b :| 0 <= b < |t| && t[b] == r[j];
      assert a < b;
    }
  }

  lemma RankedSorted<K(!new)>(lt: (Stat<K>, Stat<K>) -> bool, t: seq<Stat<K>>, n: nat, r: seq<Stat<K>>)
    requires r == Take(Sort(lt, t), n)
    requires StrictWeakOrder(lt)
    ensures SortedBy(lt, r)
  {
    SortSorted(lt, t);
    assert r == Sort(lt, t)[..|r|];
  }

  /** A ranking cut from a tally leaves out no key that ranks strictly before a kept
      one. */
  lemma RankedLeftOut<K(!new)>(lt: (Stat<K>, Stat<K>) -> bool, t: seq<Stat<K>>, stream: seq<(K, int)>, n: nat, r: seq<Stat<K>>)
    requires r == Take(Sort(lt, t), n)
    requires StrictWeakOrder(lt)
    requires Accurate(t, stream)
    ensures forall k, i :: k in StreamKeys(stream) && 0 <= i < |r| && KeyMissing(r, k) ==>
      exists s :: s in t && s.key == k && !lt(s, r[i])
  {
    var s := Sort(lt, t);
    SortSorted(lt, t);
    TakeSortedIsTop(lt, t, n);
    assert r == s[..|r|];
    forall k, i | k in StreamKeys(stream) && 0 <= i < |r| && KeyMissing(r, k)
      ensures exists s :: s in t && s.key == k && !lt(s, r[i])
    {
      assert k in Keys(t);
      var a :| 0 <= a < |t| && t[a].key == k;
      assert t[a] !in r;
      assert !lt(t[a], r[i]);
    }
  }

  /** A ranking cut from a tally is short only when it kept every key. */
  lemma RankedShort<K(!new)>(lt: (Stat<K>, Stat<K>) -> bool, t: seq<Stat<K>>, stream: seq<(K, int)>, n: nat, r: seq<Stat<K>>)
    requires r == Take(Sort(lt, t), n)
    requires Accurate(t, stream)
    ensures |r| < n ==> forall k :: k in StreamKeys(stream) ==> !KeyMissing(r, k)
  {
    if |r| < n {
      var s := Sort(lt, t);
      assert r == s;
      forall k | k in StreamKeys(stream) ensures !KeyMissing(r, k) {
        assert k in Keys(t);
        var a :| 0 <= a < |t| && t[a].key == k;
        assert t[a] in multiset(s);
        assert t[a] in r;
      }
    }
  }

  /** Entries of a ranking cut from a tally carry distinct ranks. */
  lemma RankedRanks<K(!new)>(lt: (Stat<K>, Stat<K>) -> bool, t: seq<Stat<K>>, stream: seq<(K, int)>, n: nat, r: seq<Stat<K>>)
    requires r == Take(Sort(lt, t), n)
    requires Accurate(t, stream)
    ensures forall i, j :: 0 <= i < j < |r| ==> r[i].rank != r[j].rank
  {
    RankedMembers(lt, t, n, r);
    RankedEntries(lt, t, stream, n, r);
    forall i, j | 0 <= i < j < |r| ensures r[i].rank != r[j].rank {
      RankIdentifies(t, r[i], r[j]);
    }
  }

  /** In a list whose entries carry their own positions, the rank names the entry. */
  lemma RankIdentifies<K>(t: seq<Stat<K>>, x: Stat<K>, y: Stat<K>)
    requires forall i :: 0 <= i < |t| ==> t[i].rank == i
    requires x in t && y in t
    ensures x.rank == y.rank ==> x == y
  {
    var a :| 0 <= a < |t| && t[a] == x;
    var b :| 0 <= b < |t| && t[b] == y;
  }

  // ---- The count ranking: `Object.entries(counts).sort(([, a], [, b]) => b - a).slice(0, n)` ----

  /** The `n` most frequent keys of a stream with their counts, most frequent first. */
  function TopCounts<K(==,!new)>(stream: seq<(K, int)>, n: nat): (r: seq<Stat<K>>)
    ensures |r| <= n
    ensures CountsExact(r, stream)
    ensures CountsRanked(r, stream)
    ensures CountsTop(r, stream, n)
  {
    TopCountsFacts(stream, n);
    Take(Sort(CountAbove, Tally(stream)), n)
  }

  /** Each entry is a sighted key with its exact number of sightings; no key twice. */
  ghost predicate CountsExact<K>(r: seq<Stat<K>>, stream: seq<(K, int)>) {
    && (forall i :: 0 <= i < |r| ==> r[i].key in StreamKeys(stream) && r[i].count == Occurrences(stream, r[i].key) >= 1)
    && (forall i, j :: 0 <= i < j < |r| ==> r[i].key != r[j].key)
  }

  /** Counts never increase along the list, and equal counts keep first-sighting order. */
  ghost predicate CountsRanked<K>(r: seq<Stat<K>>, stream: seq<(K, int)>) {
    && (forall i, j :: 0 <= i < j < |r| ==> r[i].count >= r[j].count)
    && (forall i, j :: 0 <= i < j < |r| && r[i].count == r[j].count ==>
          r[i].key in StreamKeys(stream) && r[j].key in StreamKeys(stream) &&
          FirstIndex(stream, r[i].key) < FirstIndex(stream, r[j].key))
  }

  /** No key left out was seen more often than a kept one, and a list shorter than `n`
      left no key out. */
  ghost predicate CountsTop<K>(r: seq<Stat<K>>, stream: seq<(K, int)>, n: nat) {
    && (forall k, i :: k in StreamKeys(stream) && KeyMissing(r, k) && 0 <= i < |r| ==> Occurrences(stream, k) <= r[i].count)
    && (|r| < n ==> forall k :: k in StreamKeys(stream) ==> !KeyMissing(r, k))
  }

  lemma TopCountsFacts<K(!new)>(stream: seq<(K, int)>, n: nat)
    ensures CountsExact(Take(Sort(CountAbove, Tally(stream)), n), stream)
    ensures CountsRanked(Take(Sort(CountAbove, Tally(stream)), n), stream)
    ensures CountsTop(Take(Sort(CountAbove, Tally(stream)), n), stream, n)
  {
    TallyAccurate(stream);
    CountAboveOrder<K>();
    var r := Take(Sort(CountAbove, Tally(stream)), n);
    RankedEntries(CountAbove, Tally(stream), stream, n, r);
    CountsRankedOf(Tally(stream), stream, n, r);
    CountsTopOf(Tally(stream), stream, n, r);
  }

  lemma CountsRankedOf<K(!new)>(t: seq<Stat<K>>, stream: seq<(K, int)>, n: nat, r: seq<Stat<K>>)
    requires r == Take(Sort(CountAbove, t), n)
    requires Accurate(t, stream) && StrictWeakOrder(CountAbove<K>)
    ensures CountsRanked(r, stream)
  {
    RankedSorted(CountAbove, t, n, r);
    RankedFirstSeen(CountAbove, t, stream, n, r);
    RankedRanks(CountAbove, t, stream, n, r);
    forall i, j | 0 <= i < j < |r| ensures r[i].count >= r[j].count {
      assert !CountAbove(r[j], r[i]);
    }
    forall i, j | 0 <= i < j < |r| && r[i].count == r[j].count
      ensures r[i].key in StreamKeys(stream) && r[j].key in StreamKeys(stream)
      ensures FirstIndex(stream, r[i].key) < FirstIndex(stream, r[j].key)
    {
      assert !CountAbove(r[j], r[i]);
      assert r[i].rank < r[j].rank;
    }
  }

  lemma CountsTopOf<K(!new)>(t: seq<Stat<K>>, stream: seq<(K, int)>, n: nat, r: seq<Stat<K>>)
    requires r == Take(Sort(CountAbove, t), n)
    requires Accurate(t, stream) && StrictWeakOrder(CountAbove<K>)
    ensures CountsTop(r, stream, n)
  {
    RankedLeftOut(CountAbove, t, stream, n, r);
    RankedShort(CountAbove, t, stream, n, r);
    forall k, i | k in StreamKeys(stream) && KeyMissing(r, k) && 0 <= i < |r|
      ensures Occurrences(stream, k) <= r[i].count
    {
      var s: Stat<K> :| s in t && s.key == k && !CountAbove(s, r[i]);
      var a :| 0 <= a < |t| && t[a] == s;
    }
  }

  /** The keys of a ranking, in order: `.map(([key]) => key)`. */
  function KeysOf<K>(stats: seq<Stat<K>>): (r: seq<K>)
    ensures |r| == |stats| && forall i :: 0 <= i < |stats| ==> r[i] == stats[i].key
  {
    seq(|stats|, i requires 0 <= i < |stats| => stats[i].key)
  }

  /** No entry of `r` has key `k`. */
  ghost predicate KeyMissing<K>(r: seq<Stat<K>>, k: K) {
    forall j :: 0 <= j < |r| ==> r[j].key != k
  }

  function StatKey<K>(s: Stat<K>): K {
    s.key
  }
}
