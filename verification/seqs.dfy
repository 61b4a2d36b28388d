/** Sequence helpers shared by every query: filtering (a query's match condition),
    taking a prefix (`.limit(n)`, `.slice(0, n)`) and distinctness of keys. */
module Seqs {

  import opened Wrappers

  /** The position of the first element that satisfies `p` (`Array.prototype.findIndex`,
      or a `findOne` over a collection). */
  function Find<T>(p: T -> bool, xs: seq<T>): (r: Option<nat>)
    ensures r.Some? ==> r.value < |xs| && p(xs[r.value])
    ensures r.Some? ==> forall j :: 0 <= j < r.value ==> !p(xs[j])
    ensures r.None? <==> forall j :: 0 <= j < |xs| ==> !p(xs[j])
  {
    if xs == [] then None
    else if p(xs[0]) then Some(0)
    else match Find(p, xs[1..])
      case None => None
      case Some(i) => Some(i + 1)
  }

  /** The elements of `xs` that satisfy `p`, in their original order. Defined on the
      last element so that it lines up with the left-to-right scans of the routes. */
  function Filter<T>(p: T -> bool, xs: seq<T>): (r: seq<T>)
    ensures |r| <= |xs|
    ensures forall i :: 0 <= i < |r| ==> p(r[i])
    ensures forall i :: 0 <= i < |xs| && p(xs[i]) ==> xs[i] in r
    decreases |xs|
  {
    if xs == [] then []
    else
      var n := |xs| - 1;
      Filter(p, xs[..n]) + (if p(xs[n]) then [xs[n]] else [])
  }

  /** Filtering only drops elements: every value occurs in the result at most as often
      as in the input. */
  lemma {:induction false} FilterMultiset<T>(p: T -> bool, xs: seq<T>)
    ensures multiset(Filter(p, xs)) <= multiset(xs)
    decreases |xs|
  {
    if xs != [] {
      var n := |xs| - 1;
      assert xs == xs[..n] + [xs[n]];
      FilterMultiset(p, xs[..n]);
    }
  }

  /** Filtering keeps every occurrence of a value that passes and none of one that
      fails. */
  lemma {:induction false} FilterCount<T>(p: T -> bool, xs: seq<T>)
    ensures forall x :: multiset(Filter(p, xs))[x] == if p(x) then multiset(xs)[x] else 0
    decreases |xs|
  {
    if xs != [] {
      var n := |xs| - 1;
      assert xs == xs[..n] + [xs[n]];
      FilterCount(p, xs[..n]);
    }
  }

  lemma {:induction false} FilterAppend<T>(p: T -> bool, a: seq<T>, b: seq<T>)
    ensures Filter(p, a + b) == Filter(p, a) + Filter(p, b)
    decreases |b|
  {
    if b == [] {
      assert a + b == a;
    } else {
      var n := |b| - 1;
      assert (a + b)[..|a + b| - 1] == a + b[..n];
      FilterAppend(p, a, b[..n]);
    }
  }

  /** Two conditions that agree everywhere filter alike. */
  lemma {:induction false} FilterSame<T>(p: T -> bool, q: T -> bool, xs: seq<T>)
    requires forall x :: p(x) == q(x)
    ensures Filter(p, xs) == Filter(q, xs)
    decreases |xs|
  {
    if xs != [] {
      FilterSame(p, q, xs[..|xs| - 1]);
    }
  }

  /** What a prefix keeps is a prefix of what the whole list keeps. */
  lemma FilterTake<T>(p: T -> bool, xs: seq<T>, n: nat)
    ensures Filter(p, Take(xs, n)) <= Filter(p, xs)
  {
    var t := Take(xs, n);
    assert xs == t + xs[|t|..];
    FilterAppend(p, t, xs[|t|..]);
  }

  /** Filtering with a condition every element meets changes nothing. */
  lemma {:induction false} FilterAll<T>(p: T -> bool, xs: seq<T>)
    requires forall i :: 0 <= i < |xs| ==> p(xs[i])
    ensures Filter(p, xs) == xs
    decreases |xs|
  {
    if xs != [] {
      var n := |xs| - 1;
      var front := xs[..n];
      assert forall i :: 0 <= i < |front| ==> p(front[i]) by {
        forall i | 0 <= i < |front| ensures p(front[i]) {
          assert front[i] == xs[i];
        }
      }
      FilterAll(p, front);
      assert xs == front + [xs[n]];
    }
  }

  /** At most `n` elements from the front of `xs` (Mongo's `.limit(n)`, JS's `.slice(0, n)`). */
  function Take<T>(xs: seq<T>, n: nat): (r: seq<T>)
    ensures |r| <= n && r <= xs
    ensures |r| == n || r == xs
  {
    if |xs| <= n then xs else xs[..n]
  }

  /** No value occurs twice. */
  ghost predicate NoDup<T>(xs: seq<T>) {
    forall i, j :: 0 <= i < j < |xs| ==> xs[i] != xs[j]
  }

  /** No two elements share a key (distinct ids). */
  ghost predicate DistinctBy<T, K>(key: T -> K, xs: seq<T>) {
    forall i, j :: 0 <= i < j < |xs| ==> key(xs[i]) != key(xs[j])
  }

  lemma {:induction false} DistinctByCountsAtMostOne<T, K>(key: T -> K, xs: seq<T>)
    requires DistinctBy(key, xs)
    ensures forall v :: multiset(xs)[v] <= 1
    decreases |xs|
  {
    if xs != [] {
      var n := |xs| - 1;
      assert xs == xs[..n] + [xs[n]];
      DistinctByCountsAtMostOne(key, xs[..n]);
      assert xs[n] !in xs[..n] by {
        forall i | 0 <= i < n ensures xs[..n][i] != xs[n] {
          assert key(xs[i]) != key(xs[n]);
        }
      }
    }
  }

  lemma {:induction false} CountsAtMostOneNoDup<T>(ys: seq<T>)
    requires forall v :: multiset(ys)[v] <= 1
    ensures NoDup(ys)
    decreases |ys|
  {
    if ys != [] {
      var n := |ys| - 1;
      assert ys == ys[..n] + [ys[n]];
      assert multiset(ys) == multiset(ys[..n]) + multiset{ys[n]};
      forall v ensures multiset(ys[..n])[v] <= 1 {
        assert multiset(ys[..n])[v] <= multiset(ys)[v];
      }
      CountsAtMostOneNoDup(ys[..n]);
      assert multiset(ys)[ys[n]] <= 1;
      assert multiset(ys[..n])[ys[n]] == 0;
      assert ys[n] !in ys[..n];
    }
  }

  /** Whatever is drawn from a sequence with distinct keys (a filter, a sort, a prefix)
      has distinct keys too. */
  lemma DistinctBySub<T, K>(key: T -> K, xs: seq<T>, ys: seq<T>)
    requires DistinctBy(key, xs)
    requires multiset(ys) <= multiset(xs)
    ensures DistinctBy(key, ys)
  {
    DistinctByCountsAtMostOne(key, xs);
    forall v ensures multiset(ys)[v] <= 1 {
      assert multiset(ys)[v] <= multiset(xs)[v];
    }
    CountsAtMostOneNoDup(ys);
    forall i, j | 0 <= i < j < |ys| ensures key(ys[i]) != key(ys[j]) {
      assert ys[i] in multiset(xs) && ys[j] in multiset(xs);
      var a :| 0 <= a < |xs| && xs[a] == ys[i];
      var b :| 0 <= b < |xs| && xs[b] == ys[j];
      assert a != b;
      if a < b {
        assert key(xs[a]) != key(xs[b]);
      } else {
        assert key(xs[b]) != key(xs[a]);
      }
    }
  }

  /** Replacing an element that fails `p` by another that fails `p` changes no filter. */
  lemma FilterReplaceIrrelevant<T>(p: T -> bool, xs: seq<T>, i: nat, y: T)
    requires i < |xs| && !p(xs[i]) && !p(y)
    ensures Filter(p, xs[i := y]) == Filter(p, xs)
  {
    var a, b := xs[..i], xs[i + 1..];
    assert xs == a + [xs[i]] + b;
    assert xs[i := y] == a + [y] + b;
    FilterAppend(p, a + [xs[i]], b);
    FilterAppend(p, a, [xs[i]]);
    FilterAppend(p, a + [y], b);
    FilterAppend(p, a, [y]);
    assert Filter(p, [xs[i]]) == [] by { assert [xs[i]][..0] == []; }
    assert Filter(p, [y]) == [] by { assert [y][..0] == []; }
  }

  /** Removing an element that fails `p` changes no filter. */
  lemma FilterRemoveIrrelevant<T>(p: T -> bool, xs: seq<T>, i: nat)
    requires i < |xs| && !p(xs[i])
    ensures Filter(p, xs[..i] + xs[i + 1..]) == Filter(p, xs)
  {
    var a, y, b := xs[..i], xs[i], xs[i + 1..];
    calc {
      Filter(p, xs);
      { assert xs == (a + [y]) + b; }
      Filter(p, (a + [y]) + b);
      { FilterAppend(p, a + [y], b); }
      Filter(p, a + [y]) + Filter(p, b);
      { FilterAppendIrrelevant(p, a, y); }
      Filter(p, a) + Filter(p, b);
      { FilterAppend(p, a, b); }
      Filter(p, a + b);
    }
  }

  /** Appending an element that fails `p` changes no filter. */
  lemma FilterAppendIrrelevant<T>(p: T -> bool, xs: seq<T>, y: T)
    requires !p(y)
    ensures Filter(p, xs + [y]) == Filter(p, xs)
  {
    assert (xs + [y])[..|xs|] == xs;
  }
}
