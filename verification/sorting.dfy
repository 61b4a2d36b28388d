/** One stable sort for every ordering the routes ask for. Orderings are strict
    "ranks strictly before" relations; a Mongo `.sort()` and a JS `Array.prototype.sort`
    are both this sort applied to the matching items in store (or insertion) order. */
module Sorting {

  import opened Seqs

  /** `lt` is asymmetric and its incomparability is transitive: a strict weak order. */
  ghost predicate StrictWeakOrder<T(!new)>(lt: (T, T) -> bool) {
    && (forall a, b :: lt(a, b) ==> !lt(b, a))
    && (forall a, b, c :: lt(a, c) ==> lt(a, b) || lt(b, c))
  }

  /** No element ranks strictly before an element placed ahead of it. */
  ghost predicate SortedBy<T>(lt: (T, T) -> bool, s: seq<T>) {
    forall i, j :: 0 <= i < j < |s| ==> !lt(s[j], s[i])
  }

  /** Places `x` ahead of the first element that does not rank strictly before it. */
  function Insert<T(!new)>(lt: (T, T) -> bool, x: T, s: seq<T>): (r: seq<T>)
    ensures multiset(r) == multiset(s) + multiset{x}
  {
    if s == [] || !lt(s[0], x) then [x] + s
    else
      assert s == [s[0]] + s[1..];
      [s[0]] + Insert(lt, x, s[1..])
  }

  lemma {:induction false} InsertSorted<T(!new)>(lt: (T, T) -> bool, x: T, s: seq<T>)
    requires StrictWeakOrder(lt) && SortedBy(lt, s)
    ensures SortedBy(lt, Insert(lt, x, s))
    decreases |s|
  {
    if s == [] || !lt(s[0], x) {
      forall k | 0 <= k < |s| ensures !lt(s[k], x) {
        if k > 0 {
          assert !lt(s[k], s[0]);
        }
      }
    } else {
      var t := Insert(lt, x, s[1..]);
      InsertSorted(lt, x, s[1..]);
      forall k | 0 <= k < |t| ensures !lt(t[k], s[0]) {
        assert t[k] in multiset(s[1..]) + multiset{x};
        if t[k] != x {
          assert t[k] in s[1..];
        }
      }
      assert Insert(lt, x, s) == [s[0]] + t;
    }
  }

  /** Insertion sort; an element is inserted ahead of the ties that follow it in `xs`,
      so the sort is stable. */
  function Sort<T(!new)>(lt: (T, T) -> bool, xs: seq<T>): (r: seq<T>)
    ensures multiset(r) == multiset(xs)
    ensures |r| == |xs|
  {
    if xs == [] then []
    else
      assert xs == [xs[0]] + xs[1..];
      Insert(lt, xs[0], Sort(lt, xs[1..]))
  }

  lemma {:induction false} SortSorted<T(!new)>(lt: (T, T) -> bool, xs: seq<T>)
    requires StrictWeakOrder(lt)
    ensures SortedBy(lt, Sort(lt, xs))
    decreases |xs|
  {
    if xs != [] {
      SortSorted(lt, xs[1..]);
      InsertSorted(lt, xs[0], Sort(lt, xs[1..]));
    }
  }

  /** The elements that rank neither before nor after `y`: its ties. */
  function Tied<T>(lt: (T, T) -> bool, y: T): T -> bool {
    (x: T) => !lt(x, y) && !lt(y, x)
  }

  /** Inserting `x` puts it ahead of every tie of `x` already in `s`. */
  lemma {:induction false} InsertTied<T(!new)>(lt: (T, T) -> bool, y: T, x: T, s: seq<T>)
    requires StrictWeakOrder(lt)
    ensures Filter(Tied(lt, y), Insert(lt, x, s)) == Filter(Tied(lt, y), [x]) + Filter(Tied(lt, y), s)
    decreases |s|
  {
    var t := Tied(lt, y);
    if s == [] || !lt(s[0], x) {
      FilterAppend(t, [x], s);
    } else {
      assert s == [s[0]] + s[1..];
      InsertTied(lt, y, x, s[1..]);
      FilterAppend(t, [s[0]], Insert(lt, x, s[1..]));
      FilterAppend(t, [s[0]], s[1..]);
      if t(x) {
        // s[0] ranks before x, and so before every tie of x
        assert lt(s[0], y);
        assert Filter(t, [s[0]]) == [];
      }
    }
  }

  /** The sort is stable: the ties of any element come out in the order they went in. */
  lemma {:induction false} SortStable<T(!new)>(lt: (T, T) -> bool, y: T, xs: seq<T>)
    requires StrictWeakOrder(lt)
    ensures Filter(Tied(lt, y), Sort(lt, xs)) == Filter(Tied(lt, y), xs)
    decreases |xs|
  {
    if xs != [] {
      assert xs == [xs[0]] + xs[1..];
      SortStable(lt, y, xs[1..]);
      InsertTied(lt, y, xs[0], Sort(lt, xs[1..]));
      FilterAppend(Tied(lt, y), [xs[0]], xs[1..]);
    }
  }

  /** The first `n` elements of `xs` in `lt` order: the shape of every
      `find(..).sort(..).limit(n)` query. */
  function TopN<T(!new)>(lt: (T, T) -> bool, p: T -> bool, xs: seq<T>, n: nat): (r: seq<T>)
    requires StrictWeakOrder(lt)
    ensures |r| <= n
    ensures forall i :: 0 <= i < |r| ==> r[i] in xs && p(r[i])
    ensures multiset(r) <= multiset(xs)
    ensures SortedBy(lt, r)
    // nothing left out ranks strictly before anything taken
    ensures forall j, i :: 0 <= j < |xs| && p(xs[j]) && xs[j] !in r && 0 <= i < |r| ==> !lt(xs[j], r[i])
    // fewer than n only when every match was taken
    ensures |r| < n ==> forall j :: 0 <= j < |xs| && p(xs[j]) ==> xs[j] in r
  {
    TopNFacts(lt, p, xs, n);
    SortSorted(lt, Filter(p, xs));
    Take(Sort(lt, Filter(p, xs)), n)
  }

  /** Among ties, the cut keeps the first-seen matches, in the order they were seen. */
  lemma TopNStable<T(!new)>(lt: (T, T) -> bool, p: T -> bool, xs: seq<T>, n: nat, y: T)
    requires StrictWeakOrder(lt)
    ensures Filter(Tied(lt, y), TopN(lt, p, xs, n)) <= Filter(Tied(lt, y), Filter(p, xs))
  {
    FilterTake(Tied(lt, y), Sort(lt, Filter(p, xs)), n);
    SortStable(lt, y, Filter(p, xs));
  }

  lemma TopNFacts<T(!new)>(lt: (T, T) -> bool, p: T -> bool, xs: seq<T>, n: nat)
    requires StrictWeakOrder(lt)
    ensures var r := Take(Sort(lt, Filter(p, xs)), n);
      && multiset(r) <= multiset(xs)
      && (forall i :: 0 <= i < |r| ==> r[i] in xs && p(r[i]))
      && (forall j, i :: 0 <= j < |xs| && p(xs[j]) && xs[j] !in r && 0 <= i < |r| ==> !lt(xs[j], r[i]))
      && (|r| < n ==> forall j :: 0 <= j < |xs| && p(xs[j]) ==> xs[j] in r)
  {
    TopNMembers(lt, p, xs, n);
    TopNLeftOut(lt, p, xs, n);
  }

  /** The cut keeps only matching elements of `xs`, none more often than in `xs`. */
  lemma TopNMembers<T(!new)>(lt: (T, T) -> bool, p: T -> bool, xs: seq<T>, n: nat)
    ensures var r := Take(Sort(lt, Filter(p, xs)), n);
      && multiset(r) <= multiset(xs)
      && (forall i :: 0 <= i < |r| ==> r[i] in xs && p(r[i]))
  {
    var f := Filter(p, xs);
    var sorted := Sort(lt, f);
    var r := Take(sorted, n);
    FilterMultiset(p, xs);
    TakeSub(sorted, n);
    forall i | 0 <= i < |r| ensures r[i] in xs && p(r[i]) {
      MemberOf(r, f, r[i]);
      MemberOf(r, xs, r[i]);
    }
  }

  lemma TakeSub<T>(s: seq<T>, n: nat)
    ensures multiset(Take(s, n)) <= multiset(s)
  {
    var r := Take(s, n);
    assert s == r + s[|r|..];
  }

  /** An element of `a` is an element of every `b` whose multiset covers `a`'s. */
  lemma MemberOf<T>(a: seq<T>, b: seq<T>, x: T)
    requires x in a && multiset(a) <= multiset(b)
    ensures x in b
  {
    assert x in multiset(a);
  }

  /** A matching element left out of the cut ranks no better than any kept one, and a
      short cut left nothing out. */
  lemma TopNLeftOut<T(!new)>(lt: (T, T) -> bool, p: T -> bool, xs: seq<T>, n: nat)
    requires StrictWeakOrder(lt)
    ensures var r := Take(Sort(lt, Filter(p, xs)), n);
      && (forall j, i :: 0 <= j < |xs| && p(xs[j]) && xs[j] !in r && 0 <= i < |r| ==> !lt(xs[j], r[i]))
      && (|r| < n ==> forall j :: 0 <= j < |xs| && p(xs[j]) ==> xs[j] in r)
  {
    var f := Filter(p, xs);
    var r := Take(Sort(lt, f), n);
    TakeSortedIsTop(lt, f, n);
    forall j, i | 0 <= j < |xs| && p(xs[j]) && xs[j] !in r && 0 <= i < |r| ensures !lt(xs[j], r[i]) {
      var k :| 0 <= k < |f| && f[k] == xs[j];
    }
    forall j | 0 <= j < |xs| && p(xs[j]) && |r| < n ensures xs[j] in r {
      var k :| 0 <= k < |f| && f[k] == xs[j];
    }
  }

  /** Cutting a sorted sequence never drops an element that ranks strictly before a
      kept one. */
  lemma TakeSortedIsTop<T(!new)>(lt: (T, T) -> bool, xs: seq<T>, n: nat)
    requires StrictWeakOrder(lt)
    ensures var r := Take(Sort(lt, xs), n);
      forall j, i :: 0 <= j < |xs| && xs[j] !in r && 0 <= i < |r| ==> !lt(xs[j], r[i])
    ensures var r := Take(Sort(lt, xs), n);
      |r| < n ==> forall j :: 0 <= j < |xs| ==> xs[j] in r
  {
    var s := Sort(lt, xs);
    var r := Take(s, n);
    SortSorted(lt, xs);
    forall k, i | 0 <= k < |xs| && xs[k] !in r && 0 <= i < |r| ensures !lt(xs[k], r[i]) {
      var x := xs[k];
      assert x in multiset(xs);
      assert x in multiset(s);
      var j :| 0 <= j < |s| && s[j] == x;
      assert r == s[..|r|];
      assert i < j;
    }
    forall k | 0 <= k < |xs| && |r| < n ensures xs[k] in r {
      assert xs[k] in multiset(xs);
      assert xs[k] in multiset(s);
    }
  }

  /** The reverse of an ordering: `desc` where `lt` is `asc`. */
  function Flip<T>(lt: (T, T) -> bool): (T, T) -> bool {
    (a, b) => lt(b, a)
  }

  lemma FlipStrictWeakOrder<T(!new)>(lt: (T, T) -> bool)
    requires StrictWeakOrder(lt)
    ensures StrictWeakOrder(Flip(lt))
  {
    var f := Flip(lt);
    forall a, b, c | f(a, c) ensures f(a, b) || f(b, c) {
      assert lt(c, a);
      assert lt(c, b) || lt(b, a);
    }
  }
}
