/**
 * Sequence operations that stand in for the query primitives the handlers use:
 * `findById`, `findOne` (first match in natural order), `find` (filter), `$limit`,
 * `$sum` and a `$sort` on one descending key. MongoDB's sort does not break
 * ties, so the sort here is specified only as a non-increasing permutation.
 */
module Collections {
  import opened Wrappers

  // ---------------------------------------------------------------------------
  // Finding
  // ---------------------------------------------------------------------------

  /** `findById(id)`: the document at position `id`, or none when no document has that id. */
  function FindById<T>(xs: seq<T>, id: nat): (r: Option<T>)
    ensures r.Some? <==> id < |xs|
    ensures r.Some? ==> r.value == xs[id]
  {
    if id < |xs| then Some(xs[id]) else None
  }

  function FirstFrom<T>(xs: seq<T>, p: T -> bool, from: nat): (r: Option<nat>)
    ensures r.Some? ==> from <= r.value < |xs| && p(xs[r.value])
    ensures r.Some? ==> forall k :: from <= k < r.value ==> !p(xs[k])
    ensures r.None? ==> forall k :: from <= k < |xs| ==> !p(xs[k])
    decreases |xs| - from
  {
    if from >= |xs| then None
    else if p(xs[from]) then Some(from)
    else FirstFrom(xs, p, from + 1)
  }

  /** `findOne(filter)`: the position of the first element in natural order that matches. */
  function FirstWhere<T>(xs: seq<T>, p: T -> bool): (r: Option<nat>)
    ensures r.Some? ==> r.value < |xs| && p(xs[r.value])
    ensures r.Some? ==> forall k :: 0 <= k < r.value ==> !p(xs[k])
    ensures r.None? <==> forall k :: 0 <= k < |xs| ==> !p(xs[k])
  {
    FirstFrom(xs, p, 0)
  }

  /** `find(filter)`: the matching elements, in natural order. */
  function Filter<T>(xs: seq<T>, p: T -> bool): (r: seq<T>)
    ensures |r| <= |xs|
    ensures forall k :: 0 <= k < |r| ==> p(r[k])
    ensures forall k :: 0 <= k < |r| ==> r[k] in xs
    ensures forall k :: 0 <= k < |xs| && p(xs[k]) ==> xs[k] in r
    decreases |xs|
  {
    if xs == [] then []
    else if p(xs[0]) then [xs[0]] + Filter(xs[1..], p)
    else Filter(xs[1..], p)
  }

  lemma {:induction false} FilterAppend<T>(a: seq<T>, b: seq<T>, p: T -> bool)
    ensures Filter(a + b, p) == Filter(a, p) + Filter(b, p)
    decreases |a|
  {
    if a != [] {
      assert (a + b)[0] == a[0] && (a + b)[1..] == a[1..] + b;
      FilterAppend(a[1..], b, p);
    } else {
      assert a + b == b;
    }
  }

  /** Filtering keeps the relative order, so a non-increasing sequence stays non-increasing. */
  lemma {:induction false} FilterKeepsOrder<T>(xs: seq<T>, p: T -> bool, key: T -> int)
    requires NonIncreasing(xs, key)
    ensures NonIncreasing(Filter(xs, p), key)
    decreases |xs|
  {
    if xs != [] {
      var tail := xs[1..];
      NonIncreasingTail(xs, key);
      FilterKeepsOrder(tail, p, key);
      var rest := Filter(tail, p);
      if p(xs[0]) {
        forall k | 0 <= k < |rest|
          ensures key(rest[k]) <= key(xs[0])
        {
          var m :| 0 <= m < |tail| && tail[m] == rest[k];
          assert xs[m + 1] == rest[k];
        }
        NonIncreasingCons(xs[0], rest, key);
        assert Filter(xs, p) == [xs[0]] + rest;
      } else {
        assert Filter(xs, p) == rest;
      }
    }
  }

  /** A filter keeps exactly as many elements as satisfy its predicate. */
  lemma {:induction false} FilterLength<T>(xs: seq<T>, p: T -> bool)
    ensures |Filter(xs, p)| == Count(xs, p)
    decreases |xs|
  {
    if xs != [] {
      var n := |xs| - 1;
      assert xs == xs[..n] + [xs[n]];
      FilterAppend(xs[..n], [xs[n]], p);
      FilterLength(xs[..n], p);
      if p(xs[n]) {
        assert Filter([xs[n]], p) == [xs[n]];
      } else {
        assert Filter([xs[n]], p) == [];
      }
    }
  }

  /** `$addToSet` of a key: the values in first-appearance order, each once. */
  function Distinct(xs: seq<nat>): (r: seq<nat>)
    ensures forall i, j :: 0 <= i < j < |r| ==> r[i] != r[j]
    ensures forall x :: x in r <==> x in xs
    ensures |r| <= |xs|
    decreases |xs|
  {
    if xs == [] then []
    else
      var n := |xs| - 1;
      assert xs == xs[..n] + [xs[n]];
      var r := Distinct(xs[..n]);
      if xs[n] in r then r else r + [xs[n]]
  }

  /** `$limit: n` (and `.limit(n)`): the first `n` elements, or all of them when there are fewer. */
  function Take<T>(xs: seq<T>, n: nat): (r: seq<T>)
    ensures |r| == if |xs| < n then |xs| else n
    ensures r == xs[..|r|]
  {
    if |xs| <= n then xs else xs[..n]
  }

  // ---------------------------------------------------------------------------
  // Sums and counts
  // ---------------------------------------------------------------------------

  /** `$sum` of `f` over the elements. */
  function Sum<T>(xs: seq<T>, f: T -> int): int
    decreases |xs|
  {
    if xs == [] then 0 else Sum(xs[..|xs| - 1], f) + f(xs[|xs| - 1])
  }

  /** `$sum: 1` over the elements that satisfy `p`. */
  function Count<T>(xs: seq<T>, p: T -> bool): (n: nat)
    ensures n <= |xs|
    decreases |xs|
  {
    if xs == [] then 0 else Count(xs[..|xs| - 1], p) + (if p(xs[|xs| - 1]) then 1 else 0)
  }

  lemma {:induction false} SumAppend<T>(a: seq<T>, b: seq<T>, f: T -> int)
    ensures Sum(a + b, f) == Sum(a, f) + Sum(b, f)
    decreases |b|
  {
    if b != [] {
      assert (a + b)[..|a + b| - 1] == a + b[..|b| - 1];
      SumAppend(a, b[..|b| - 1], f);
    } else {
      assert a + b == a;
    }
  }

  lemma {:induction false} CountAppend<T>(a: seq<T>, b: seq<T>, p: T -> bool)
    ensures Count(a + b, p) == Count(a, p) + Count(b, p)
    decreases |b|
  {
    if b != [] {
      assert (a + b)[..|a + b| - 1] == a + b[..|b| - 1];
      CountAppend(a, b[..|b| - 1], p);
    } else {
      assert a + b == a;
    }
  }

  /** A count is zero exactly when nothing satisfies the predicate. */
  lemma {:induction false} CountZero<T>(xs: seq<T>, p: T -> bool)
    ensures Count(xs, p) == 0 <==> forall k :: 0 <= k < |xs| ==> !p(xs[k])
    decreases |xs|
  {
    if xs != [] {
      CountZero(xs[..|xs| - 1], p);
      assert forall k :: 0 <= k < |xs| - 1 ==> xs[..|xs| - 1][k] == xs[k];
    }
  }

  /** A sum whose terms all vanish is zero. */
  lemma {:induction false} SumZero<T>(xs: seq<T>, f: T -> int)
    requires forall k :: 0 <= k < |xs| ==> f(xs[k]) == 0
    ensures Sum(xs, f) == 0
    decreases |xs|
  {
    if xs != [] {
      assert forall k :: 0 <= k < |xs| - 1 ==> xs[..|xs| - 1][k] == xs[k];
      SumZero(xs[..|xs| - 1], f);
    }
  }

  /** Summing after a filter is summing the terms that pass it. */
  lemma {:induction false} SumFilter<T>(xs: seq<T>, p: T -> bool, f: T -> int, g: T -> int)
    requires forall k :: 0 <= k < |xs| ==> g(xs[k]) == if p(xs[k]) then f(xs[k]) else 0
    ensures Sum(Filter(xs, p), f) == Sum(xs, g)
    decreases |xs|
  {
    if xs != [] {
      var n := |xs| - 1;
      assert xs == xs[..n] + [xs[n]];
      FilterAppend(xs[..n], [xs[n]], p);
      SumFilter(xs[..n], p, f, g);
      SumAppend(Filter(xs[..n], p), Filter([xs[n]], p), f);
      if p(xs[n]) {
        assert Filter([xs[n]], p) == [xs[n]];
      } else {
        assert Filter([xs[n]], p) == [];
      }
    }
  }

  /** Counting after a filter is counting the elements that pass both tests. */
  lemma {:induction false} CountFilter<T>(xs: seq<T>, p: T -> bool, q: T -> bool, pq: T -> bool)
    requires forall k :: 0 <= k < |xs| ==> pq(xs[k]) == (p(xs[k]) && q(xs[k]))
    ensures Count(Filter(xs, p), q) == Count(xs, pq)
    decreases |xs|
  {
    if xs != [] {
      var n := |xs| - 1;
      assert xs == xs[..n] + [xs[n]];
      FilterAppend(xs[..n], [xs[n]], p);
      CountFilter(xs[..n], p, q, pq);
      CountAppend(Filter(xs[..n], p), Filter([xs[n]], p), q);
      if p(xs[n]) {
        assert Filter([xs[n]], p) == [xs[n]];
      } else {
        assert Filter([xs[n]], p) == [];
      }
    }
  }

  // ---------------------------------------------------------------------------
  // Sorting on one descending key
  // ---------------------------------------------------------------------------

  /** The order `$sort: { key: -1 }` guarantees: keys never increase along the sequence. */
  ghost predicate NonIncreasing<T>(xs: seq<T>, key: T -> int) {
    forall i, j :: 0 <= i < j < |xs| ==> key(xs[i]) >= key(xs[j])
  }

  /** Dropping the head keeps a sequence ordered. */
  lemma NonIncreasingTail<T>(xs: seq<T>, key: T -> int)
    requires xs != [] && NonIncreasing(xs, key)
    ensures NonIncreasing(xs[1..], key)
  {
    var tail := xs[1..];
    forall i, j | 0 <= i < j < |tail|
      ensures key(tail[i]) >= key(tail[j])
    {
      assert tail[i] == xs[i + 1] && tail[j] == xs[j + 1];
    }
  }

  /** A head no smaller than anything in an ordered tail keeps the whole ordered. */
  lemma NonIncreasingCons<T>(x: T, rest: seq<T>, key: T -> int)
    requires NonIncreasing(rest, key)
    requires forall k :: 0 <= k < |rest| ==> key(rest[k]) <= key(x)
    ensures NonIncreasing([x] + rest, key)
  {
    var r := [x] + rest;
    forall i, j | 0 <= i < j < |r|
      ensures key(r[i]) >= key(r[j])
    {
      assert r[j] == rest[j - 1];
      if i > 0 {
        assert r[i] == rest[i - 1];
      }
    }
  }

  function Insert<T>(x: T, xs: seq<T>, key: T -> int): (r: seq<T>)
    requires NonIncreasing(xs, key)
    ensures NonIncreasing(r, key)
    ensures multiset(r) == multiset(xs) + multiset{x}
    ensures |r| == |xs| + 1
    decreases |xs|
  {
    if xs == [] || key(x) >= key(xs[0]) then
      NonIncreasingHead(x, xs, key);
      [x] + xs
    else
      NonIncreasingTail(xs, key);
      var rest := Insert(x, xs[1..], key);
      assert multiset(xs) == multiset{xs[0]} + multiset(xs[1..]) by {
        assert xs == [xs[0]] + xs[1..];
      }
      forall k | 0 <= k < |rest|
        ensures key(rest[k]) <= key(xs[0])
      {
        assert rest[k] in multiset(rest);
      }
      NonIncreasingCons(xs[0], rest, key);
      [xs[0]] + rest
  }

  /** A head no smaller than the first element of an ordered sequence keeps it ordered. */
  lemma NonIncreasingHead<T>(x: T, xs: seq<T>, key: T -> int)
    requires NonIncreasing(xs, key)
    requires xs == [] || key(x) >= key(xs[0])
    ensures NonIncreasing([x] + xs, key)
  {
    forall k | 0 <= k < |xs|
      ensures key(xs[k]) <= key(x)
    {
      assert key(xs[k]) <= key(xs[0]) || k == 0;
    }
    NonIncreasingCons(x, xs, key);
  }

  /** A sort by descending key: some non-increasing rearrangement of the input. */
  function SortDescending<T>(xs: seq<T>, key: T -> int): (r: seq<T>)
    ensures NonIncreasing(r, key)
    ensures multiset(r) == multiset(xs)
    ensures |r| == |xs|
    decreases |xs|
  {
    if xs == [] then []
    else
      assert xs == [xs[0]] + xs[1..];
      Insert(xs[0], SortDescending(xs[1..], key), key)
  }

  /**
   * What a `$sort` followed by `$limit` keeps: every element cut off by the
   * limit ranks no higher than any element kept.
   */
  lemma TopAreMaximal<T>(xs: seq<T>, key: T -> int, n: nat, kept: T, dropped: T)
    requires NonIncreasing(xs, key)
    requires kept in Take(xs, n) && dropped in xs && dropped !in Take(xs, n)
    ensures key(kept) >= key(dropped)
  {
    var t := Take(xs, n);
    var i :| 0 <= i < |t| && t[i] == kept;
    var j :| 0 <= j < |xs| && xs[j] == dropped;
    assert forall k :: 0 <= k < |t| ==> xs[k] == t[k];
    assert xs[i] == kept;
  }
}
