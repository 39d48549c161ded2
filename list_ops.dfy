/** `Array.prototype.filter` and the id-directed `map` the stores apply to their lists. */
module ListOps {

  /** `xs.filter(keep)`. */
  function Filter<T(==)>(xs: seq<T>, keep: T -> bool): (r: seq<T>)
    ensures |r| <= |xs|
    ensures forall i :: 0 <= i < |r| ==> r[i] in xs && keep(r[i])
    ensures forall i :: 0 <= i < |xs| && keep(xs[i]) ==> xs[i] in r
  {
    if xs == [] then []
    else (if keep(xs[0]) then [xs[0]] else []) + Filter(xs[1..], keep)
  }

  /** `a` is `b` with some elements left out, the rest in their original order. */
  predicate Subseq<T(==)>(a: seq<T>, b: seq<T>)
    decreases |b|
  {
    a == [] || (b != [] && ((a[0] == b[0] && Subseq(a[1..], b[1..])) || Subseq(a, b[1..])))
  }

  lemma {:induction false} FilterIsSubseq<T>(xs: seq<T>, keep: T -> bool)
    ensures Subseq(Filter(xs, keep), xs)
  {
    if xs != [] {
      FilterIsSubseq(xs[1..], keep);
      var r := Filter(xs, keep);
      if keep(xs[0]) {
        assert r[0] == xs[0] && r[1..] == Filter(xs[1..], keep);
      } else {
        assert r == Filter(xs[1..], keep);
      }
    }
  }

  /** `filter` keeps every passing element as many times as it occurs, and no failing one. */
  lemma {:induction false} FilterMultiset<T>(xs: seq<T>, keep: T -> bool)
    ensures forall x :: multiset(Filter(xs, keep))[x] == if keep(x) then multiset(xs)[x] else 0
  {
    if xs != [] {
      FilterMultiset(xs[1..], keep);
      assert xs == [xs[0]] + xs[1..];
      assert multiset(xs) == multiset([xs[0]]) + multiset(xs[1..]);
    }
  }

  /** Filtering with a test that every element passes returns the list itself. */
  lemma {:induction false} FilterKeepsAll<T>(xs: seq<T>, keep: T -> bool)
    requires forall i :: 0 <= i < |xs| ==> keep(xs[i])
    ensures Filter(xs, keep) == xs
  {
    if xs != [] {
      FilterKeepsAll(xs[1..], keep);
    }
  }

  /** Filtering with a test that no element passes returns the empty list. */
  lemma {:induction false} FilterKeepsNone<T>(xs: seq<T>, keep: T -> bool)
    requires forall i :: 0 <= i < |xs| ==> !keep(xs[i])
    ensures Filter(xs, keep) == []
  {
    if xs != [] {
      FilterKeepsNone(xs[1..], keep);
    }
  }

  /** Two tests that no element passes together keep, between them, at most every element. */
  lemma {:induction false} FilterDisjointCounts<T>(xs: seq<T>, p: T -> bool, q: T -> bool)
    requires forall i :: 0 <= i < |xs| ==> !(p(xs[i]) && q(xs[i]))
    ensures |Filter(xs, p)| + |Filter(xs, q)| <= |xs|
  {
    if xs != [] {
      FilterDisjointCounts(xs[1..], p, q);
    }
  }

  /** Three tests of which exactly one holds of each element split the list's length. */
  lemma {:induction false} FilterPartitionCounts<T>(xs: seq<T>, p: T -> bool, q: T -> bool, r: T -> bool)
    requires forall i :: 0 <= i < |xs| ==>
      (p(xs[i]) || q(xs[i]) || r(xs[i])) && !(p(xs[i]) && q(xs[i])) && !(p(xs[i]) && r(xs[i])) && !(q(xs[i]) && r(xs[i]))
    ensures |Filter(xs, p)| + |Filter(xs, q)| + |Filter(xs, r)| == |xs|
  {
    if xs != [] {
      FilterPartitionCounts(xs[1..], p, q, r);
    }
  }

  /** A test that holds exactly when one of two exclusive tests holds keeps as many as the two together. */
  lemma {:induction false} FilterSplitCounts<T>(xs: seq<T>, a: T -> bool, b: T -> bool, c: T -> bool)
    requires forall i :: 0 <= i < |xs| ==> (a(xs[i]) <==> b(xs[i]) || c(xs[i])) && !(b(xs[i]) && c(xs[i]))
    ensures |Filter(xs, a)| == |Filter(xs, b)| + |Filter(xs, c)|
  {
    if xs != [] {
      FilterSplitCounts(xs[1..], a, b, c);
    }
  }

  /** Some element passes the test exactly when the filter keeps something. */
  lemma FilterNonEmpty<T>(xs: seq<T>, keep: T -> bool)
    ensures |Filter(xs, keep)| > 0 <==> exists i :: 0 <= i < |xs| && keep(xs[i])
  {
    var r := Filter(xs, keep);
    if |r| > 0 {
      assert r[0] in xs && keep(r[0]);
      var i :| 0 <= i < |xs| && xs[i] == r[0];
    }
  }

  /** The keys strictly increase along the list. */
  predicate AscendingBy<T>(xs: seq<T>, key: T -> int) {
    forall i, j :: 0 <= i < j < |xs| ==> key(xs[i]) < key(xs[j])
  }

  lemma {:induction false} FilterKeepsLowerBound<T>(xs: seq<T>, keep: T -> bool, key: T -> int, b: int)
    requires forall i :: 0 <= i < |xs| ==> b < key(xs[i])
    ensures forall i :: 0 <= i < |Filter(xs, keep)| ==> b < key(Filter(xs, keep)[i])
  {
    if xs != [] {
      FilterKeepsLowerBound(xs[1..], keep, key, b);
    }
  }

  /** Strictly increasing keys stay strictly increasing after a filter. */
  lemma {:induction false} FilterKeepsAscending<T>(xs: seq<T>, keep: T -> bool, key: T -> int)
    requires AscendingBy(xs, key)
    ensures AscendingBy(Filter(xs, keep), key)
  {
    if xs != [] {
      AscendingTail(xs, key);
      FilterKeepsAscending(xs[1..], keep, key);
      if keep(xs[0]) {
        FilterKeepsLowerBound(xs[1..], keep, key, key(xs[0]));
        AscendingCons(xs[0], Filter(xs[1..], keep), key);
      }
    }
  }

  lemma AscendingTail<T>(xs: seq<T>, key: T -> int)
    requires xs != [] && AscendingBy(xs, key)
    ensures AscendingBy(xs[1..], key)
    ensures forall i :: 0 <= i < |xs[1..]| ==> key(xs[0]) < key(xs[1..][i])
  {
    forall i, j | 0 <= i < j < |xs[1..]| ensures key(xs[1..][i]) < key(xs[1..][j]) {
      assert xs[1..][i] == xs[i + 1] && xs[1..][j] == xs[j + 1];
    }
  }

  /** A key below every key of an ascending list can go in front of it. */
  lemma AscendingCons<T>(x: T, rest: seq<T>, key: T -> int)
    requires AscendingBy(rest, key)
    requires forall i :: 0 <= i < |rest| ==> key(x) < key(rest[i])
    ensures AscendingBy([x] + rest, key)
  {
    var r := [x] + rest;
    forall i, j | 0 <= i < j < |r| ensures key(r[i]) < key(r[j]) {
      assert r[j] == rest[j - 1];
      if i > 0 {
        assert r[i] == rest[i - 1];
      }
    }
  }

  /** `xs.map(x => hit(x) ? y : x)`. */
  function ReplaceWhere<T>(xs: seq<T>, hit: T -> bool, y: T): (r: seq<T>)
    ensures |r| == |xs|
    ensures forall i :: 0 <= i < |xs| ==> r[i] == if hit(xs[i]) then y else xs[i]
  {
    if xs == [] then [] else [if hit(xs[0]) then y else xs[0]] + ReplaceWhere(xs[1..], hit, y)
  }
}
