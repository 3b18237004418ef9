/**
 * The ordering operations the analyzer applies to grouped results:
 * `sort_values(..., ascending=False)` and `nlargest(n, ...)`, both by a real
 * score (`nsmallest` and ascending sorts use the negated score). How pandas
 * breaks ties is not modelled: the contracts below fix the order only up to
 * elements of equal score.
 */
module Ranking {
  import opened Table

  /** Non-increasing by `score`. */
  predicate SortedDesc<T>(xs: seq<T>, score: T -> real) {
    forall i, j :: 0 <= i < j < |xs| ==> score(xs[i]) >= score(xs[j])
  }

  function Insert<T>(x: T, xs: seq<T>, score: T -> real): seq<T> {
    if xs == [] || score(x) >= score(xs[0]) then [x] + xs
    else [xs[0]] + Insert(x, xs[1..], score)
  }

  /** Insertion sort, non-increasing by `score`. */
  function SortDesc<T>(xs: seq<T>, score: T -> real): seq<T> {
    if xs == [] then [] else Insert(xs[0], SortDesc(xs[1..], score), score)
  }

  lemma {:induction false} InsertPerm<T>(x: T, xs: seq<T>, score: T -> real)
    ensures multiset(Insert(x, xs, score)) == multiset(xs) + multiset{x}
  {
    if !(xs == [] || score(x) >= score(xs[0])) {
      InsertPerm(x, xs[1..], score);
      assert xs == [xs[0]] + xs[1..];
    }
  }

  lemma {:induction false} InsertSorted<T>(x: T, xs: seq<T>, score: T -> real)
    requires SortedDesc(xs, score)
    ensures SortedDesc(Insert(x, xs, score), score)
  {
    if xs == [] || score(x) >= score(xs[0]) {
      var r := [x] + xs;
      forall i, j | 0 <= i < j < |r| ensures score(r[i]) >= score(r[j]) {
        assert r[j] == xs[j - 1];
        if i > 0 { assert r[i] == xs[i - 1]; }
      }
    } else {
      var tail := xs[1..];
      assert SortedDesc(tail, score) by {
        forall i, j | 0 <= i < j < |tail| ensures score(tail[i]) >= score(tail[j]) {
          assert tail[i] == xs[i + 1] && tail[j] == xs[j + 1];
        }
      }
      InsertSorted(x, tail, score);
      var ins := Insert(x, tail, score);
      forall y | y in ins ensures score(xs[0]) >= score(y) {
        InsertMember(x, tail, score, y);
        if y != x {
          var k :| 0 <= k < |tail| && tail[k] == y;
          assert xs[k + 1] == y;
        }
      }
      var r := [xs[0]] + ins;
      forall i, j | 0 <= i < j < |r| ensures score(r[i]) >= score(r[j]) {
        assert r[j] == ins[j - 1];
        if i > 0 { assert r[i] == ins[i - 1]; }
      }
    }
  }

  /** The sort returns a permutation of its input, in non-increasing order. */
  lemma SortDescSpec<T>(xs: seq<T>, score: T -> real)
    ensures multiset(SortDesc(xs, score)) == multiset(xs)
    ensures |SortDesc(xs, score)| == |xs|
    ensures SortedDesc(SortDesc(xs, score), score)
  {
    SortDescPerm(xs, score);
    SortDescSorted(xs, score);
    assert |multiset(SortDesc(xs, score))| == |multiset(xs)|;
  }

  lemma {:induction false} SortDescPerm<T>(xs: seq<T>, score: T -> real)
    ensures multiset(SortDesc(xs, score)) == multiset(xs)
  {
    if xs != [] {
      SortDescPerm(xs[1..], score);
      InsertPerm(xs[0], SortDesc(xs[1..], score), score);
      assert xs == [xs[0]] + xs[1..];
    }
  }

  lemma {:induction false} SortDescSorted<T>(xs: seq<T>, score: T -> real)
    ensures SortedDesc(SortDesc(xs, score), score)
  {
    if xs != [] {
      SortDescSorted(xs[1..], score);
      InsertSorted(xs[0], SortDesc(xs[1..], score), score);
    }
  }

  lemma {:induction false} InsertSum<T>(x: T, xs: seq<T>, score: T -> real, f: T -> real)
    ensures Sum(Insert(x, xs, score), f) == f(x) + Sum(xs, f)
  {
    if !(xs == [] || score(x) >= score(xs[0])) {
      InsertSum(x, xs[1..], score, f);
      assert ([xs[0]] + Insert(x, xs[1..], score))[1..] == Insert(x, xs[1..], score);
    } else {
      assert ([x] + xs)[1..] == xs;
    }
  }

  /** Sorting does not change a sum. */
  lemma {:induction false} SortDescSum<T>(xs: seq<T>, score: T -> real, f: T -> real)
    ensures Sum(SortDesc(xs, score), f) == Sum(xs, f)
  {
    if xs != [] {
      SortDescSum(xs[1..], score, f);
      InsertSum(xs[0], SortDesc(xs[1..], score), score, f);
    }
  }

  /** Sorting keeps the keys of a sequence distinct. */
  lemma {:induction false} SortDescDistinct<T, K>(xs: seq<T>, score: T -> real, key: T -> K)
    requires Distinct(xs, key)
    ensures Distinct(SortDesc(xs, score), key)
  {
    if xs != [] {
      var tail := xs[1..];
      assert Distinct(tail, key) by {
        forall i, j | 0 <= i < j < |tail| ensures key(tail[i]) != key(tail[j]) {
          assert tail[i] == xs[i + 1] && tail[j] == xs[j + 1];
        }
      }
      SortDescDistinct(tail, score, key);
      SortDescSpec(tail, score);
      var sorted := SortDesc(tail, score);
      forall y | y in sorted ensures key(y) != key(xs[0]) {
        assert y in multiset(tail);
        var k :| 0 <= k < |tail| && tail[k] == y;
        assert xs[k + 1] == y;
      }
      InsertDistinct(xs[0], sorted, score, key);
    }
  }

  lemma {:induction false} InsertDistinct<T, K>(x: T, xs: seq<T>, score: T -> real, key: T -> K)
    requires Distinct(xs, key)
    requires forall y :: y in xs ==> key(y) != key(x)
    ensures Distinct(Insert(x, xs, score), key)
  {
    if !(xs == [] || score(x) >= score(xs[0])) {
      var tail := xs[1..];
      assert Distinct(tail, key) by {
        forall i, j | 0 <= i < j < |tail| ensures key(tail[i]) != key(tail[j]) {
          assert tail[i] == xs[i + 1] && tail[j] == xs[j + 1];
        }
      }
      InsertDistinct(x, tail, score, key);
      var r := [xs[0]] + Insert(x, tail, score);
      forall i, j | 0 <= i < j < |r| ensures key(r[i]) != key(r[j]) {
        if i == 0 {
          var y := r[j];
          assert y in Insert(x, tail, score);
          InsertMember(x, tail, score, y);
          if y != x {
            var k :| 0 <= k < |tail| && tail[k] == y;
            assert xs[k + 1] == y;
          }
        }
      }
    } else {
      var r := [x] + xs;
      forall i, j | 0 <= i < j < |r| ensures key(r[i]) != key(r[j]) {
        if i == 0 {
          assert r[j] == xs[j - 1];
        } else {
          assert r[i] == xs[i - 1] && r[j] == xs[j - 1];
        }
      }
    }
  }

  lemma {:induction false} InsertMember<T>(x: T, xs: seq<T>, score: T -> real, y: T)
    ensures y in Insert(x, xs, score) <==> y == x || y in xs
  {
    if !(xs == [] || score(x) >= score(xs[0])) {
      InsertMember(x, xs[1..], score, y);
      assert xs == [xs[0]] + xs[1..];
    }
  }

  /** `nlargest(n, score)`: the first `n` of the sorted sequence. */
  function Largest<T>(xs: seq<T>, n: nat, score: T -> real): seq<T> {
    var sorted := SortDesc(xs, score);
    if n < |sorted| then sorted[..n] else sorted
  }

  /** In a sorted sequence, everything before position `k` scores at least everything from `k` on. */
  lemma PrefixDominates<T>(sorted: seq<T>, k: nat, score: T -> real)
    requires SortedDesc(sorted, score) && k <= |sorted|
    ensures forall x, y :: x in sorted[..k] && y in sorted[k..] ==> score(x) >= score(y)
  {
    forall x, y | x in sorted[..k] && y in sorted[k..] ensures score(x) >= score(y) {
      var i :| 0 <= i < k && sorted[..k][i] == x;
      var j :| 0 <= j < |sorted| - k && sorted[k..][j] == y;
      assert sorted[i] == x && sorted[k + j] == y;
    }
  }

  /**
   * `nlargest` returns min(n, |xs|) elements of its input, in non-increasing
   * order, and none of them scores below anything left out.
   */
  lemma LargestSpec<T>(xs: seq<T>, n: nat, score: T -> real)
    ensures |Largest(xs, n, score)| == if n < |xs| then n else |xs|
    ensures multiset(Largest(xs, n, score)) <= multiset(xs)
    ensures SortedDesc(Largest(xs, n, score), score)
    ensures forall x, y :: x in Largest(xs, n, score) && y in xs && y !in Largest(xs, n, score) ==>
      score(x) >= score(y)
  {
    var sorted := SortDesc(xs, score);
    SortDescSpec(xs, score);
    var top := Largest(xs, n, score);
    var k := |top|;
    assert top == sorted[..k];
    var rest := sorted[k..];
    assert sorted == top + rest;
    assert multiset(xs) == multiset(top) + multiset(rest);
    PrefixDominates(sorted, k, score);
    forall x, y | x in top && y in xs && y !in top ensures score(x) >= score(y) {
      assert y in multiset(sorted);
      assert y in rest;
    }
    assert SortedDesc(top, score) by {
      forall i, j | 0 <= i < j < |top| ensures score(top[i]) >= score(top[j]) {
        assert top[i] == sorted[i] && top[j] == sorted[j];
      }
    }
  }
}
