/**
  Tables are sequences of rows. This module gives the few queries the
  ORM performs on them: `filter`, `get` by a key, `exists`, `count`,
  and the statement that a column holds no duplicate.
*/
module Seqs {
  import opened Wrappers

  /** The rows of `xs` accepted by `keep`, in table order. */
  function Filter<T(!new)>(xs: seq<T>, keep: T -> bool): (r: seq<T>)
    ensures |r| <= |xs|
    ensures forall x :: x in r <==> x in xs && keep(x)
  {
    if xs == [] then []
    else (if keep(xs[0]) then [xs[0]] else []) + Filter(xs[1..], keep)
  }

  /** Some row of `xs` has `k` in the column `key`. */
  ghost predicate HasKey<T(!new), K>(xs: seq<T>, key: T -> K, k: K) {
    exists x :: x in xs && key(x) == k
  }

  /** No two rows of `xs` agree on the column `key`. */
  ghost predicate DistinctBy<T, K>(xs: seq<T>, key: T -> K) {
    forall i, j :: 0 <= i < j < |xs| ==> key(xs[i]) != key(xs[j])
  }

  /** The first row whose column `key` is `k`, if any. */
  function Find<T(!new), K(==)>(xs: seq<T>, key: T -> K, k: K): (r: Option<T>)
    ensures r.Some? ==> r.value in xs && key(r.value) == k
    ensures r.None? <==> !HasKey(xs, key, k)
  {
    if xs == [] then None
    else if key(xs[0]) == k then Some(xs[0])
    else Find(xs[1..], key, k)
  }

  /** The number of rows whose column `key` is `k`. */
  function CountKey<T(!new), K(==)>(xs: seq<T>, key: T -> K, k: K): (n: nat)
    ensures n <= |xs|
    ensures n == 0 <==> !HasKey(xs, key, k)
  {
    if xs == [] then 0
    else (if key(xs[0]) == k then 1 else 0) + CountKey(xs[1..], key, k)
  }

  /** Replace every row whose column `key` is `k` by `v`. */
  function UpdateWhere<T(!new), K(==)>(xs: seq<T>, key: T -> K, k: K, v: T): (r: seq<T>)
    ensures |r| == |xs|
    ensures forall i :: 0 <= i < |xs| ==> r[i] == if key(xs[i]) == k then v else xs[i]
  {
    seq(|xs|, i requires 0 <= i < |xs| => if key(xs[i]) == k then v else xs[i])
  }

  /** Replace each row by its image under `f`. */
  function MapRows<T>(xs: seq<T>, f: T -> T): (r: seq<T>)
    ensures |r| == |xs|
    ensures forall i :: 0 <= i < |xs| ==> r[i] == f(xs[i])
  {
    seq(|xs|, i requires 0 <= i < |xs| => f(xs[i]))
  }

  /** A column without duplicates holds each key at most once. */
  lemma {:induction false} DistinctCountAtMostOne<T(!new), K>(xs: seq<T>, key: T -> K, k: K)
    requires DistinctBy(xs, key)
    ensures CountKey(xs, key, k) <= 1
  {
    if xs != [] {
      DistinctCountAtMostOne(xs[1..], key, k);
      if key(xs[0]) == k {
        forall x | x in xs[1..] ensures key(x) != k {
          var j :| 0 <= j < |xs[1..]| && xs[1..][j] == x;
          assert xs[j + 1] == x;
        }
      }
    }
  }

  /** Appending a row adds one to the count of its key and nothing to the others. */
  lemma {:induction false} CountKeyAppend<T(!new), K>(xs: seq<T>, x: T, key: T -> K, k: K)
    ensures CountKey(xs + [x], key, k) == CountKey(xs, key, k) + (if key(x) == k then 1 else 0)
  {
    if xs != [] {
      assert (xs + [x])[1..] == xs[1..] + [x];
      CountKeyAppend(xs[1..], x, key, k);
    }
  }

  /** In a column without duplicates a key value names one row. */
  lemma DistinctSameKey<T, K>(xs: seq<T>, key: T -> K, x: T, y: T)
    requires DistinctBy(xs, key) && x in xs && y in xs && key(x) == key(y)
    ensures x == y
  {
    var i :| 0 <= i < |xs| && xs[i] == x;
    var j :| 0 <= j < |xs| && xs[j] == y;
  }

  /** Putting a row whose key is new in front keeps the column free of duplicates. */
  lemma ConsDistinct<T, K>(h: T, t: seq<T>, key: T -> K)
    requires DistinctBy(t, key) && forall y :: y in t ==> key(y) != key(h)
    ensures DistinctBy([h] + t, key)
  {
    var r := [h] + t;
    forall i, j | 0 <= i < j < |r| ensures key(r[i]) != key(r[j]) {
      assert r[j] == t[j - 1];
      if i > 0 {
        assert r[i] == t[i - 1];
      }
    }
  }

  /** Appending a row whose key is new keeps the column free of duplicates. */
  lemma AppendDistinct<T(!new), K>(xs: seq<T>, x: T, key: T -> K)
    requires DistinctBy(xs, key) && !HasKey(xs, key, key(x))
    ensures DistinctBy(xs + [x], key)
  {
    var r := xs + [x];
    forall i, j | 0 <= i < j < |r| ensures key(r[i]) != key(r[j]) {
      if j == |xs| {
        assert r[i] == xs[i];
      }
    }
  }

  /** Filtering keeps a column free of duplicates. */
  lemma {:induction false} FilterDistinct<T(!new), K>(xs: seq<T>, keep: T -> bool, key: T -> K)
    requires DistinctBy(xs, key)
    ensures DistinctBy(Filter(xs, keep), key)
  {
    if xs != [] {
      var t := xs[1..];
      FilterDistinct(t, keep, key);
      var ft := Filter(t, keep);
      if keep(xs[0]) {
        var r := Filter(xs, keep);
        assert r == [xs[0]] + ft;
        forall i, j | 0 <= i < j < |r| ensures key(r[i]) != key(r[j]) {
          if i == 0 {
            assert r[j] == ft[j - 1];
            assert r[j] in t;
            var m :| 0 <= m < |t| && t[m] == r[j];
            assert xs[m + 1] == r[j];
          } else {
            assert r[i] == ft[i - 1] && r[j] == ft[j - 1];
          }
        }
      } else {
        assert Filter(xs, keep) == ft;
      }
    }
  }

  /**
    Dropping exactly the rows whose key is `k` removes all of them, leaves
    the count of every other key alone and shortens the table by their number.
  */
  lemma {:induction false} FilterDropKey<T(!new), K>(xs: seq<T>, keep: T -> bool, key: T -> K, k: K, k': K)
    requires forall x :: keep(x) <==> key(x) != k
    ensures |Filter(xs, keep)| == |xs| - CountKey(xs, key, k)
    ensures CountKey(Filter(xs, keep), key, k') == if k' == k then 0 else CountKey(xs, key, k')
  {
    if xs != [] {
      FilterDropKey(xs[1..], keep, key, k, k');
      if keep(xs[0]) {
        assert Filter(xs, keep) == [xs[0]] + Filter(xs[1..], keep);
        assert ([xs[0]] + Filter(xs[1..], keep))[1..] == Filter(xs[1..], keep);
      } else {
        assert Filter(xs, keep) == Filter(xs[1..], keep);
      }
    }
  }

  /** A filter on one key value keeps as many rows as there are with that key. */
  lemma {:induction false} FilterKeepKey<T(!new), K>(xs: seq<T>, keep: T -> bool, key: T -> K, k: K)
    requires forall x :: keep(x) <==> key(x) == k
    ensures |Filter(xs, keep)| == CountKey(xs, key, k)
  {
    if xs != [] {
      FilterKeepKey(xs[1..], keep, key, k);
    }
  }

  /** A filter that accepts every row returns the table unchanged. */
  lemma {:induction false} FilterAll<T(!new)>(xs: seq<T>, keep: T -> bool)
    requires forall x :: x in xs ==> keep(x)
    ensures Filter(xs, keep) == xs
  {
    if xs != [] {
      assert xs[0] in xs;
      assert forall x :: x in xs[1..] ==> x in xs;
      FilterAll(xs[1..], keep);
      assert xs == [xs[0]] + xs[1..];
    }
  }

  /** Filtering a table with one row appended. */
  lemma {:induction false} FilterAppend<T(!new)>(xs: seq<T>, x: T, keep: T -> bool)
    ensures Filter(xs + [x], keep) == Filter(xs, keep) + if keep(x) then [x] else []
  {
    if xs == [] {
      assert [x][1..] == [];
    } else {
      assert (xs + [x])[1..] == xs[1..] + [x];
      FilterAppend(xs[1..], x, keep);
    }
  }

  /** The distinct rows of `xs` that `keep` accepts. */
  ghost function Accepted<T(!new)>(xs: seq<T>, keep: T -> bool): set<T> {
    set x | x in xs && keep(x)
  }

  /** On a table without duplicate rows, a filter's length is the number of distinct rows it accepts. */
  lemma {:induction false} FilterCard<T(!new), K>(xs: seq<T>, keep: T -> bool, key: T -> K)
    requires DistinctBy(xs, key)
    ensures |Filter(xs, keep)| == |Accepted(xs, keep)|
  {
    if xs == [] {
      assert Accepted(xs, keep) == {};
    } else {
      var t := xs[1..];
      DistinctTail(xs, key);
      FilterCard(t, keep, key);
      HeadNotInTail(xs, key);
      AcceptedCons(xs, keep);
      if keep(xs[0]) {
        assert Filter(xs, keep) == [xs[0]] + Filter(t, keep);
      } else {
        assert Filter(xs, keep) == Filter(t, keep);
      }
    }
  }

  lemma AcceptedCons<T(!new)>(xs: seq<T>, keep: T -> bool)
    requires xs != [] && xs[0] !in xs[1..]
    ensures |Accepted(xs, keep)| == |Accepted(xs[1..], keep)| + if keep(xs[0]) then 1 else 0
  {
    var t := xs[1..];
    assert forall x :: x in xs <==> x == xs[0] || x in t by {
      assert xs == [xs[0]] + t;
    }
    if keep(xs[0]) {
      assert Accepted(xs, keep) == Accepted(t, keep) + {xs[0]};
    } else {
      assert Accepted(xs, keep) == Accepted(t, keep);
    }
  }

  lemma DistinctTail<T, K>(xs: seq<T>, key: T -> K)
    requires xs != [] && DistinctBy(xs, key)
    ensures DistinctBy(xs[1..], key)
  {
    var t := xs[1..];
    forall i, j | 0 <= i < j < |t| ensures key(t[i]) != key(t[j]) {
      assert t[i] == xs[i + 1] && t[j] == xs[j + 1];
    }
  }

  lemma HeadNotInTail<T, K>(xs: seq<T>, key: T -> K)
    requires xs != [] && DistinctBy(xs, key)
    ensures xs[0] !in xs[1..]
  {
    forall m | 0 <= m < |xs| - 1 ensures xs[1..][m] != xs[0] {
      assert xs[1..][m] == xs[m + 1];
    }
  }
}
