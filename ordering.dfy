/**
  Listing order of the post and comment tables: newest first, that is
  descending by creation time and, between rows created at the same
  time, descending by primary key (`ordering = ['-pub_date', '-pk']`
  and `['-created', '-pk']`). Creation times are abstract natural numbers.
*/
module Ordering {

  /** The two columns a row is ordered by. */
  datatype Stamp = Stamp(when: nat, pk: nat)

  /** `a` may be listed before `b`. */
  predicate NotOlder(a: Stamp, b: Stamp) {
    a.when > b.when || (a.when == b.when && a.pk >= b.pk)
  }

  /** Every row is listed no later than the rows after it. */
  ghost predicate NewestFirst<T>(xs: seq<T>, stamp: T -> Stamp) {
    forall i, j :: 0 <= i < j < |xs| ==> NotOlder(stamp(xs[i]), stamp(xs[j]))
  }

  /** Insert `x` into a newest-first list. */
  function Insert<T>(x: T, xs: seq<T>, stamp: T -> Stamp): (r: seq<T>)
    ensures multiset(r) == multiset(xs) + multiset{x}
  {
    if xs == [] || NotOlder(stamp(x), stamp(xs[0])) then [x] + xs
    else
      assert xs == [xs[0]] + xs[1..];
      [xs[0]] + Insert(x, xs[1..], stamp)
  }

  /** The rows of `xs` in listing order (the ORDER BY of every query on the table). */
  function Newest<T>(xs: seq<T>, stamp: T -> Stamp): (r: seq<T>)
    ensures multiset(r) == multiset(xs)
  {
    if xs == [] then []
    else
      assert xs == [xs[0]] + xs[1..];
      Insert(xs[0], Newest(xs[1..], stamp), stamp)
  }

  lemma {:induction false} InsertSorted<T>(x: T, xs: seq<T>, stamp: T -> Stamp)
    requires NewestFirst(xs, stamp)
    ensures NewestFirst(Insert(x, xs, stamp), stamp)
  {
    var r := Insert(x, xs, stamp);
    if xs == [] || NotOlder(stamp(x), stamp(xs[0])) {
      forall i, j | 0 <= i < j < |r| ensures NotOlder(stamp(r[i]), stamp(r[j])) {
        if i == 0 {
          assert r[j] == xs[j - 1];
          assert NotOlder(stamp(xs[0]), stamp(xs[j - 1]));
        } else {
          assert r[i] == xs[i - 1] && r[j] == xs[j - 1];
        }
      }
    } else {
      var t := xs[1..];
      assert NewestFirst(t, stamp) by {
        forall i, j | 0 <= i < j < |t| ensures NotOlder(stamp(t[i]), stamp(t[j])) {
          assert t[i] == xs[i + 1] && t[j] == xs[j + 1];
        }
      }
      InsertSorted(x, t, stamp);
      var rt := Insert(x, t, stamp);
      assert r == [xs[0]] + rt;
      forall i, j | 0 <= i < j < |r| ensures NotOlder(stamp(r[i]), stamp(r[j])) {
        if i == 0 {
          var y := rt[j - 1];
          assert y in multiset(rt);
          assert y == x || y in multiset(t);
          if y != x {
            var m :| 0 <= m < |t| && t[m] == y;
            assert xs[m + 1] == y;
          }
        } else {
          assert r[i] == rt[i - 1] && r[j] == rt[j - 1];
        }
      }
    }
  }

  /** The listing order really is newest first. */
  lemma {:induction false} NewestSorted<T>(xs: seq<T>, stamp: T -> Stamp)
    ensures NewestFirst(Newest(xs, stamp), stamp)
  {
    if xs != [] {
      NewestSorted(xs[1..], stamp);
      InsertSorted(xs[0], Newest(xs[1..], stamp), stamp);
    }
  }

  /** Listing neither adds nor drops a row: exactly the rows of `xs` appear. */
  lemma NewestSameRows<T>(xs: seq<T>, stamp: T -> Stamp)
    ensures |Newest(xs, stamp)| == |xs|
    ensures forall x :: x in Newest(xs, stamp) <==> x in xs
  {
    var r := Newest(xs, stamp);
    assert |r| == |multiset(r)| == |multiset(xs)| == |xs|;
    forall x ensures x in r <==> x in xs {
      assert x in r <==> x in multiset(r);
      assert x in xs <==> x in multiset(xs);
    }
  }

  lemma NewestFirstTail<T>(xs: seq<T>, stamp: T -> Stamp)
    requires xs != [] && NewestFirst(xs, stamp)
    ensures NewestFirst(xs[1..], stamp)
  {
    var t := xs[1..];
    forall i, j | 0 <= i < j < |t| ensures NotOlder(stamp(t[i]), stamp(t[j])) {
      assert t[i] == xs[i + 1] && t[j] == xs[j + 1];
    }
  }

  lemma DistinctPkTail<T>(xs: seq<T>, stamp: T -> Stamp)
    requires xs != []
    requires forall i, j :: 0 <= i < j < |xs| ==> stamp(xs[i]).pk != stamp(xs[j]).pk
    ensures forall i, j :: 0 <= i < j < |xs| - 1 ==> stamp(xs[1..][i]).pk != stamp(xs[1..][j]).pk
  {
    forall i, j | 0 <= i < j < |xs| - 1 ensures stamp(xs[1..][i]).pk != stamp(xs[1..][j]).pk {
      assert xs[1..][i] == xs[i + 1] && xs[1..][j] == xs[j + 1];
    }
  }

  lemma TailMultiset<T>(xs: seq<T>)
    requires xs != []
    ensures multiset(xs[1..]) == multiset(xs) - multiset{xs[0]}
  {
    assert xs == [xs[0]] + xs[1..];
  }

  /** Two newest-first listings of the same rows, with distinct keys, start with the same row. */
  lemma SameHead<T>(xs: seq<T>, ys: seq<T>, stamp: T -> Stamp)
    requires xs != [] && multiset(xs) == multiset(ys)
    requires NewestFirst(xs, stamp) && NewestFirst(ys, stamp)
    requires forall i, j :: 0 <= i < j < |xs| ==> stamp(xs[i]).pk != stamp(xs[j]).pk
    ensures ys != [] && xs[0] == ys[0]
  {
    assert xs[0] in multiset(ys);
    assert ys != [];
    assert ys[0] in multiset(xs);
    var a :| 0 <= a < |ys| && ys[a] == xs[0];
    var b :| 0 <= b < |xs| && xs[b] == ys[0];
    assert a == 0 || NotOlder(stamp(ys[0]), stamp(ys[a]));
    assert NotOlder(stamp(xs[0]), stamp(xs[b]));
  }

  /**
    The listing order is a strict order on rows whose primary keys differ,
    so a newest-first listing of such rows is unique: any two of them
    holding the same rows are the same sequence.
  */
  lemma {:induction false} NewestFirstUnique<T>(xs: seq<T>, ys: seq<T>, stamp: T -> Stamp)
    requires multiset(xs) == multiset(ys)
    requires NewestFirst(xs, stamp) && NewestFirst(ys, stamp)
    requires forall i, j :: 0 <= i < j < |xs| ==> stamp(xs[i]).pk != stamp(xs[j]).pk
    ensures xs == ys
  {
    if xs == [] {
      assert |ys| == |multiset(ys)| == 0;
    } else {
      SameHead(xs, ys, stamp);
      var xt, yt := xs[1..], ys[1..];
      TailMultiset(xs);
      TailMultiset(ys);
      NewestFirstTail(xs, stamp);
      NewestFirstTail(ys, stamp);
      DistinctPkTail(xs, stamp);
      NewestFirstUnique(xt, yt, stamp);
    }
  }
}
