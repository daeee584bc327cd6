/** `Array.prototype.sort` with a comparator: a stable sort, modelled as
    insertion sort over a "may come first" relation `le`. */
module Sorting {
  ghost predicate TotalPreorder<T(!new)>(le: (T, T) -> bool) {
    && (forall a, b :: le(a, b) || le(b, a))
    && (forall a, b, c :: le(a, b) && le(b, c) ==> le(a, c))
  }

  predicate SortedBy<T>(xs: seq<T>, le: (T, T) -> bool) {
    forall i, j :: 0 <= i < j < |xs| ==> le(xs[i], xs[j])
  }

  /** Inserts `x` before the first element it may precede; `x` stands for an
      element that came earlier in the input, so ties keep input order. */
  function Insert<T>(x: T, ys: seq<T>, le: (T, T) -> bool): (r: seq<T>)
    ensures multiset(r) == multiset(ys) + multiset{x}
    ensures |r| == |ys| + 1
  {
    if ys == [] || le(x, ys[0]) then [x] + ys
    else
      assert ys == [ys[0]] + ys[1..];
      [ys[0]] + Insert(x, ys[1..], le)
  }

  lemma {:induction false} InsertSorted<T(!new)>(x: T, ys: seq<T>, le: (T, T) -> bool)
    requires TotalPreorder(le) && SortedBy(ys, le)
    ensures SortedBy(Insert(x, ys, le), le)
    ensures |ys| > 0 ==> Insert(x, ys, le)[0] == (if le(x, ys[0]) then x else ys[0])
  {
    if ys != [] && !le(x, ys[0]) {
      InsertSorted(x, ys[1..], le);
      var r := Insert(x, ys, le);
      var t := Insert(x, ys[1..], le);
      assert r == [ys[0]] + t;
      forall j | 0 < j < |r| ensures le(r[0], r[j]) {
        assert r[j] in multiset(t);
        assert r[j] in multiset(ys[1..]) + multiset{x};
        if r[j] == x {
        } else {
          assert r[j] in ys[1..];
        }
      }
    }
  }

  function SortBy<T>(xs: seq<T>, le: (T, T) -> bool): (r: seq<T>)
    ensures multiset(r) == multiset(xs)
    ensures |r| == |xs|
  {
    if xs == [] then []
    else
      assert xs == [xs[0]] + xs[1..];
      Insert(xs[0], SortBy(xs[1..], le), le)
  }

  /** The sort returns the input reordered so that `le` holds along it. */
  lemma {:induction false} SortBySorted<T(!new)>(xs: seq<T>, le: (T, T) -> bool)
    requires TotalPreorder(le)
    ensures SortedBy(SortBy(xs, le), le)
  {
    if xs != [] {
      SortBySorted(xs[1..], le);
      InsertSorted(xs[0], SortBy(xs[1..], le), le);
    }
  }

  /** A prefix of a sorted sequence may precede everything after it. */
  lemma SortedPrefix<T>(xs: seq<T>, le: (T, T) -> bool, n: nat)
    requires SortedBy(xs, le) && n <= |xs|
    ensures SortedBy(xs[..n], le)
    ensures forall i, j :: 0 <= i < n <= j < |xs| ==> le(xs[i], xs[j])
  {
  }
  /** `R` holds between the elements at any two different positions. */
  predicate Pairwise<T>(xs: seq<T>, R: (T, T) -> bool) {
    forall i, j :: 0 <= i < |xs| && 0 <= j < |xs| && i != j ==> R(xs[i], xs[j])
  }

  lemma {:induction false} InsertPairwise<T>(x: T, ys: seq<T>, le: (T, T) -> bool, R: (T, T) -> bool)
    requires Pairwise(ys, R)
    requires forall y :: y in ys ==> R(x, y) && R(y, x)
    ensures Pairwise(Insert(x, ys, le), R)
  {
    var r := Insert(x, ys, le);
    if ys == [] || le(x, ys[0]) {
      assert r == [x] + ys;
      forall i, j | 0 <= i < |r| && 0 <= j < |r| && i != j
        ensures R(r[i], r[j])
      {
        if i > 0 && j > 0 {
          assert r[i] == ys[i - 1] && r[j] == ys[j - 1];
        } else if i == 0 {
          assert r[j] in ys;
        } else {
          assert r[i] in ys;
        }
      }
    } else {
      InsertPairwise(x, ys[1..], le, R);
      var t := Insert(x, ys[1..], le);
      assert r == [ys[0]] + t;
      forall i, j | 0 <= i < |r| && 0 <= j < |r| && i != j
        ensures R(r[i], r[j])
      {
        if i > 0 && j > 0 {
          assert r[i] == t[i - 1] && r[j] == t[j - 1];
        } else {
          var k := if i == 0 then j else i;
          assert r[k] in multiset(ys[1..]) + multiset{x};
          if r[k] != x {
            assert r[k] in ys[1..];
            var m :| 0 <= m < |ys[1..]| && ys[1..][m] == r[k];
            assert ys[m + 1] == r[k];
          }
        }
      }
    }
  }

  /** Sorting moves elements but never puts two of them side by side that
      were not already related: a relation between all pairs survives. */
  lemma {:induction false} SortByPairwise<T>(xs: seq<T>, le: (T, T) -> bool, R: (T, T) -> bool)
    requires Pairwise(xs, R)
    ensures Pairwise(SortBy(xs, le), R)
  {
    if xs != [] {
      var tail := xs[1..];
      assert Pairwise(tail, R) by {
        forall i, j | 0 <= i < |tail| && 0 <= j < |tail| && i != j
          ensures R(tail[i], tail[j])
        {
          assert tail[i] == xs[i + 1] && tail[j] == xs[j + 1];
        }
      }
      SortByPairwise(tail, le, R);
      forall y | y in SortBy(tail, le)
        ensures R(xs[0], y) && R(y, xs[0])
      {
        assert y in multiset(tail);
        var m :| 0 <= m < |tail| && tail[m] == y;
        assert xs[m + 1] == y;
      }
      InsertPairwise(xs[0], SortBy(tail, le), le, R);
    }
  }
}
