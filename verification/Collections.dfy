/** Finite sets and sequences: sizes, members, and no element twice. */
module Collections {

  function Range(lo: int, hi: int): (r: set<int>)
    requires lo <= hi
    ensures |r| == hi - lo && forall x :: x in r <==> lo <= x < hi
    decreases hi - lo
  {
    if lo == hi then {} else Range(lo, hi - 1) + {hi - 1}
  }

  function UpTo(n: nat): (r: set<int>)
    ensures |r| == n && forall x :: x in r <==> 0 <= x < n
  {
    Range(0, n)
  }

  ghost predicate Distinct<T>(q: seq<T>) {
    forall i, j {:trigger q[i], q[j]} :: 0 <= i < j < |q| ==> q[i] != q[j]
  }

  lemma SubsetSize<T>(a: set<T>, b: set<T>)
    requires a <= b
    ensures |a| <= |b| && (|a| == |b| ==> a == b)
  {
    assert b == a + (b - a);
  }

  ghost function Members<T>(xs: seq<T>): set<T> {
    set x | x in xs
  }

  lemma {:induction false} FewMembers<T>(xs: seq<T>)
    ensures |Members(xs)| <= |xs|
    decreases |xs|
  {
    if xs != [] {
      var pre := xs[..|xs| - 1];
      FewMembers(pre);
      assert Members(xs) == Members(pre) + {xs[|xs| - 1]};
    } else {
      assert Members(xs) == {};
    }
  }

  lemma {:induction false} DistinctMembers<T>(xs: seq<T>)
    requires Distinct(xs)
    ensures |Members(xs)| == |xs|
    decreases |xs|
  {
    if xs != [] {
      var pre, x := xs[..|xs| - 1], xs[|xs| - 1];
      DistinctMembers(pre);
      assert Members(xs) == Members(pre) + {x};
      assert x !in pre;
    } else {
      assert Members(xs) == {};
    }
  }
}
