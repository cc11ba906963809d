/**
 * The `average` helper of main.js (lines 18-23): zero for an empty list,
 * otherwise the sum (a left fold, as `reduce` computes it) divided by the
 * length. Numbers are exact reals here, not IEEE doubles.
 */
module Averaging {

  /** The left fold `numbers.reduce((acc, curr) => acc + curr, 0)`. */
  function Sum(xs: seq<real>): real
    decreases |xs|
  {
    if xs == [] then 0.0 else Sum(xs[..|xs| - 1]) + xs[|xs| - 1]
  }

  function Average(xs: seq<real>): (r: real)
    ensures xs == [] ==> r == 0.0
    ensures xs != [] ==> r * (|xs| as real) == Sum(xs)
  {
    if |xs| == 0 then 0.0 else Sum(xs) / (|xs| as real)
  }

  lemma {:induction false} SumAppend(a: seq<real>, b: seq<real>)
    ensures Sum(a + b) == Sum(a) + Sum(b)
    decreases |b|
  {
    if b == [] {
      assert a + b == a;
    } else {
      var b' := b[..|b| - 1];
      assert (a + b)[..|a + b| - 1] == a + b';
      SumAppend(a, b');
    }
  }

  /** Summing does not depend on the order of the elements. */
  lemma {:induction false} SumPermutation(xs: seq<real>, ys: seq<real>)
    requires multiset(xs) == multiset(ys)
    ensures Sum(xs) == Sum(ys)
    decreases |xs|
  {
    if xs == [] {
      assert |ys| == |multiset(ys)| == 0;
    } else {
      var x := xs[|xs| - 1];
      var xs' := xs[..|xs| - 1];
      assert xs == xs' + [x];
      assert x in multiset(ys);
      var k :| 0 <= k < |ys| && ys[k] == x;
      var ys' := ys[..k] + ys[k + 1..];
      assert ys == ys[..k] + [x] + ys[k + 1..];
      assert multiset(ys') == multiset(ys) - multiset{x};
      assert multiset(xs') == multiset(xs) - multiset{x};
      SumPermutation(xs', ys');
      SumAppend(ys[..k] + [x], ys[k + 1..]);
      SumAppend(ys[..k], [x]);
      SumAppend(ys[..k], ys[k + 1..]);
      assert Sum([x]) == x by {
        assert [x][..0] == [];
      }
    }
  }

  /** `average` is order-independent. */
  lemma AveragePermutation(xs: seq<real>, ys: seq<real>)
    requires multiset(xs) == multiset(ys)
    ensures Average(xs) == Average(ys)
  {
    assert |xs| == |multiset(xs)| == |multiset(ys)| == |ys|;
    SumPermutation(xs, ys);
  }

  lemma AverageSingleton(a: real)
    ensures Average([a]) == a
  {
    assert [a][..0] == [];
    assert Sum([a]) == a;
  }

  lemma {:induction false} SumAtMost(xs: seq<real>, hi: real)
    requires forall i :: 0 <= i < |xs| ==> xs[i] <= hi
    ensures Sum(xs) <= (|xs| as real) * hi
    decreases |xs|
  {
    if xs != [] {
      var n := |xs| - 1;
      SumAtMost(xs[..n], hi);
      assert (n as real) * hi + hi == ((n + 1) as real) * hi;
    }
  }

  lemma {:induction false} SumAtLeast(xs: seq<real>, lo: real)
    requires forall i :: 0 <= i < |xs| ==> lo <= xs[i]
    ensures (|xs| as real) * lo <= Sum(xs)
    decreases |xs|
  {
    if xs != [] {
      var n := |xs| - 1;
      SumAtLeast(xs[..n], lo);
      assert (n as real) * lo + lo == ((n + 1) as real) * lo;
    }
  }

  /** A sum of elements that all exceed m exceeds |xs| times m. */
  lemma {:induction false} SumAbove(xs: seq<real>, m: real)
    requires xs != []
    requires forall i :: 0 <= i < |xs| ==> m < xs[i]
    ensures (|xs| as real) * m < Sum(xs)
    decreases |xs|
  {
    var n := |xs| - 1;
    if n > 0 {
      SumAbove(xs[..n], m);
    } else {
      assert xs[..n] == [];
    }
    assert (n as real) * m + m == ((n + 1) as real) * m;
  }

  /** The average of a non-empty list lies between its bounds. */
  lemma AverageWithinBounds(xs: seq<real>, lo: real, hi: real)
    requires xs != []
    requires forall i :: 0 <= i < |xs| ==> lo <= xs[i] <= hi
    ensures lo <= Average(xs) <= hi
  {
    SumAtMost(xs, hi);
    SumAtLeast(xs, lo);
    var n := |xs| as real;
    assert Average(xs) * n == Sum(xs);
  }

  /** Not every element of a non-empty list is strictly above its average. */
  lemma NotAllAboveAverage(xs: seq<real>)
    requires xs != []
    ensures exists i :: 0 <= i < |xs| && xs[i] <= Average(xs)
  {
    if forall i :: 0 <= i < |xs| ==> Average(xs) < xs[i] {
      SumAbove(xs, Average(xs));
      assert false;
    }
  }
}
