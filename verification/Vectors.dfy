/** The 14-dimensional vectors of the index and their distances.

  A 32-bit float is a real number here: no rounding, no infinity and no NaN.
 */
module Vectors {

  const DIMS: nat := 14

  type Vec = v: seq<real> | |v| == DIMS witness seq(DIMS, _ => 0.0)

  function Sq(x: real): (r: real)
    ensures r >= 0.0
  {
    x * x
  }

  /** Squared Euclidean distance over the first n components. */
  function SqDistTo(a: Vec, b: Vec, n: nat): (d: real)
    requires n <= DIMS
    ensures d >= 0.0
  {
    if n == 0 then 0.0 else SqDistTo(a, b, n - 1) + Sq(a[n - 1] - b[n - 1])
  }

  function SqDist(a: Vec, b: Vec): (d: real)
    ensures d >= 0.0
  {
    SqDistTo(a, b, DIMS)
  }

  method SquaredEuclidean(a: Vec, b: Vec) returns (sum: real)
    ensures sum == SqDist(a, b)
  {
    sum := 0.0;
    for i := 0 to DIMS
      invariant sum == SqDistTo(a, b, i)
    {
      var d := a[i] - b[i];
      sum := sum + d * d;
    }
  }

  ghost predicate Within(v: Vec, lo: real, hi: real) {
    forall j :: 0 <= j < DIMS ==> lo <= v[j] <= hi
  }

  lemma {:induction false} SqDistBound(a: Vec, b: Vec, n: nat)
    requires n <= DIMS && Within(a, -1.0, 1.0) && Within(b, -1.0, 1.0)
    ensures SqDistTo(a, b, n) <= 4.0 * n as real
  {
    if n > 0 {
      SqDistBound(a, b, n - 1);
      SqBound(a[n - 1] - b[n - 1], 2.0);
    }
  }

  lemma SqBound(x: real, r: real)
    requires -r <= x <= r
    ensures Sq(x) <= r * r
  {
    if x >= 0.0 {
      assert x * x <= x * r <= r * r;
    } else {
      assert (-x) * (-x) <= (-x) * r <= r * r;
    }
  }

  lemma {:induction false} SqDistSymmetric(a: Vec, b: Vec, n: nat)
    requires n <= DIMS
    ensures SqDistTo(a, b, n) == SqDistTo(b, a, n)
  {
    if n > 0 {
      SqDistSymmetric(a, b, n - 1);
      assert Sq(a[n - 1] - b[n - 1]) == Sq(b[n - 1] - a[n - 1]);
    }
  }
}
