/** Lloyd's algorithm as the index builder runs it, over exact reals, and its descent theorem. */
module KMeans {
  import opened Ordering
  import opened Vectors
  import opened Builder

  // ---------- One iteration, as a function ----------

  function Assignment(sample: seq<Vec>, centroids: seq<Vec>): (a: seq<nat>)
    ensures |a| == |sample|
  {
    seq(|sample|, i requires 0 <= i < |sample| => Nearest(sample[i], centroids))
  }

  /** How many of the first n samples are assigned to ci. */
  function Count(a: seq<nat>, ci: nat, n: nat): nat
    requires n <= |a|
  {
    if n == 0 then 0 else Count(a, ci, n - 1) + if a[n - 1] == ci then 1 else 0
  }

  /** The sum of component j over those samples. */
  function CoordSum(sample: seq<Vec>, a: seq<nat>, ci: nat, j: nat, n: nat): real
    requires n <= |a| == |sample| && j < DIMS
  {
    if n == 0 then 0.0 else CoordSum(sample, a, ci, j, n - 1) + if a[n - 1] == ci then sample[n - 1][j] else 0.0
  }

  /** The mean of a cluster, or the old centroid when nothing is assigned to it. */
  function NewCentroid(sample: seq<Vec>, a: seq<nat>, centroids: seq<Vec>, ci: nat): Vec
    requires |a| == |sample| && ci < |centroids|
  {
    var n := Count(a, ci, |a|);
    if n == 0 then centroids[ci] else
      seq(DIMS, j requires 0 <= j < DIMS => CoordSum(sample, a, ci, j, |a|) / n as real)
  }

  function LloydStep(sample: seq<Vec>, centroids: seq<Vec>): (c: seq<Vec>)
    ensures |c| == |centroids|
  {
    var a := Assignment(sample, centroids);
    seq(|centroids|, ci requires 0 <= ci < |centroids| => NewCentroid(sample, a, centroids, ci))
  }

  function Lloyd(sample: seq<Vec>, init: seq<Vec>, iters: nat): (c: seq<Vec>)
    ensures |c| == |init|
  {
    if iters == 0 then init else LloydStep(sample, Lloyd(sample, init, iters - 1))
  }

  // ---------- The program ----------

  method AssignSamples(sample: seq<Vec>, centroids: seq<Vec>, assignments: array<nat>)
    requires assignments.Length == |sample|
    modifies assignments
    ensures assignments[..] == Assignment(sample, centroids)
  {
    for vi := 0 to |sample|
      invariant forall i :: 0 <= i < vi ==> assignments[i] == Nearest(sample[i], centroids)
    {
      assignments[vi] := NearestCentroid(sample[vi], centroids);
    }
  }

  /** The accumulators hold the sums and counts over the first n samples. */
  ghost predicate Accumulated(sample: seq<Vec>, a: seq<nat>, sums: seq<Vec>, counts: seq<nat>, n: nat)
    requires n <= |a| == |sample|
  {
    && |sums| == |counts|
    && (forall ci {:trigger counts[ci]} :: 0 <= ci < |counts| ==> counts[ci] == Count(a, ci, n))
    && (forall ci, j :: 0 <= ci < |sums| && 0 <= j < DIMS ==> sums[ci][j] == CoordSum(sample, a, ci, j, n))
  }

  method AddInto(sum: Vec, v: Vec) returns (r: Vec)
    ensures forall j :: 0 <= j < DIMS ==> r[j] == sum[j] + v[j]
  {
    r := sum;
    for j := 0 to DIMS
      invariant forall i :: 0 <= i < DIMS ==> r[i] == if i < j then sum[i] + v[i] else sum[i]
    {
      r := r[j := r[j] + v[j]];
    }
  }

  method Accumulate(sample: seq<Vec>, a: seq<nat>, k: nat) returns (sums: array<Vec>, counts: array<nat>)
    requires |a| == |sample| && forall i :: 0 <= i < |a| ==> a[i] < k
    ensures fresh(sums) && fresh(counts) && sums.Length == counts.Length == k
    ensures Accumulated(sample, a, sums[..], counts[..], |a|)
  {
    sums := new Vec[k](_ => seq(DIMS, _ => 0.0));
    counts := new nat[k](_ => 0);
    for vi := 0 to |sample|
      invariant Accumulated(sample, a, sums[..], counts[..], vi)
    {
      ghost var s, c := sums[..], counts[..];
      var ci := a[vi];
      counts[ci] := counts[ci] + 1;
      sums[ci] := AddInto(sums[ci], sample[vi]);
      AccumulateStep(sample, a, s, c, sums[..], counts[..], vi);
    }
  }

  lemma AccumulateStep(sample: seq<Vec>, a: seq<nat>, s: seq<Vec>, c: seq<nat>, s': seq<Vec>, c': seq<nat>, n: nat)
    requires n < |a| == |sample| && Accumulated(sample, a, s, c, n) && a[n] < |c|
    requires c' == c[a[n] := c[a[n]] + 1] && |s'| == |s|
    requires forall ci :: 0 <= ci < |s| && ci != a[n] ==> s'[ci] == s[ci]
    requires forall j :: 0 <= j < DIMS ==> s'[a[n]][j] == s[a[n]][j] + sample[n][j]
    ensures Accumulated(sample, a, s', c', n + 1)
  {
  }

  method Mean(sum: Vec, count: nat) returns (m: Vec)
    requires count > 0
    ensures forall j :: 0 <= j < DIMS ==> m[j] == sum[j] / count as real
  {
    m := sum;
    for j := 0 to DIMS
      invariant forall i :: 0 <= i < DIMS ==> m[i] == if i < j then sum[i] / count as real else sum[i]
    {
      m := m[j := sum[j] / count as real];
    }
  }

  method Recompute(sample: seq<Vec>, a: seq<nat>, centroids: array<Vec>)
    requires |a| == |sample| && forall i :: 0 <= i < |a| ==> a[i] < centroids.Length
    modifies centroids
    ensures forall ci :: 0 <= ci < centroids.Length ==> centroids[ci] == NewCentroid(sample, a, old(centroids[..]), ci)
  {
    var k := centroids.Length;
    ghost var was := centroids[..];
    var sums, counts := Accumulate(sample, a, k);
    for ci := 0 to k
      invariant Accumulated(sample, a, sums[..], counts[..], |a|)
      invariant forall i :: 0 <= i < ci ==> centroids[i] == NewCentroid(sample, a, was, i)
      invariant forall i :: ci <= i < k ==> centroids[i] == was[i]
    {
      assert counts[..][ci] == counts[ci] && sums[..][ci] == sums[ci];
      if counts[ci] > 0 {
        centroids[ci] := Mean(sums[ci], counts[ci]);
      }
      assert centroids[ci] == NewCentroid(sample, a, was, ci);
    }
  }

  /** The body of the iteration loop. */
  method Iterate(sample: seq<Vec>, centroids: array<Vec>, assignments: array<nat>)
    requires assignments.Length == |sample| && centroids.Length >= 1
    modifies centroids, assignments
    ensures centroids[..] == LloydStep(sample, old(centroids[..]))
  {
    AssignSamples(sample, centroids[..], assignments);
    Recompute(sample, assignments[..], centroids);
  }

  /** A shuffle of 0..n. */
  ghost predicate IsShuffle(indices: seq<nat>, n: nat) {
    |indices| == n && Distinct(indices) && forall i :: 0 <= i < n ==> indices[i] < n
  }

  /** The initial centroids: the samples at the first k shuffled indices. */
  function Forgy(sample: seq<Vec>, indices: seq<nat>, k: nat): (c: seq<Vec>)
    requires k <= |indices| && forall i :: 0 <= i < |indices| ==> indices[i] < |sample|
    ensures |c| == k
  {
    seq(k, i requires 0 <= i < k => sample[indices[i]])
  }

  /** `kmeans`, with the shuffled indices as a parameter. */
  method RunKMeans(sample: seq<Vec>, k: nat, iters: nat, indices: seq<nat>) returns (result: seq<Vec>)
    requires |sample| >= k >= 1 && IsShuffle(indices, |sample|)
    ensures result == Lloyd(sample, Forgy(sample, indices, k), iters)
  {
    var init := Forgy(sample, indices, k);
    var centroids := new Vec[k](i requires 0 <= i < k => init[i]);
    assert centroids[..] == init;
    var assignments := new nat[|sample|](_ => 0);
    for iter := 0 to iters
      invariant centroids[..] == Lloyd(sample, init, iter)
    {
      Iterate(sample, centroids, assignments);
    }
    result := centroids[..];
  }

  // ---------- Containment ----------

  /** Component j lies between lo[j] and hi[j], for every j. */
  ghost predicate InBox(v: Vec, lo: Vec, hi: Vec) {
    forall j :: 0 <= j < DIMS ==> lo[j] <= v[j] <= hi[j]
  }

  ghost predicate AllInBox(vs: seq<Vec>, lo: Vec, hi: Vec) {
    forall i :: 0 <= i < |vs| ==> InBox(vs[i], lo, hi)
  }

  function Times(n: nat, x: real): real { n as real * x }

  lemma TimesStep(n: nat, x: real)
    ensures Times(n + 1, x) == Times(n, x) + x
  {
  }

  lemma {:induction false} SumWithin(sample: seq<Vec>, a: seq<nat>, ci: nat, j: nat, n: nat, lo: Vec, hi: Vec)
    requires n <= |a| == |sample| && j < DIMS && AllInBox(sample, lo, hi)
    ensures Times(Count(a, ci, n), lo[j]) <= CoordSum(sample, a, ci, j, n) <= Times(Count(a, ci, n), hi[j])
  {
    if n == 0 {
      assert Times(0, lo[j]) == Times(0, hi[j]) == 0.0;
    } else {
      hide Times;
      SumWithin(sample, a, ci, j, n - 1, lo, hi);
      assert InBox(sample[n - 1], lo, hi);
      TimesStep(Count(a, ci, n - 1), lo[j]);
      TimesStep(Count(a, ci, n - 1), hi[j]);
    }
  }

  lemma QuotientNonNegative(s: real, c: real)
    requires c > 0.0 && s >= 0.0
    ensures s / c >= 0.0
  {
  }

  lemma QuotientWithin(s: real, n: nat, lo: real, hi: real)
    requires n > 0 && Times(n, lo) <= s <= Times(n, hi)
    ensures lo <= s / n as real <= hi
  {
    var c := n as real;
    QuotientNonNegative(s - c * lo, c);
    QuotientNonNegative(c * hi - s, c);
    assert (s - c * lo) / c == s / c - lo;
    assert (c * hi - s) / c == hi - s / c;
  }

  lemma NewCentroidWithin(sample: seq<Vec>, a: seq<nat>, centroids: seq<Vec>, ci: nat, lo: Vec, hi: Vec)
    requires |a| == |sample| && ci < |centroids| && AllInBox(sample, lo, hi) && InBox(centroids[ci], lo, hi)
    ensures InBox(NewCentroid(sample, a, centroids, ci), lo, hi)
  {
    hide Times;
    var n := Count(a, ci, |a|);
    if n > 0 {
      forall j | 0 <= j < DIMS ensures lo[j] <= CoordSum(sample, a, ci, j, |a|) / n as real <= hi[j] {
        SumWithin(sample, a, ci, j, |a|, lo, hi);
        QuotientWithin(CoordSum(sample, a, ci, j, |a|), n, lo[j], hi[j]);
      }
    }
  }

  lemma StepStaysWithin(sample: seq<Vec>, centroids: seq<Vec>, lo: Vec, hi: Vec)
    requires AllInBox(sample, lo, hi) && AllInBox(centroids, lo, hi)
    ensures AllInBox(LloydStep(sample, centroids), lo, hi)
  {
    hide NewCentroid, InBox;
    forall ci | 0 <= ci < |centroids| ensures InBox(LloydStep(sample, centroids)[ci], lo, hi) {
      NewCentroidWithin(sample, Assignment(sample, centroids), centroids, ci, lo, hi);
    }
  }

  lemma {:induction false} LloydStaysWithin(sample: seq<Vec>, init: seq<Vec>, iters: nat, lo: Vec, hi: Vec)
    requires AllInBox(sample, lo, hi) && AllInBox(init, lo, hi)
    ensures AllInBox(Lloyd(sample, init, iters), lo, hi)
  {
    if iters > 0 {
      LloydStaysWithin(sample, init, iters - 1, lo, hi);
      StepStaysWithin(sample, Lloyd(sample, init, iters - 1), lo, hi);
    }
  }

  /** Centroids never leave the box spanned by the samples: in every coordinate they stay between any bounds that the
    samples keep in that coordinate. */
  lemma KMeansStaysInBox(sample: seq<Vec>, indices: seq<nat>, k: nat, n: nat, lo: Vec, hi: Vec)
    requires IsShuffle(indices, |sample|) && k <= |sample| && AllInBox(sample, lo, hi)
    ensures AllInBox(Lloyd(sample, Forgy(sample, indices, k), n), lo, hi)
  {
    LloydStaysWithin(sample, Forgy(sample, indices, k), n, lo, hi);
  }

  // ---------- Descent ----------

  /** The squared distance to the nearest centroid. */
  function MinDist(v: Vec, centroids: seq<Vec>): (d: real)
    requires centroids != []
    ensures forall i :: 0 <= i < |centroids| ==> d <= SqDist(v, centroids[i])
  {
    var n := |centroids| - 1;
    var last := SqDist(v, centroids[n]);
    if n == 0 then last else
      var d := MinDist(v, centroids[..n]);
      assert forall i :: 0 <= i < n ==> centroids[..n][i] == centroids[i];
      if last < d then last else d
  }

  lemma {:induction false} MinDistIsReached(v: Vec, centroids: seq<Vec>) returns (i: nat)
    requires centroids != []
    ensures i < |centroids| && MinDist(v, centroids) == SqDist(v, centroids[i])
  {
    var n := |centroids| - 1;
    if n == 0 || MinDist(v, centroids) == SqDist(v, centroids[n]) {
      i := n;
    } else {
      i := MinDistIsReached(v, centroids[..n]);
    }
  }

  /** The sum over the first n samples of the squared distance to the nearest centroid. */
  function InertiaTo(sample: seq<Vec>, centroids: seq<Vec>, n: nat): real
    requires n <= |sample| && centroids != []
  {
    if n == 0 then 0.0 else InertiaTo(sample, centroids, n - 1) + MinDist(sample[n - 1], centroids)
  }

  function Inertia(sample: seq<Vec>, centroids: seq<Vec>): real
    requires centroids != []
  {
    InertiaTo(sample, centroids, |sample|)
  }

  /** The same sum when every sample is charged to its assigned centroid. */
  function Cost(sample: seq<Vec>, a: seq<nat>, centroids: seq<Vec>, n: nat): real
    requires n <= |a| == |sample| && forall i :: 0 <= i < |a| ==> a[i] < |centroids|
  {
    if n == 0 then 0.0 else Cost(sample, a, centroids, n - 1) + SqDist(sample[n - 1], centroids[a[n - 1]])
  }

  /** No assignment beats the nearest centroids. */
  lemma {:induction false} InertiaIsLeast(sample: seq<Vec>, a: seq<nat>, centroids: seq<Vec>, n: nat)
    requires centroids != [] && n <= |a| == |sample| && forall i :: 0 <= i < |a| ==> a[i] < |centroids|
    ensures InertiaTo(sample, centroids, n) <= Cost(sample, a, centroids, n)
  {
    if n > 0 {
      InertiaIsLeast(sample, a, centroids, n - 1);
    }
  }

  /** Some centroid is nearer than the sentinel, or the first centroid is a nearest one. */
  ghost predicate Serves(v: Vec, centroids: seq<Vec>)
    requires centroids != []
  {
    || (exists c :: 0 <= c < |centroids| && SqDist(v, centroids[c]) < F32_MAX)
    || (forall c :: 0 <= c < |centroids| ==> SqDist(v, centroids[0]) <= SqDist(v, centroids[c]))
  }

  ghost predicate Served(sample: seq<Vec>, centroids: seq<Vec>)
    requires centroids != []
  {
    forall i :: 0 <= i < |sample| ==> Serves(sample[i], centroids)
  }

  /** The program's choice reaches the smallest distance exactly when the sentinel does not come first. */
  lemma NearestAttainsIffServed(v: Vec, centroids: seq<Vec>)
    requires centroids != []
    ensures SqDist(v, centroids[Nearest(v, centroids)]) == MinDist(v, centroids) <==> Serves(v, centroids)
  {
    NearestIsFirstMinimiser(v, centroids);
    var i := MinDistIsReached(v, centroids);
  }

  lemma {:induction false} ServedCost(sample: seq<Vec>, centroids: seq<Vec>, n: nat)
    requires centroids != [] && n <= |sample| && Served(sample, centroids)
    ensures Cost(sample, Assignment(sample, centroids), centroids, n) == InertiaTo(sample, centroids, n)
  {
    hide MinDist, Serves, SqDist, Nearest;
    if n > 0 {
      ServedCost(sample, centroids, n - 1);
      NearestAttainsIffServed(sample[n - 1], centroids);
    }
  }

  lemma {:induction false} UnservedCost(sample: seq<Vec>, centroids: seq<Vec>, i: nat, n: nat)
    requires centroids != [] && i < n <= |sample| && !Serves(sample[i], centroids)
    ensures Cost(sample, Assignment(sample, centroids), centroids, n) > InertiaTo(sample, centroids, n)
  {
    hide MinDist, Serves, SqDist, Nearest;
    if i < n - 1 {
      UnservedCost(sample, centroids, i, n - 1);
    } else {
      InertiaIsLeast(sample, Assignment(sample, centroids), centroids, i);
      NearestAttainsIffServed(sample[i], centroids);
    }
  }

  /** The assignment the program computes attains the inertia exactly when every sample is served. */
  lemma AssignmentIsOptimalIffServed(sample: seq<Vec>, centroids: seq<Vec>)
    requires centroids != []
    ensures Cost(sample, Assignment(sample, centroids), centroids, |sample|) == Inertia(sample, centroids)
       <==> Served(sample, centroids)
  {
    hide Serves;
    if Served(sample, centroids) {
      ServedCost(sample, centroids, |sample|);
    } else {
      var i :| 0 <= i < |sample| && !Serves(sample[i], centroids);
      UnservedCost(sample, centroids, i, |sample|);
    }
  }

  /** One coordinate's change in cost when n points with coordinate sum s move their centre from x to y. */
  function Term(n: real, s: real, x: real, y: real): real {
    n * (y * y - x * x) - 2.0 * (y - x) * s
  }

  function Delta(sample: seq<Vec>, a: seq<nat>, ci: nat, x: Vec, y: Vec, n: nat, d: nat): real
    requires n <= |a| == |sample| && d <= DIMS
  {
    if d == 0 then 0.0 else
      Delta(sample, a, ci, x, y, n, d - 1)
      + Term(Count(a, ci, n) as real, CoordSum(sample, a, ci, d - 1, n), x[d - 1], y[d - 1])
  }

  lemma TermStep(n: real, s: real, v: real, x: real, y: real)
    ensures Term(n + 1.0, s + v, x, y) == Term(n, s, x, y) + Sq(v - y) - Sq(v - x)
  {
  }

  lemma {:induction false} DeltaStep(sample: seq<Vec>, a: seq<nat>, ci: nat, x: Vec, y: Vec, n: nat, d: nat)
    requires 0 < n <= |a| == |sample| && d <= DIMS
    ensures Delta(sample, a, ci, x, y, n, d) == Delta(sample, a, ci, x, y, n - 1, d)
      + if a[n - 1] == ci then SqDistTo(sample[n - 1], y, d) - SqDistTo(sample[n - 1], x, d) else 0.0
  {
    if d > 0 {
      DeltaStep(sample, a, ci, x, y, n, d - 1);
      var j := d - 1;
      TermStep(Count(a, ci, n - 1) as real, CoordSum(sample, a, ci, j, n - 1), sample[n - 1][j], x[j], y[j]);
    }
  }

  lemma {:induction false} DeltaOfNothing(sample: seq<Vec>, a: seq<nat>, ci: nat, x: Vec, y: Vec, d: nat)
    requires |a| == |sample| && d <= DIMS
    ensures Delta(sample, a, ci, x, y, 0, d) == 0.0
  {
    if d > 0 {
      DeltaOfNothing(sample, a, ci, x, y, d - 1);
    }
  }

  /** Moving one centroid changes the cost by its Delta and nothing else. */
  lemma {:induction false} CostAfterMove(sample: seq<Vec>, a: seq<nat>, centroids: seq<Vec>, ci: nat, y: Vec, n: nat)
    requires n <= |a| == |sample| && (forall i :: 0 <= i < |a| ==> a[i] < |centroids|) && ci < |centroids|
    ensures Cost(sample, a, centroids[ci := y], n)
         == Cost(sample, a, centroids, n) + Delta(sample, a, ci, centroids[ci], y, n, DIMS)
  {
    if n == 0 {
      DeltaOfNothing(sample, a, ci, centroids[ci], y, DIMS);
    } else {
      CostAfterMove(sample, a, centroids, ci, y, n - 1);
      DeltaStep(sample, a, ci, centroids[ci], y, n, DIMS);
    }
  }

  /** The mean minimises the sum of squares. */
  lemma TermAtMean(n: real, s: real, x: real)
    requires n > 0.0
    ensures Term(n, s, x, s / n) <= 0.0
  {
    var y := s / n;
    assert s == y * n;
    assert Term(n, s, x, y) == -(n * Sq(y - x));
    assert n * Sq(y - x) >= 0.0;
  }

  lemma {:induction false} DeltaAtMean(sample: seq<Vec>, a: seq<nat>, centroids: seq<Vec>, ci: nat, x: Vec, d: nat)
    requires |a| == |sample| && ci < |centroids| && d <= DIMS && Count(a, ci, |a|) > 0
    ensures Delta(sample, a, ci, x, NewCentroid(sample, a, centroids, ci), |a|, d) <= 0.0
  {
    if d > 0 {
      DeltaAtMean(sample, a, centroids, ci, x, d - 1);
      TermAtMean(Count(a, ci, |a|) as real, CoordSum(sample, a, ci, d - 1, |a|), x[d - 1]);
    }
  }

  lemma {:induction false} NoSamplesNoSum(sample: seq<Vec>, a: seq<nat>, ci: nat, j: nat, n: nat)
    requires n <= |a| == |sample| && j < DIMS && Count(a, ci, n) == 0
    ensures CoordSum(sample, a, ci, j, n) == 0.0
  {
    if n > 0 {
      NoSamplesNoSum(sample, a, ci, j, n - 1);
    }
  }

  /** A cluster without samples costs nothing wherever its centroid is. */
  lemma {:induction false} DeltaOfEmpty(sample: seq<Vec>, a: seq<nat>, ci: nat, x: Vec, y: Vec, d: nat)
    requires |a| == |sample| && d <= DIMS && Count(a, ci, |a|) == 0
    ensures Delta(sample, a, ci, x, y, |a|, d) == 0.0
  {
    if d > 0 {
      DeltaOfEmpty(sample, a, ci, x, y, d - 1);
      NoSamplesNoSum(sample, a, ci, d - 1, |a|);
    }
  }

  /** From any list of centroids, the first m replaced by the recomputed ones, as in the update loop. */
  function Moved(sample: seq<Vec>, a: seq<nat>, centroids: seq<Vec>, from: seq<Vec>, m: nat): (c: seq<Vec>)
    requires |a| == |sample| && m <= |centroids| == |from|
    ensures |c| == |centroids|
  {
    seq(|centroids|, ci requires 0 <= ci < |centroids| =>
      if ci < m then NewCentroid(sample, a, centroids, ci) else from[ci])
  }

  lemma {:induction false} MovingNeverCosts(sample: seq<Vec>, a: seq<nat>, centroids: seq<Vec>, from: seq<Vec>, m: nat)
    requires |a| == |sample| && m <= |centroids| == |from| && forall i :: 0 <= i < |a| ==> a[i] < |centroids|
    ensures Cost(sample, a, Moved(sample, a, centroids, from, m), |a|) <= Cost(sample, a, from, |a|)
  {
    if m == 0 {
      assert Moved(sample, a, centroids, from, 0) == from;
    } else {
      var ci := m - 1;
      MovingNeverCosts(sample, a, centroids, from, ci);
      var before, y := Moved(sample, a, centroids, from, ci), NewCentroid(sample, a, centroids, ci);
      assert Moved(sample, a, centroids, from, m) == before[ci := y];
      CostAfterMove(sample, a, before, ci, y, |a|);
      if Count(a, ci, |a|) == 0 {
        DeltaOfEmpty(sample, a, ci, before[ci], y, DIMS);
      } else {
        DeltaAtMean(sample, a, centroids, ci, before[ci], DIMS);
      }
    }
  }

  /** The recomputed centroids are the best of all for the assignment they were computed from. */
  lemma MeansAreOptimal(sample: seq<Vec>, centroids: seq<Vec>, others: seq<Vec>)
    requires centroids != [] && |others| == |centroids|
    ensures var a := Assignment(sample, centroids);
      Cost(sample, a, LloydStep(sample, centroids), |sample|) <= Cost(sample, a, others, |sample|)
  {
    hide Cost, Nearest, NewCentroid;
    var a := Assignment(sample, centroids);
    MovingNeverCosts(sample, a, centroids, others, |centroids|);
    assert Moved(sample, a, centroids, others, |centroids|) == LloydStep(sample, centroids);
  }

  /** One iteration never raises the inertia when every sample is served. */
  lemma LloydDescends(sample: seq<Vec>, centroids: seq<Vec>)
    requires centroids != [] && Served(sample, centroids)
    ensures Inertia(sample, LloydStep(sample, centroids)) <= Inertia(sample, centroids)
  {
    hide Served, LloydStep, Cost, InertiaTo;
    var a, next := Assignment(sample, centroids), LloydStep(sample, centroids);
    AssignmentIsOptimalIffServed(sample, centroids);
    MeansAreOptimal(sample, centroids, centroids);
    InertiaIsLeast(sample, a, next, |sample|);
  }

  /** A run in which every sample is served at every iteration: more iterations never raise the inertia. */
  lemma {:induction false} ServedRunDescends(sample: seq<Vec>, init: seq<Vec>, m: nat, n: nat)
    requires init != [] && m <= n && forall i :: m <= i < n ==> Served(sample, Lloyd(sample, init, i))
    ensures Inertia(sample, Lloyd(sample, init, n)) <= Inertia(sample, Lloyd(sample, init, m))
    decreases n
  {
    hide Inertia, LloydStep, Served;
    if m < n {
      ServedRunDescends(sample, init, m, n - 1);
      LloydDescends(sample, Lloyd(sample, init, n - 1));
    }
  }

  lemma MinDistNonNegative(v: Vec, centroids: seq<Vec>)
    requires centroids != []
    ensures MinDist(v, centroids) >= 0.0
  {
    var i := MinDistIsReached(v, centroids);
  }

  lemma {:induction false} ShareOfInertia(sample: seq<Vec>, centroids: seq<Vec>, i: nat, n: nat)
    requires centroids != [] && n <= |sample|
    ensures InertiaTo(sample, centroids, n) >= 0.0
    ensures i < n ==> MinDist(sample[i], centroids) <= InertiaTo(sample, centroids, n)
  {
    hide MinDist;
    if n > 0 {
      ShareOfInertia(sample, centroids, i, n - 1);
      MinDistNonNegative(sample[n - 1], centroids);
    }
  }

  lemma SmallInertiaServes(sample: seq<Vec>, centroids: seq<Vec>)
    requires centroids != [] && Inertia(sample, centroids) < F32_MAX
    ensures Served(sample, centroids)
  {
    forall i | 0 <= i < |sample| ensures Serves(sample[i], centroids) {
      ShareOfInertia(sample, centroids, i, |sample|);
      var c := MinDistIsReached(sample[i], centroids);
      assert SqDist(sample[i], centroids[c]) < F32_MAX;
    }
  }

  lemma {:induction false} InertiaStaysSmall(sample: seq<Vec>, init: seq<Vec>, n: nat)
    requires init != [] && Inertia(sample, init) < F32_MAX
    ensures Inertia(sample, Lloyd(sample, init, n)) < F32_MAX && Served(sample, Lloyd(sample, init, n))
  {
    hide Inertia, LloydStep, Served;
    if n > 0 {
      InertiaStaysSmall(sample, init, n - 1);
      LloydDescends(sample, Lloyd(sample, init, n - 1));
    }
    SmallInertiaServes(sample, Lloyd(sample, init, n));
  }

  /** The whole run: from a start whose inertia is below the sentinel, more iterations never raise the inertia, so the
    result is no worse than the start. */
  lemma KMeansDescends(sample: seq<Vec>, indices: seq<nat>, k: nat, m: nat, n: nat)
    requires |sample| >= k >= 1 && IsShuffle(indices, |sample|) && m <= n
    requires Inertia(sample, Forgy(sample, indices, k)) < F32_MAX
    ensures var init := Forgy(sample, indices, k);
      Inertia(sample, Lloyd(sample, init, n)) <= Inertia(sample, Lloyd(sample, init, m)) < F32_MAX
  {
    hide Inertia, Lloyd, Served, Forgy;
    var init := Forgy(sample, indices, k);
    InertiaStaysSmall(sample, init, m);
    forall i | m <= i < n ensures Served(sample, Lloyd(sample, init, i)) {
      InertiaStaysSmall(sample, init, i);
    }
    ServedRunDescends(sample, init, m, n);
  }

  // ---------- Consecutive iterates ----------

  lemma {:induction false} NothingAssigned(a: seq<nat>, ci: nat, n: nat)
    requires n <= |a| && forall i :: 0 <= i < n ==> a[i] != ci
    ensures Count(a, ci, n) == 0
  {
    if n > 0 {
      NothingAssigned(a, ci, n - 1);
    }
  }

  /** What a run does: it starts at the chosen samples; every further iteration, for the assignment to the nearest
    centroids before it, ends at a list that no list of centroids undercuts, and leaves the centroids of no sample where
    they are. */
  lemma IterationsAreLloyd(sample: seq<Vec>, indices: seq<nat>, k: nat, n: nat)
    requires |sample| >= k >= 1 && IsShuffle(indices, |sample|)
    ensures var init := Forgy(sample, indices, k);
      forall ci :: 0 <= ci < k ==> Lloyd(sample, init, 0)[ci] == sample[indices[ci]]
    ensures var init := Forgy(sample, indices, k);
      var before, after := Lloyd(sample, init, n), Lloyd(sample, init, n + 1);
      var a: seq<nat> := seq(|sample|, i requires 0 <= i < |sample| => Nearest(sample[i], before));
      && (forall others: seq<Vec> :: |others| == k ==>
          Cost(sample, a, after, |sample|) <= Cost(sample, a, others, |sample|))
      && (forall ci :: 0 <= ci < k && ci !in a ==> after[ci] == before[ci])
  {
    hide Cost, Nearest, Count, CoordSum;
    var init := Forgy(sample, indices, k);
    var before, after := Lloyd(sample, init, n), Lloyd(sample, init, n + 1);
    var a: seq<nat> := seq(|sample|, i requires 0 <= i < |sample| => Nearest(sample[i], before));
    assert a == Assignment(sample, before);
    forall others: seq<Vec> | |others| == k
      ensures Cost(sample, a, after, |sample|) <= Cost(sample, a, others, |sample|)
    {
      MeansAreOptimal(sample, before, others);
    }
    forall ci | 0 <= ci < k && ci !in a ensures after[ci] == before[ci] {
      NothingAssigned(a, ci, |a|);
    }
  }

  // ---------- Descent in a box ----------

  lemma SquaresAreOrdered(x: real, r: real)
    requires -r <= x <= r
    ensures Sq(x) <= Sq(r)
  {
    SqBound(x, r);
  }

  lemma {:induction false} BoxDistance(v: Vec, c: Vec, lo: Vec, hi: Vec, n: nat)
    requires n <= DIMS && InBox(v, lo, hi) && InBox(c, lo, hi)
    ensures SqDistTo(v, c, n) <= SqDistTo(hi, lo, n)
  {
    hide Sq;
    if n > 0 {
      BoxDistance(v, c, lo, hi, n - 1);
      SquaresAreOrdered(v[n - 1] - c[n - 1], hi[n - 1] - lo[n - 1]);
    }
  }

  lemma BoxServes(sample: seq<Vec>, centroids: seq<Vec>, lo: Vec, hi: Vec)
    requires centroids != [] && AllInBox(sample, lo, hi) && AllInBox(centroids, lo, hi) && SqDist(hi, lo) < F32_MAX
    ensures Served(sample, centroids)
  {
    forall i | 0 <= i < |sample| ensures Serves(sample[i], centroids) {
      BoxDistance(sample[i], centroids[0], lo, hi, DIMS);
    }
  }

  /** Samples in a box whose squared diagonal is below the sentinel: the run descends however many samples there are. */
  lemma BoxedRunDescends(sample: seq<Vec>, indices: seq<nat>, k: nat, m: nat, n: nat, lo: Vec, hi: Vec)
    requires |sample| >= k >= 1 && IsShuffle(indices, |sample|) && m <= n
    requires AllInBox(sample, lo, hi) && SqDist(hi, lo) < F32_MAX
    ensures var init := Forgy(sample, indices, k);
      Inertia(sample, Lloyd(sample, init, n)) <= Inertia(sample, Lloyd(sample, init, m))
  {
    hide Inertia, Lloyd, Served, Forgy, SqDist, InBox, AllInBox;
    var init := Forgy(sample, indices, k);
    forall i | m <= i < n ensures Served(sample, Lloyd(sample, init, i)) {
      KMeansStaysInBox(sample, indices, k, i, lo, hi);
      BoxServes(sample, Lloyd(sample, init, i), lo, hi);
    }
    ServedRunDescends(sample, init, m, n);
  }

  function Uniform(x: real): Vec { seq(DIMS, _ => x) }

  /** Samples with components in [-1, 1]: so are all centroids of all iterations, every sample is assigned to the first
    of its nearest centroids, and the inertia never rises. */
  lemma NormalizedRun(sample: seq<Vec>, indices: seq<nat>, k: nat, m: nat, n: nat)
    requires |sample| >= k >= 1 && IsShuffle(indices, |sample|) && m <= n
    requires forall i :: 0 <= i < |sample| ==> Within(sample[i], -1.0, 1.0)
    ensures var init := Forgy(sample, indices, k);
      var centroids := Lloyd(sample, init, n);
      && (forall i :: 0 <= i < k ==> Within(centroids[i], -1.0, 1.0))
      && (forall i :: 0 <= i < |sample| ==> IsFirstMinimiser(sample[i], centroids, Assignment(sample, centroids)[i]))
      && Inertia(sample, centroids) <= Inertia(sample, Lloyd(sample, init, m))
  {
    hide Inertia, Lloyd, Served, IsFirstMinimiser, Nearest;
    var lo, hi, centroids := Uniform(-1.0), Uniform(1.0), Lloyd(sample, Forgy(sample, indices, k), n);
    KMeansStaysInBox(sample, indices, k, n, lo, hi);
    forall i | 0 <= i < k ensures Within(centroids[i], -1.0, 1.0) {
      assert InBox(centroids[i], lo, hi);
      assert forall j :: 0 <= j < DIMS ==> lo[j] <= centroids[i][j] <= hi[j];
    }
    forall i | 0 <= i < |sample| ensures IsFirstMinimiser(sample[i], centroids, Nearest(sample[i], centroids)) {
      SentinelNeverWins(sample[i], centroids);
    }
    SqDistBound(hi, lo, DIMS);
    BoxedRunDescends(sample, indices, k, m, n, lo, hi);
  }

  // ---------- Beyond the sentinel ----------

  /** Four points on the first axis, the third of them at distance at least 2^65 from both initial centroids. */
  function FarSample(): (s: seq<Vec>)
    ensures |s| == 4
  {
    [OnAxis(0.0), OnAxis(0.0), OnAxis(3.0 * TWO_TO_64), OnAxis(TWO_TO_64)]
  }

  lemma FarMinDist(x: real, c0: real, c1: real)
    ensures MinDist(OnAxis(x), [OnAxis(c0), OnAxis(c1)]) == if Sq(x - c1) < Sq(x - c0) then Sq(x - c1) else Sq(x - c0)
    ensures Nearest(OnAxis(x), [OnAxis(c0), OnAxis(c1)])
         == if Sq(x - c1) < F32_MAX && Sq(x - c1) < Sq(x - c0) then 1 else 0
  {
    hide OnAxis, SqDist, Sq;
    var v, cs := OnAxis(x), [OnAxis(c0), OnAxis(c1)];
    OnAxisDist(x, c0);
    OnAxisDist(x, c1);
    assert cs[..1] == [OnAxis(c0)];
    assert BestAmong(v, cs, 0) == Best(0, F32_MAX);
    assert BestAmong(v, cs, 1) == if Sq(x - c0) < F32_MAX then Best(0, Sq(x - c0)) else Best(0, F32_MAX);
  }

  lemma FarInertia(c0: real, c1: real)
    ensures var b, cs := TWO_TO_64, [OnAxis(c0), OnAxis(c1)];
      Inertia(FarSample(), cs) == 2.0 * MinDist(OnAxis(0.0), cs) + MinDist(OnAxis(3.0 * b), cs) + MinDist(OnAxis(b), cs)
  {
    hide MinDist, OnAxis;
    var sample, cs := FarSample(), [OnAxis(c0), OnAxis(c1)];
    assert InertiaTo(sample, cs, 1) == MinDist(OnAxis(0.0), cs);
    assert InertiaTo(sample, cs, 2) == 2.0 * MinDist(OnAxis(0.0), cs);
    assert InertiaTo(sample, cs, 3) == 2.0 * MinDist(OnAxis(0.0), cs) + MinDist(OnAxis(3.0 * TWO_TO_64), cs);
  }

  lemma FarAssignment()
    ensures Assignment(FarSample(), [OnAxis(0.0), OnAxis(TWO_TO_64)]) == [0, 0, 0, 1]
  {
    hide Nearest, OnAxis;
    FarMinDist(0.0, 0.0, TWO_TO_64);
    FarMinDist(3.0 * TWO_TO_64, 0.0, TWO_TO_64);
    FarMinDist(TWO_TO_64, 0.0, TWO_TO_64);
  }

  lemma FarSums(ci: nat, j: nat)
    requires ci < 2 && j < DIMS
    ensures Count([0, 0, 0, 1], ci, 4) == if ci == 0 then 3 else 1
    ensures CoordSum(FarSample(), [0, 0, 0, 1], ci, j, 4)
         == Count([0, 0, 0, 1], ci, 4) as real * if j == 0 then TWO_TO_64 else 0.0
  {
    var a, sample := [0, 0, 0, 1], FarSample();
    var unit := if j == 0 then TWO_TO_64 else 0.0;
    assert Count(a, ci, 1) == Count(a, ci, 2) - Count(a, ci, 1) == if ci == 0 then 1 else 0;
    assert Count(a, ci, 3) == if ci == 0 then 3 else 0;
    assert CoordSum(sample, a, ci, j, 0) == 0.0;
    assert CoordSum(sample, a, ci, j, 1) == 0.0;
    assert CoordSum(sample, a, ci, j, 2) == 0.0;
    assert CoordSum(sample, a, ci, j, 3) == if ci == 0 then 3.0 * unit else 0.0;
  }

  lemma FarStep()
    ensures LloydStep(FarSample(), [OnAxis(0.0), OnAxis(TWO_TO_64)]) == [OnAxis(TWO_TO_64), OnAxis(TWO_TO_64)]
  {
    var sample, init := FarSample(), [OnAxis(0.0), OnAxis(TWO_TO_64)];
    FarAssignment();
    forall ci | 0 <= ci < 2 ensures NewCentroid(sample, [0, 0, 0, 1], init, ci) == OnAxis(TWO_TO_64) {
      forall j | 0 <= j < DIMS
        ensures NewCentroid(sample, [0, 0, 0, 1], init, ci)[j] == OnAxis(TWO_TO_64)[j]
      {
        FarSums(ci, j);
      }
    }
  }

  lemma FarStart()
    ensures Forgy(FarSample(), [0, 3, 1, 2], 2) == [OnAxis(0.0), OnAxis(TWO_TO_64)]
  {
  }

  lemma FarDistances()
    ensures var b := TWO_TO_64;
      var before, after := [OnAxis(0.0), OnAxis(b)], [OnAxis(b), OnAxis(b)];
      && MinDist(OnAxis(0.0), before) == MinDist(OnAxis(b), before) == MinDist(OnAxis(b), after) == 0.0
      && MinDist(OnAxis(3.0 * b), before) == MinDist(OnAxis(3.0 * b), after) == 4.0 * Sq(b)
      && MinDist(OnAxis(0.0), after) == Sq(b) > 0.0
  {
    hide MinDist, OnAxis, Nearest;
    FarMinDist(0.0, 0.0, TWO_TO_64);
    FarMinDist(3.0 * TWO_TO_64, 0.0, TWO_TO_64);
    FarMinDist(TWO_TO_64, 0.0, TWO_TO_64);
    FarMinDist(0.0, TWO_TO_64, TWO_TO_64);
    FarMinDist(3.0 * TWO_TO_64, TWO_TO_64, TWO_TO_64);
    FarMinDist(TWO_TO_64, TWO_TO_64, TWO_TO_64);
  }

  /** The descent can fail beyond the sentinel: the third sample goes to the farther centroid and drags its mean along,
    and the inertia rises from 4 to 6 times 2^128. */
  lemma InertiaCanRise()
    ensures var sample, init := FarSample(), Forgy(FarSample(), [0, 3, 1, 2], 2);
      IsShuffle([0, 3, 1, 2], 4) && Inertia(sample, LloydStep(sample, init)) > Inertia(sample, init)
  {
    var b := TWO_TO_64;
    var sample, init := FarSample(), [OnAxis(0.0), OnAxis(b)];
    hide Sq, OnAxis, MinDist, Nearest, LloydStep, Inertia, FarSample;
    FarStart();
    FarStep();
    FarDistances();
    FarInertia(0.0, b);
    FarInertia(b, b);
  }
}
