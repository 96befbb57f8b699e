/** Which vectors a scan meets, for an index whose offsets partition the vectors. */
module ScanFacts {
  import opened Ordering
  import opened Quantization
  import opened IndexLoader
  import opened TopK
  import opened IvfSearch

  /** The offsets are prefix sums: they start at 0, never decrease, and end at the number of vectors. */
  ghost predicate Partitioned(ix: IvfIndex) {
    && WellFormed(ix)
    && ix.offsets[0] == 0 && ix.offsets[ix.numCents] == ix.numVecs
    && forall i, j :: 0 <= i <= j <= ix.numCents ==> ix.offsets[i] <= ix.offsets[j]
  }

  /** Vector vi lies in the range of cluster ci. */
  predicate Owns(ix: IvfIndex, ci: nat, vi: nat)
    requires WellFormed(ix) && ci < ix.numCents
  {
    ix.offsets[ci] <= vi < ix.offsets[ci + 1]
  }

  ghost predicate ValidOrder(ix: IvfIndex, order: seq<nat>) {
    Distinct(order) && forall i :: 0 <= i < |order| ==> order[i] < ix.numCents
  }

  /** Some probed cluster owns the vector. */
  ghost predicate Scanned(ix: IvfIndex, order: seq<nat>, vi: nat)
    requires WellFormed(ix) && forall i :: 0 <= i < |order| ==> order[i] < ix.numCents
  {
    exists i :: 0 <= i < |order| && Owns(ix, order[i], vi)
  }

  /** Every vector has exactly one owner, even when clusters are empty. */
  lemma {:induction false} OwnerExists(ix: IvfIndex, vi: nat, n: nat) returns (ci: nat)
    requires Partitioned(ix) && n <= ix.numCents && vi < ix.offsets[n]
    ensures ci < n && Owns(ix, ci, vi)
  {
    if vi >= ix.offsets[n - 1] {
      ci := n - 1;
    } else {
      ci := OwnerExists(ix, vi, n - 1);
    }
  }

  lemma OwnerUnique(ix: IvfIndex, a: nat, b: nat, vi: nat)
    requires Partitioned(ix) && a < ix.numCents && b < ix.numCents
    requires Owns(ix, a, vi) && Owns(ix, b, vi)
    ensures a == b
  {
  }

  lemma {:induction false} RangeScanContents(ix: IvfIndex, q: Code, lo: nat, hi: nat)
    requires WellFormed(ix) && lo <= hi <= ix.numVecs
    ensures |RangeScan(ix, q, lo, hi)| == hi - lo
    ensures forall i :: 0 <= i < hi - lo ==> RangeScan(ix, q, lo, hi)[i] == CandidateAt(ix, q, lo + i)
    decreases hi
  {
    if lo < hi {
      RangeScanContents(ix, q, lo, hi - 1);
    }
  }

  lemma InRangeScan(ix: IvfIndex, q: Code, lo: nat, hi: nat, c: Candidate)
    requires WellFormed(ix) && lo <= hi <= ix.numVecs
    ensures c in RangeScan(ix, q, lo, hi) <==> lo <= c.idx < hi && c == CandidateAt(ix, q, c.idx)
    ensures Distinct(RangeScan(ix, q, lo, hi))
  {
    RangeScanContents(ix, q, lo, hi);
    if lo <= c.idx < hi && c == CandidateAt(ix, q, c.idx) {
      assert RangeScan(ix, q, lo, hi)[c.idx - lo] == c;
    }
  }

  /** The candidate of a vector in a probed cluster. */
  ghost predicate Met(ix: IvfIndex, q: Code, order: seq<nat>, c: Candidate)
    requires WellFormed(ix) && forall i :: 0 <= i < |order| ==> order[i] < ix.numCents
  {
    c.idx < ix.numVecs && c == CandidateAt(ix, q, c.idx) && Scanned(ix, order, c.idx)
  }

  lemma InClusterScan(ix: IvfIndex, q: Code, ci: nat, c: Candidate)
    requires Partitioned(ix) && ci < ix.numCents
    ensures c in ClusterScan(ix, q, ci) <==> Met(ix, q, [ci], c)
    ensures Distinct(ClusterScan(ix, q, ci))
  {
    InRangeScan(ix, q, ix.offsets[ci], ix.offsets[ci + 1], c);
    assert [ci][0] == ci;
  }

  /** The scan meets a candidate exactly when its vector is in a probed cluster. */
  lemma {:induction false} InScan(ix: IvfIndex, q: Code, order: seq<nat>, c: Candidate)
    requires Partitioned(ix) && ValidOrder(ix, order)
    ensures c in Scan(ix, q, order) <==> Met(ix, q, order, c)
  {
    if order != [] {
      var n := |order| - 1;
      InScan(ix, q, order[..n], c);
      InClusterScan(ix, q, order[n], c);
      ScannedSplit(ix, order, c.idx);
    }
  }

  /** The scan meets no vector twice. */
  lemma {:induction false} ScanIsDistinct(ix: IvfIndex, q: Code, order: seq<nat>)
    requires Partitioned(ix) && ValidOrder(ix, order)
    ensures Distinct(Scan(ix, q, order))
  {
    if order != [] {
      var n := |order| - 1;
      var front, last := order[..n], order[n];
      ScanIsDistinct(ix, q, front);
      InClusterScan(ix, q, last, Candidate(0, 0.0, false));
      forall c | c in Scan(ix, q, front) ensures c !in ClusterScan(ix, q, last) {
        InScan(ix, q, front, c);
        InClusterScan(ix, q, last, c);
        NotTwice(ix, order, c.idx);
      }
      DistinctConcat(Scan(ix, q, front), ClusterScan(ix, q, last));
    }
  }

  lemma NotTwice(ix: IvfIndex, order: seq<nat>, vi: nat)
    requires Partitioned(ix) && ValidOrder(ix, order) && order != []
    requires Scanned(ix, order[..|order| - 1], vi)
    ensures !Scanned(ix, [order[|order| - 1]], vi)
  {
    var front, last := order[..|order| - 1], order[|order| - 1];
    var k :| 0 <= k < |front| && Owns(ix, front[k], vi);
    assert front[k] == order[k] != last;
    if Owns(ix, last, vi) {
      OwnerUnique(ix, front[k], last, vi);
    }
  }

  lemma ScannedSplit(ix: IvfIndex, order: seq<nat>, vi: nat)
    requires WellFormed(ix) && ValidOrder(ix, order) && order != []
    ensures Scanned(ix, order, vi)
       <==> Scanned(ix, order[..|order| - 1], vi) || Scanned(ix, [order[|order| - 1]], vi)
  {
    var n := |order| - 1;
    assert [order[n]][0] == order[n];
    if Scanned(ix, order, vi) {
      var i :| 0 <= i < |order| && Owns(ix, order[i], vi);
      if i < n { assert Owns(ix, order[..n][i], vi); }
    }
    if Scanned(ix, order[..n], vi) {
      var i :| 0 <= i < n && Owns(ix, order[..n][i], vi);
      assert Owns(ix, order[i], vi);
    }
  }

  /** Probing more clusters scans more vectors. */
  lemma ScanGrows(ix: IvfIndex, q: Code, order: seq<nat>, order': seq<nat>)
    requires Partitioned(ix) && ValidOrder(ix, order) && ValidOrder(ix, order')
    requires forall c :: c in order ==> c in order'
    ensures multiset(Scan(ix, q, order)) <= multiset(Scan(ix, q, order'))
  {
    ScanIsDistinct(ix, q, order);
    forall c | c in Scan(ix, q, order) ensures c in Scan(ix, q, order') {
      InScan(ix, q, order, c);
      InScan(ix, q, order', c);
      ScannedGrows(ix, order, order', c.idx);
    }
    SubElements(Scan(ix, q, order), Scan(ix, q, order'));
  }

  lemma ScannedGrows(ix: IvfIndex, order: seq<nat>, order': seq<nat>, vi: nat)
    requires WellFormed(ix) && ValidOrder(ix, order) && ValidOrder(ix, order')
    requires forall c :: c in order ==> c in order'
    ensures Scanned(ix, order, vi) ==> Scanned(ix, order', vi)
  {
    if Scanned(ix, order, vi) {
      var i :| 0 <= i < |order| && Owns(ix, order[i], vi);
      assert order[i] in order';
      var j :| 0 <= j < |order'| && order'[j] == order[i];
    }
  }

  /** Probing every cluster scans every vector exactly once. */
  lemma FullScan(ix: IvfIndex, q: Code, order: seq<nat>)
    requires Partitioned(ix) && ValidOrder(ix, order) && |order| == ix.numCents
    ensures multiset(Scan(ix, q, order)) == multiset(RangeScan(ix, q, 0, ix.numVecs))
  {
    ScanIsDistinct(ix, q, order);
    AllInOrder(ix.numCents, order);
    forall c ensures c in Scan(ix, q, order) <==> c in RangeScan(ix, q, 0, ix.numVecs) {
      InScan(ix, q, order, c);
      InRangeScan(ix, q, 0, ix.numVecs, c);
      if c.idx < ix.numVecs {
        var ci := OwnerExists(ix, c.idx, ix.numCents);
        assert ci in order;
        var i :| 0 <= i < |order| && order[i] == ci;
        assert Scanned(ix, order, c.idx);
      }
    }
    InRangeScan(ix, q, 0, ix.numVecs, Candidate(0, 0.0, false));
    SameElements(Scan(ix, q, order), RangeScan(ix, q, 0, ix.numVecs));
  }

  // ---------- Counting: n distinct numbers below n are all of them ----------

  lemma {:induction false} SmallSet(s: set<nat>, n: nat)
    requires forall x :: x in s ==> x < n
    ensures |s| <= n
  {
    if n > 0 {
      var t := s - {n - 1};
      SmallSet(t, n - 1);
      if n - 1 in s {
        assert s == t + {n - 1};
      } else {
        assert s == t;
      }
    }
  }

  function Elements<T(==)>(s: seq<T>): set<T> {
    set x | x in s
  }

  lemma {:induction false} DistinctSetSize<T>(s: seq<T>)
    requires Distinct(s)
    ensures |Elements(s)| == |s|
  {
    if s != [] {
      var n := |s| - 1;
      DistinctSetSize(s[..n]);
      assert Elements(s) == Elements(s[..n]) + {s[n]};
      assert s[n] !in s[..n];
    }
  }

  lemma AllInOrder(n: nat, order: seq<nat>)
    requires Distinct(order) && |order| == n && forall i :: 0 <= i < n ==> order[i] < n
    ensures forall c :: 0 <= c < n ==> c in order
  {
    forall c: nat | c < n ensures c in order {
      if c !in order {
        var longer := order + [c];
        DistinctSetSize(longer);
        SmallSet(Elements(longer), n);
      }
    }
  }
}
