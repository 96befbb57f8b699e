/** The offline classifier of search errors: an instrumented search, a brute-force scan, and cluster ranks. */
module Diagnostics {
  import opened Ordering
  import opened Vectors
  import opened Quantization
  import opened IndexFormat
  import opened IndexLoader
  import opened TopK
  import opened Heap
  import opened IvfSearch
  import opened ScanFacts

  const PROBES: nat := 3
  const K: nat := 5

  // ---------- The instrumented search ----------

  datatype DiagResult = DiagResult(probed: seq<nat>, scanned: seq<nat>, returned: seq<Candidate>, fraudCount: nat)

  function VecIndices(s: seq<Candidate>): (r: seq<nat>)
    ensures |r| == |s|
  {
    seq(|s|, i requires 0 <= i < |s| => s[i].idx)
  }

  method CentroidDistances(ix: IvfIndex, value: F32 -> real, query: Vec) returns (r: seq<CentDist>)
    requires WellFormed(ix)
    ensures Unranked(r, CentDistsOf(CentroidVecs(ix.centroids, value), query))
  {
    r := [];
    for ci := 0 to ix.numCents
      invariant |r| == ci
      invariant forall j :: 0 <= j < ci ==> r[j] == CentDist(j, SqDist(query, CentroidVec(ix.centroids[j], value)))
    {
      var d := SquaredEuclidean(query, CentroidVec(ix.centroids[ci], value));
      r := r + [CentDist(ci, d)];
    }
  }

  lemma IndicesPush(s: seq<Candidate>, c: Candidate)
    ensures VecIndices(s + [c]) == VecIndices(s) + [c.idx]
  {
  }

  /** The inner loop of the diagnostic search: record the vector, then offer it. */
  method DiagnosticRange(ix: IvfIndex, q: Code, start: nat, end: nat, cands: CandidateBuffer,
                         ghost seen: seq<Candidate>,
                         before: seq<nat>) returns (scanned: seq<nat>)
    requires WellFormed(ix) && (start < end ==> end <= ix.numVecs)
    requires cands.Valid() && ScanState(cands.Contents(), multiset(seen), K) && before == VecIndices(seen)
    modifies cands, cands.data
    ensures cands.Valid() && (cands.data == old(cands.data) || fresh(cands.data))
    ensures ScanState(cands.Contents(), multiset(seen + RangeScan(ix, q, start, end)), K)
    ensures scanned == VecIndices(seen + RangeScan(ix, q, start, end))
  {
    hide ScanState, RangeScan, Offered;
    scanned := before;
    RangeScanEmpty(ix, q, start, end, seen);
    if end <= start {
      return;
    }
    for vi := start to end
      invariant cands.Valid() && (cands.data == old(cands.data) || fresh(cands.data))
      invariant ScanState(cands.Contents(), multiset(seen + RangeScan(ix, q, start, vi)), K)
      invariant scanned == VecIndices(seen + RangeScan(ix, q, start, vi))
    {
      ghost var met := seen + RangeScan(ix, q, start, vi);
      scanned := scanned + [vi];
      var d := DistInt8(ix.vecs[vi], q);
      var c := Candidate(vi, d as real, ix.labels[vi]);
      RangeScanPush(ix, q, start, vi, seen);
      IndicesPush(met, c);
      assert multiset(met + [c]) == multiset(met) + multiset{c};
      cands.Offer(c, K, multiset(met));
    }
  }

  lemma RangeScanPush(ix: IvfIndex, q: Code, lo: nat, vi: nat, seen: seq<Candidate>)
    requires WellFormed(ix) && lo <= vi < ix.numVecs
    ensures seen + RangeScan(ix, q, lo, vi + 1) == seen + RangeScan(ix, q, lo, vi) + [CandidateAt(ix, q, vi)]
  {
  }

  method DiagnosticScan(ix: IvfIndex, q: Code, probed: seq<nat>) returns (returned: seq<Candidate>, scanned: seq<nat>)
    requires Scannable(ix) && forall i :: 0 <= i < |probed| ==> probed[i] < ix.numCents
    ensures ScanState(returned, multiset(Scan(ix, q, probed)), K)
    ensures scanned == VecIndices(Scan(ix, q, probed))
  {
    hide ScanState, Scan;
    var cands := new CandidateBuffer();
    scanned := [];
    EmptyScan(ix, q, probed, K);
    for i := 0 to |probed|
      invariant cands.Valid() && fresh(cands) && fresh(cands.data)
      invariant ScanState(cands.Contents(), multiset(Scan(ix, q, probed[..i])), K)
      invariant scanned == VecIndices(Scan(ix, q, probed[..i]))
    {
      var ci := probed[i];
      ScanStep(ix, q, probed, i);
      scanned := DiagnosticRange(ix, q, ix.offsets[ci], ix.offsets[ci + 1], cands, Scan(ix, q, probed[..i]), scanned);
    }
    assert probed[..|probed|] == probed;
    returned := cands.data[..cands.len];
  }

  /** `diagnostic_search`, for any quantizer. */
  method DiagnosticSearch(ix: IvfIndex, value: F32 -> real, query: Vec, quantize: real -> I8) returns (r: DiagResult)
    requires Scannable(ix)
    ensures IsSearchResult(ix, value, query, Codes(query, quantize), Min(3, ix.numCents), 5, r.probed, r.returned)
    ensures r.scanned == VecIndices(Scan(ix, Codes(query, quantize), r.probed))
    ensures r.fraudCount == |set i | 0 <= i < |r.returned| && r.returned[i].isFraud|
  {
    hide ScanState, Scan, CentDistsOf;
    var probes := Min(PROBES, ix.numCents);
    var ranked := CentroidDistances(ix, value, query);
    ranked := PickProbes(ranked, CentDistsOf(CentroidVecs(ix.centroids, value), query), probes);
    var probed := Indices(ranked[..probes]);
    var q := QuantizeAll(query, quantize);
    var returned, scanned := DiagnosticScan(ix, q, probed);
    FraudCountIsSize(returned);
    r := DiagResult(probed, scanned, returned, FraudCount(returned));
  }

  // ---------- Brute force ----------

  datatype Reference = Reference(vec: Vec, isFraud: bool)

  function ReferenceStream(refs: seq<Reference>, query: Vec): (s: seq<Candidate>)
    ensures |s| == |refs|
  {
    seq(|refs|, i requires 0 <= i < |refs| => Candidate(i, SqDist(query, refs[i].vec), refs[i].isFraud))
  }

  function Ascending(c: Candidate): real { c.dist }

  function Descending(c: Candidate): real { -c.dist }

  /** The five-slot buffer: the nearest so far, farthest first once it is full. */
  ghost predicate BufferState(best: seq<Candidate>, seen: multiset<Candidate>) {
    KNearest(multiset(best), seen, K) && (|best| == K ==> SortedBy(best, Descending))
  }

  lemma BufferStarts(stream: seq<Candidate>)
    ensures BufferState([], multiset(stream[..0]))
  {
  }

  lemma BufferIsNearest(best: seq<Candidate>, seen: multiset<Candidate>)
    requires BufferState(best, seen)
    ensures KNearest(multiset(best), seen, K)
  {
  }

  lemma FirstIsFarthest(best: seq<Candidate>)
    requires SortedBy(best, Descending) && best != []
    ensures best[0] in multiset(best) && forall c :: c in multiset(best) ==> c.dist <= best[0].dist
  {
    forall c | c in multiset(best) ensures c.dist <= best[0].dist {
      var i :| 0 <= i < |best| && best[i] == c;
      if i > 0 { assert Descending(best[0]) <= Descending(best[i]); }
    }
  }

  lemma FirstReplaced(best: seq<Candidate>, c: Candidate)
    requires best != []
    ensures multiset(best[0 := c]) == multiset(best) - multiset{best[0]} + multiset{c}
  {
    assert best == [best[0]] + best[1..];
    assert best[0 := c] == [c] + best[1..];
  }

  lemma NearestAtMost(best: seq<Candidate>, seen: multiset<Candidate>)
    requires KNearest(multiset(best), seen, K)
    ensures |multiset(best)| == |best| <= K
  {
  }

  /** One reference: push and sort when the buffer fills up, or replace the farthest and sort again. */
  method Consider(best: seq<Candidate>, c: Candidate, ghost seen: multiset<Candidate>) returns (next: seq<Candidate>)
    requires BufferState(best, seen)
    ensures BufferState(next, seen + multiset{c})
    ensures Offered(best, c, 5, next)
  {
    hide Offered, KNearest;
    assert |multiset(best)| == |best| <= K by { NearestAtMost(best, seen); }
    next := best;
    if |best| < K {
      Grow(multiset(best), seen, K, c);
      next := next + [c];
      assert multiset(next) == multiset(best) + multiset{c};
      if |next| == K {
        next := SortUnstableBy(next, Descending);
      }
      OfferedWhileFew(best, c, K, next);
    } else {
      FirstIsFarthest(best);
      if c.dist < best[0].dist {
        Replace(multiset(best), seen, K, best[0], c);
        FirstReplaced(best, c);
        next := SortUnstableBy(next[0 := c], Descending);
        OfferedAndTaken(best, c, K, best[0], next);
      } else {
        Reject(multiset(best), seen, K, c);
        OfferedAndDropped(best, c, K);
      }
    }
  }

  /** A k-nearest choice of the stream of references, in the references' own terms. */
  ghost predicate NearestOf(refs: seq<Reference>, query: Vec, k: nat, best: seq<Candidate>) {
    && |best| == Min(k, |refs|)
    && (forall i, j :: 0 <= i < j < |best| ==> best[i].idx != best[j].idx)
    && (forall i :: 0 <= i < |best| ==>
        && best[i].idx < |refs| && best[i].dist == SqDist(query, refs[best[i].idx].vec)
        && best[i].isFraud == refs[best[i].idx].isFraud)
    && (forall i, r :: 0 <= i < |best| && 0 <= r < |refs| && (forall j :: 0 <= j < |best| ==> best[j].idx != r) ==>
        best[i].dist <= SqDist(query, refs[r].vec))
  }

  lemma InStream(refs: seq<Reference>, query: Vec, c: Candidate)
    ensures var stream := ReferenceStream(refs, query);
      c in stream <==> c.idx < |refs| && c == stream[c.idx]
    ensures Distinct(ReferenceStream(refs, query))
  {
  }

  lemma ChoiceSize(best: seq<Candidate>, stream: seq<Candidate>, k: nat)
    requires KNearest(multiset(best), multiset(stream), k)
    ensures |best| == Min(k, |stream|)
  {
    assert |multiset(best)| == |best| && |multiset(stream)| == |stream|;
  }

  lemma ChoiceInTerms(refs: seq<Reference>, query: Vec, k: nat, best: seq<Candidate>)
    requires |best| == Min(k, |refs|) && Distinct(best)
    requires forall c :: c in best ==> c.idx < |refs| && c == ReferenceStream(refs, query)[c.idx]
    requires forall c, d :: c in best && d in ReferenceStream(refs, query) && d !in best ==> c.dist <= d.dist
    ensures NearestOf(refs, query, k, best)
  {
    hide SqDist;
    var stream := ReferenceStream(refs, query);
    forall i | 0 <= i < |best| ensures best[i].idx < |refs| && best[i] == stream[best[i].idx] {
      assert best[i] in best;
    }
    forall i, r | 0 <= i < |best| && 0 <= r < |refs| && (forall j :: 0 <= j < |best| ==> best[j].idx != r)
      ensures best[i].dist <= SqDist(query, refs[r].vec)
    {
      assert stream[r].idx == r && stream[r] in stream;
      assert best[i] in best;
    }
  }

  lemma StreamChoice(refs: seq<Reference>, query: Vec, k: nat, best: seq<Candidate>)
    requires KNearest(multiset(best), multiset(ReferenceStream(refs, query)), k)
    ensures NearestOf(refs, query, k, best)
  {
    var stream := ReferenceStream(refs, query);
    ChoiceSize(best, stream, k);
    hide SqDist, KNearest, ReferenceStream;
    forall c ensures c in stream <==> c.idx < |refs| && c == stream[c.idx] {
      InStream(refs, query, c);
    }
    InStream(refs, query, Candidate(0, 0.0, false));
    DistinctCounts(stream);
    NearestOfDistinct(best, stream, k);
    ChoiceInTerms(refs, query, k, best);
  }

  /** `brute_force_5nn`: the five nearest references, nearest first. */
  method BruteForce(refs: seq<Reference>, query: Vec) returns (best: seq<Candidate>)
    ensures KNearest(multiset(best), multiset(ReferenceStream(refs, query)), 5) && NearestOf(refs, query, 5, best)
    ensures forall i, j :: 0 <= i < j < |best| ==> best[i].dist <= best[j].dist
  {
    hide BufferState, KNearest, SqDist, NearestOf;
    best := [];
    ghost var stream := ReferenceStream(refs, query);
    BufferStarts(stream);
    for i := 0 to |refs|
      invariant BufferState(best, multiset(stream[..i]))
    {
      var d := SquaredEuclidean(query, refs[i].vec);
      best := Consider(best, Candidate(i, d, refs[i].isFraud), multiset(stream[..i]));
      assert stream[..i + 1] == stream[..i] + [stream[i]];
    }
    assert stream[..|refs|] == stream;
    BufferIsNearest(best, multiset(stream));
    best := SortUnstableBy(best, Ascending);
    StreamChoice(refs, query, 5, best);
    assert forall i, j :: 0 <= i < j < |best| ==> Ascending(best[i]) <= Ascending(best[j]);
  }

  /** Over one stream the heap scan and the re-sorted buffer keep the same distances, and the same
    candidates when the k-th and (k+1)-th smallest distances differ. */
  lemma TwoTopKAgree(heap: seq<Candidate>, buffer: seq<Candidate>, stream: seq<Candidate>)
    requires ScanState(heap, multiset(stream), K) && BufferState(buffer, multiset(stream))
    ensures multiset(Dists(heap)) == multiset(Dists(buffer))
    ensures GapAt(stream, K) ==> multiset(heap) == multiset(buffer) && FraudCount(heap) == FraudCount(buffer)
  {
    KNearestDistsAgree(heap, buffer, stream, K);
    if GapAt(stream, K) {
      GapSeparates(heap, stream, K);
      SeparatedIsUnique(multiset(heap), multiset(buffer), multiset(stream), K);
      FraudCountOfPermutation(heap, buffer);
    }
  }

  // ---------- Finding the cluster of a vector ----------

  datatype Lookup = Cluster(ci: nat) | Panic

  /** `find_cluster`. */
  method FindCluster(ix: IvfIndex, vi: nat) returns (r: Lookup)
    requires WellFormed(ix)
    ensures r.Cluster? ==> r.ci < ix.numCents && Owns(ix, r.ci, vi) && forall ci :: 0 <= ci < r.ci ==> !Owns(ix, ci, vi)
    ensures r.Panic? ==> forall ci :: 0 <= ci < ix.numCents ==> !Owns(ix, ci, vi)
  {
    for ci := 0 to ix.numCents
      invariant forall cj :: 0 <= cj < ci ==> !Owns(ix, cj, vi)
    {
      if ix.offsets[ci] <= vi < ix.offsets[ci + 1] {
        return Cluster(ci);
      }
    }
    return Panic;
  }

  /** When the offsets partition the vectors, the panic is reached exactly for indices that do not exist,
    and otherwise the answer is the one owner, even with empty clusters around. */
  lemma OwnerIffStored(ix: IvfIndex, vi: nat)
    requires Partitioned(ix)
    ensures (exists ci :: 0 <= ci < ix.numCents && Owns(ix, ci, vi)) <==> vi < ix.numVecs
    ensures forall a, b :: 0 <= a < ix.numCents && 0 <= b < ix.numCents && Owns(ix, a, vi) && Owns(ix, b, vi) ==> a == b
  {
    if vi < ix.numVecs {
      var ci := OwnerExists(ix, vi, ix.numCents);
    }
  }

  // ---------- Ranks ----------

  /** `cluster_rank_of_vec_in_centroid_order`: one more than the position of the owner in the full ranking. */
  method ClusterRank(ix: IvfIndex, value: F32 -> real, query: Vec, vi: nat) returns (rank: nat, ghost full: seq<nat>)
    requires WellFormed(ix) && exists ci :: 0 <= ci < ix.numCents && Owns(ix, ci, vi)
    ensures IsProbeOrder(full, CentDistsOf(CentroidVecs(ix.centroids, value), query), ix.numCents)
    ensures 1 <= rank <= ix.numCents && full[rank - 1] < ix.numCents && Owns(ix, full[rank - 1], vi)
  {
    hide CentDistsOf, CentroidVecs;
    var found := FindCluster(ix, vi);
    var cluster := found.ci;
    var dists := CentDistsOf(CentroidVecs(ix.centroids, value), query);
    var unranked := CentroidDistances(ix, value, query);
    var ranked := SortUnstableBy(unranked, Dist);
    assert ranked[..ix.numCents] == ranked;
    ProbeOrderFromRanking(unranked, dists, ranked, ix.numCents);
    RankedEntries(unranked, dists, ranked);
    full := Indices(ranked);
    assert cluster in full;
    rank := 0;
    while ranked[rank].idx != cluster
      invariant rank < |ranked| && forall i :: 0 <= i < rank ==> full[i] != cluster
      decreases |ranked| - rank
    {
      assert full[rank] != cluster;
      assert rank + 1 < |ranked| by {
        var p :| 0 <= p < |full| && full[p] == cluster;
        assert p > rank;
      }
      rank := rank + 1;
    }
    rank := rank + 1;
  }

  lemma LaterInOrder(full: seq<nat>, p: nat, c: nat) returns (j: nat)
    requires p <= |full| && c in full && c !in full[..p]
    ensures p <= j < |full| && full[j] == c
  {
    assert forall i :: 0 <= i < p ==> full[i] in full[..p];
    j :| 0 <= j < |full| && full[j] == c;
  }

  lemma PrefixIsProbeOrder(full: seq<nat>, dists: seq<real>, n: nat, p: nat)
    requires IsProbeOrder(full, dists, n) && n == |dists| && p <= n
    ensures IsProbeOrder(full[..p], dists, p)
  {
    AllInOrder(n, full);
    forall i, c | 0 <= i < p && 0 <= c < |dists| && c !in full[..p] ensures dists[full[i]] <= dists[c] {
      var j := LaterInOrder(full, p, c);
    }
  }
}
