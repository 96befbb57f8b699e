/** The searcher: rank the centroids, probe the nearest clusters, keep the k nearest vectors. */
module IvfSearch {
  import opened Ordering
  import opened Vectors
  import opened Quantization
  import opened IndexFormat
  import opened IndexLoader
  import opened TopK
  import opened Heap

  // ---------- Specification ----------

  /** The real components of a centroid, given what number each bit pattern stands for. */
  function CentroidVec(c: Centroid, value: F32 -> real): Vec {
    seq(DIMS, j requires 0 <= j < DIMS => value(c[j]))
  }

  function CentroidVecs(cs: seq<Centroid>, value: F32 -> real): (v: seq<Vec>)
    ensures |v| == |cs|
  {
    seq(|cs|, i requires 0 <= i < |cs| => CentroidVec(cs[i], value))
  }

  function CentDistsOf(cs: seq<Vec>, query: Vec): (d: seq<real>)
    ensures |d| == |cs|
  {
    seq(|cs|, i requires 0 <= i < |cs| => SqDist(query, cs[i]))
  }

  /** Every non-empty cluster range stays inside the vectors: the scan indexes in bounds. */
  predicate Scannable(ix: IvfIndex) {
    && WellFormed(ix)
    && forall ci :: 0 <= ci < ix.numCents ==> ix.offsets[ci] < ix.offsets[ci + 1] ==> ix.offsets[ci + 1] <= ix.numVecs
  }

  /** `order` lists p centroids from nearest to farthest, and no centroid left out is nearer; ties fall anyhow. */
  ghost predicate IsProbeOrder(order: seq<nat>, dists: seq<real>, p: nat) {
    && |order| == p
    && Distinct(order)
    && (forall i :: 0 <= i < p ==> order[i] < |dists|)
    && (forall i, j :: 0 <= i < j < p ==> dists[order[i]] <= dists[order[j]])
    && (forall i, c :: 0 <= i < p && 0 <= c < |dists| && c !in order ==> dists[order[i]] <= dists[c])
  }

  function CandidateAt(ix: IvfIndex, q: Code, vi: nat): Candidate
    requires WellFormed(ix) && vi < ix.numVecs
  {
    Candidate(vi, CodeDist(ix.vecs[vi], q) as real, ix.labels[vi])
  }

  /** The vectors lo..hi, in the order the inner loop meets them. */
  function RangeScan(ix: IvfIndex, q: Code, lo: nat, hi: nat): seq<Candidate>
    requires WellFormed(ix) && (lo < hi ==> hi <= ix.numVecs)
    decreases hi
  {
    if hi <= lo then [] else RangeScan(ix, q, lo, hi - 1) + [CandidateAt(ix, q, hi - 1)]
  }

  function ClusterScan(ix: IvfIndex, q: Code, ci: nat): seq<Candidate>
    requires Scannable(ix) && ci < ix.numCents
  {
    RangeScan(ix, q, ix.offsets[ci], ix.offsets[ci + 1])
  }

  /** Everything the nested loops meet when the clusters are probed in this order. */
  function Scan(ix: IvfIndex, q: Code, order: seq<nat>): seq<Candidate>
    requires Scannable(ix) && forall i :: 0 <= i < |order| ==> order[i] < ix.numCents
  {
    if order == [] then [] else Scan(ix, q, order[..|order| - 1]) + ClusterScan(ix, q, order[|order| - 1])
  }

  /** What a search must return: the k nearest among the clusters of the p nearest centroids. */
  ghost predicate IsSearchResult(ix: IvfIndex, value: F32 -> real, query: Vec, q: Code, p: nat, k: nat,
                                 order: seq<nat>, kept: seq<Candidate>)
    requires Scannable(ix)
  {
    && IsProbeOrder(order, CentDistsOf(CentroidVecs(ix.centroids, value), query), p)
    && ScanState(kept, multiset(Scan(ix, q, order)), k)
  }

  // ---------- Ranking the centroids ----------

  datatype CentDist = CentDist(idx: nat, dist: real)

  function Dist(c: CentDist): real { c.dist }

  function Indices(cs: seq<CentDist>): (o: seq<nat>)
    ensures |o| == |cs|
  {
    seq(|cs|, i requires 0 <= i < |cs| => cs[i].idx)
  }

  /** One entry per centroid, in centroid order. */
  ghost predicate Unranked(cs: seq<CentDist>, dists: seq<real>) {
    |cs| == |dists| && forall i :: 0 <= i < |cs| ==> cs[i] == CentDist(i, dists[i])
  }

  lemma RankedEntries(cs: seq<CentDist>, dists: seq<real>, r: seq<CentDist>)
    requires Unranked(cs, dists) && multiset(r) == multiset(cs)
    ensures |r| == |dists|
    ensures forall i :: 0 <= i < |r| ==> r[i].idx < |dists| && r[i].dist == dists[r[i].idx]
    ensures Distinct(Indices(r))
    ensures forall c :: 0 <= c < |dists| ==> c in Indices(r)
  {
    SameLength(r, cs);
    forall i | 0 <= i < |r| ensures r[i].idx < |dists| && r[i].dist == dists[r[i].idx] {
      assert r[i] in multiset(cs);
    }
    PermutationKeepsDistinct(cs, r);
    forall c | 0 <= c < |dists| ensures c in Indices(r) {
      assert cs[c] in multiset(r);
      var i :| 0 <= i < |r| && r[i] == cs[c];
      assert Indices(r)[i] == c;
    }
  }

  lemma ProbeOrderFromRanking(cs: seq<CentDist>, dists: seq<real>, r: seq<CentDist>, p: nat)
    requires Unranked(cs, dists) && multiset(r) == multiset(cs) && p <= |r|
    requires SortedBy(r[..p], Dist)
    requires forall i, j :: 0 <= i < p <= j < |r| ==> r[i].dist <= r[j].dist
    ensures IsProbeOrder(Indices(r[..p]), dists, p)
  {
    RankedEntries(cs, dists, r);
    var order, all := Indices(r[..p]), Indices(r);
    assert order == all[..p];
    assert forall j :: 0 <= j < p ==> all[j] in order;
    forall i, j | 0 <= i < j < p ensures dists[order[i]] <= dists[order[j]] {
      assert Dist(r[..p][i]) <= Dist(r[..p][j]);
    }
    forall i, c | 0 <= i < p && 0 <= c < |dists| && c !in order ensures dists[order[i]] <= dists[c] {
      assert c in all;
      var j :| 0 <= j < |all| && all[j] == c;
    }
  }

  lemma SplitPermutation<T>(a: seq<T>, p: nat, b: seq<T>)
    requires p <= |a| && multiset(b) == multiset(a[..p])
    ensures multiset(b + a[p..]) == multiset(a)
  {
    assert a == a[..p] + a[p..];
  }

  lemma FrontStaysBelow(s: seq<CentDist>, p: nat, front: seq<CentDist>)
    requires p <= |s| && |front| == p && multiset(front) == multiset(s[..p])
    requires forall i, j :: 0 <= i < p <= j < |s| ==> s[i].dist <= s[j].dist
    ensures forall i, j :: 0 <= i < p <= j < |s| ==> front[i].dist <= s[j].dist
  {
    forall i, j | 0 <= i < p <= j < |s| ensures front[i].dist <= s[j].dist {
      assert front[i] in multiset(s[..p]);
      var i' :| 0 <= i' < p && s[i'] == front[i];
    }
  }

  /** Partial selection, then a sort of the selected prefix. */
  method PickProbes(cs: seq<CentDist>, ghost dists: seq<real>, probes: nat) returns (r: seq<CentDist>)
    requires Unranked(cs, dists)
    requires probes <= |cs| && (probes >= 1 || cs == [])
    ensures |r| == |cs|
    ensures IsProbeOrder(Indices(r[..probes]), dists, probes)
  {
    var s := cs;
    if probes < |s| {
      s := SelectNthUnstableBy(s, probes - 1, Dist);
      assert forall i :: 0 <= i < probes ==> Dist(s[i]) <= Dist(s[probes - 1]);
      assert forall j :: probes <= j < |s| ==> Dist(s[probes - 1]) <= Dist(s[j]);
    }
    var front := SortUnstableBy(s[..probes], Dist);
    r := front + s[probes..];
    SplitPermutation(s, probes, front);
    FrontStaysBelow(s, probes, front);
    assert r[..probes] == front;
    ProbeOrderFromRanking(cs, dists, r, probes);
  }

  // ---------- The production search ----------

  datatype Neighbor = Neighbor(isFraud: bool)

  /** The reusable buffers of a thread. */
  class SearchBuffer {
    var centDists: seq<CentDist>
    const cands: CandidateBuffer

    constructor ()
      ensures centDists == [] && fresh(cands) && cands.Valid() && fresh(cands.data)
    {
      centDists := [];
      cands := new CandidateBuffer();
    }
  }

  method RankCentroids(s: Searcher, value: F32 -> real, query: Vec) returns (r: seq<CentDist>)
    requires SectionsFit(s)
    ensures Unranked(r, CentDistsOf(CentroidVecs(Decode(s).centroids, value), query))
  {
    r := [];
    for i := 0 to s.numCents
      invariant |r| == i
      invariant forall j :: 0 <= j < i ==> r[j] == CentDist(j, SqDist(query, CentroidVec(CentroidAt(s, j), value)))
    {
      var d := SquaredEuclidean(query, CentroidVec(CentroidAt(s, i), value));
      r := r + [CentDist(i, d)];
    }
  }

  /** The ranking phase of a search. */
  method RankAndPick(s: Searcher, value: F32 -> real, query: Vec, probes: nat) returns (r: seq<CentDist>)
    requires SectionsFit(s) && probes <= s.numCents && (probes >= 1 || s.numCents == 0)
    ensures |r| == s.numCents
    ensures IsProbeOrder(Indices(r[..probes]), CentDistsOf(CentroidVecs(Decode(s).centroids, value), query), probes)
    ensures forall i :: 0 <= i < probes ==> r[i].idx < s.numCents
  {
    hide Decode;
    ghost var dists := CentDistsOf(CentroidVecs(Decode(s).centroids, value), query);
    var ranked := RankCentroids(s, value, query);
    r := PickProbes(ranked, dists, probes);
    assert forall i :: 0 <= i < probes ==> r[i].idx == Indices(r[..probes])[i];
  }

  lemma RangeScanStep(ix: IvfIndex, q: Code, lo: nat, vi: nat, seen: seq<Candidate>)
    requires WellFormed(ix) && lo <= vi < ix.numVecs
    ensures multiset(seen + RangeScan(ix, q, lo, vi + 1))
         == multiset(seen + RangeScan(ix, q, lo, vi)) + multiset{CandidateAt(ix, q, vi)}
  {
    assert seen + RangeScan(ix, q, lo, vi + 1) == seen + RangeScan(ix, q, lo, vi) + [CandidateAt(ix, q, vi)];
  }

  lemma RangeScanEmpty(ix: IvfIndex, q: Code, lo: nat, hi: nat, seen: seq<Candidate>)
    requires WellFormed(ix) && (lo < hi ==> hi <= ix.numVecs)
    ensures seen + RangeScan(ix, q, lo, lo) == seen
    ensures hi <= lo ==> seen + RangeScan(ix, q, lo, hi) == seen
  {
  }

  /** The body of the inner loop. */
  method ScanVector(s: Searcher, q: Code, k: nat, vi: nat, cands: CandidateBuffer, ghost scanned: multiset<Candidate>)
    requires SectionsFit(s) && vi < s.numVecs
    requires cands.Valid() && k >= 1 && ScanState(cands.Contents(), scanned, k)
    modifies cands, cands.data
    ensures cands.Valid() && (cands.data == old(cands.data) || fresh(cands.data))
    ensures ScanState(cands.Contents(), scanned + multiset{CandidateAt(Decode(s), q, vi)}, k)
  {
    hide Offered;
    var d := DistInt8(VecAt(s, vi), q);
    var c := Candidate(vi, d as real, LabelAt(s, vi));
    assert c == CandidateAt(Decode(s), q, vi);
    cands.Offer(c, k, scanned);
  }

  /** The inner loop: one cluster's range of vectors. */
  method ScanRange(s: Searcher, q: Code, k: nat, start: nat, end: nat, cands: CandidateBuffer,
                   ghost seen: seq<Candidate>)
    requires SectionsFit(s) && (start < end ==> end <= s.numVecs)
    requires cands.Valid() && k >= 1 && ScanState(cands.Contents(), multiset(seen), k)
    modifies cands, cands.data
    ensures cands.Valid() && (cands.data == old(cands.data) || fresh(cands.data))
    ensures ScanState(cands.Contents(), multiset(seen + RangeScan(Decode(s), q, start, end)), k)
  {
    hide Decode, ScanState, RangeScan;
    ghost var ix := Decode(s);
    RangeScanEmpty(ix, q, start, end, seen);
    if end <= start {
      return;
    }
    for vi := start to end
      invariant cands.Valid() && (cands.data == old(cands.data) || fresh(cands.data))
      invariant ScanState(cands.Contents(), multiset(seen + RangeScan(ix, q, start, vi)), k)
    {
      RangeScanStep(ix, q, start, vi, seen);
      ScanVector(s, q, k, vi, cands, multiset(seen + RangeScan(ix, q, start, vi)));
    }
  }

  lemma ScanStep(ix: IvfIndex, q: Code, order: seq<nat>, i: nat)
    requires Scannable(ix) && (forall j :: 0 <= j < |order| ==> order[j] < ix.numCents) && i < |order|
    ensures Scan(ix, q, order[..i + 1]) == Scan(ix, q, order[..i]) + ClusterScan(ix, q, order[i])
  {
    assert order[..i + 1][..i] == order[..i];
  }

  lemma EmptyScan(ix: IvfIndex, q: Code, order: seq<nat>, k: nat)
    requires Scannable(ix) && k >= 1
    ensures Scan(ix, q, order[..0]) == []
    ensures ScanState([], multiset(Scan(ix, q, order[..0])), k)
  {
  }

  lemma OffsetsAt(s: Searcher, ci: nat)
    requires SectionsFit(s) && Scannable(Decode(s)) && ci < s.numCents
    ensures var ix, start, end := Decode(s), OffsetAt(s, ci), OffsetAt(s, ci + 1);
      start == ix.offsets[ci] && end == ix.offsets[ci + 1] && (start < end ==> end <= s.numVecs)
  {
  }

  /** The scan phase of a search: clear the candidates, then the probed clusters in order. */
  method ScanProbes(s: Searcher, q: Code, k: nat, probed: seq<CentDist>, cands: CandidateBuffer)
    requires SectionsFit(s) && Scannable(Decode(s)) && k >= 1
    requires forall i :: 0 <= i < |probed| ==> probed[i].idx < s.numCents
    requires cands.Valid()
    modifies cands, cands.data
    ensures cands.Valid() && (cands.data == old(cands.data) || fresh(cands.data))
    ensures ScanState(cands.Contents(), multiset(Scan(Decode(s), q, Indices(probed))), k)
  {
    hide ScanState, Scan, Decode, OffsetAt, RangeScan;
    ghost var ix, order := Decode(s), Indices(probed);
    EmptyScan(ix, q, order, k);
    cands.Clear();
    for i := 0 to |probed|
      invariant cands.Valid() && (cands.data == old(cands.data) || fresh(cands.data))
      invariant ScanState(cands.Contents(), multiset(Scan(ix, q, order[..i])), k)
    {
      var ci := probed[i].idx;
      var start, end := OffsetAt(s, ci), OffsetAt(s, ci + 1);
      OffsetsAt(s, ci);
      assert order[i] == ci;
      ScanStep(ix, q, order, i);
      ScanRange(s, q, k, start, end, cands, Scan(ix, q, order[..i]));
    }
    assert order[..|order|] == order;
  }

  method Labels(cands: CandidateBuffer) returns (neighbors: seq<Neighbor>)
    requires cands.Valid()
    ensures |neighbors| == |cands.Contents()|
    ensures forall i :: 0 <= i < |neighbors| ==> neighbors[i].isFraud == cands.Contents()[i].isFraud
  {
    neighbors := [];
    for i := 0 to cands.len
      invariant |neighbors| == i
      invariant forall j :: 0 <= j < i ==> neighbors[j].isFraud == cands.data[j].isFraud
    {
      neighbors := neighbors + [Neighbor(cands.data[i].isFraud)];
    }
  }

  /** `Searcher::search`. */
  method Search(s: Searcher, value: F32 -> real, query: Vec, k: nat,
                buf: SearchBuffer) returns (neighbors: seq<Neighbor>)
    requires SectionsFit(s) && Scannable(Decode(s)) && k >= 1
    requires Min(s.probes, s.numCents) >= 1 || s.numCents == 0
    requires buf.cands.Valid()
    modifies buf, buf.cands, buf.cands.data
    ensures buf.cands.Valid()
    ensures |buf.centDists| == s.numCents
    ensures var p := Min(s.probes, s.numCents);
      IsSearchResult(Decode(s), value, query, QuantizeVec(query), p, k,
                     Indices(buf.centDists[..p]), buf.cands.Contents())
    ensures |neighbors| == |buf.cands.Contents()|
    ensures forall i :: 0 <= i < |neighbors| ==> neighbors[i].isFraud == buf.cands.Contents()[i].isFraud
  {
    hide Decode, ScanState, Scan, CentDistsOf, IsProbeOrder;
    var probes := Min(s.probes, s.numCents);
    var q := QuantizeAll(query, Quantize);
    buf.centDists := RankAndPick(s, value, query, probes);
    ScanProbes(s, q, k, buf.centDists[..probes], buf.cands);
    neighbors := Labels(buf.cands);
  }
}
