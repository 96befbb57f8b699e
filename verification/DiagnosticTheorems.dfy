/** What the classifier's numbers mean: ranks, probe misses, tie flips, and the two index spaces. */
module DiagnosticTheorems {
  import opened Ordering
  import opened Vectors
  import opened Quantization
  import opened Bytes
  import opened IndexFormat
  import opened IndexLoader
  import opened TopK
  import opened Heap
  import opened IvfSearch
  import opened ScanFacts
  import opened Builder
  import opened Pipeline
  import opened SearchTheorems
  import opened Diagnostics

  // ---------- Ranks ----------

  /** With a strict cut, two orders of the same length probe the same clusters. */
  lemma SameProbes(order: seq<nat>, other: seq<nat>, dists: seq<real>, p: nat)
    requires IsProbeOrder(order, dists, p) && IsProbeOrder(other, dists, p) && StrictCut(order, dists)
    ensures forall c :: c in order <==> c in other
  {
    ProbesAreNested(order, other, dists, p, p);
    SubElements(order, other);
    SameSize(multiset(order), multiset(other));
    forall c ensures c in order <==> c in other {
      assert c in multiset(order) <==> c in multiset(other);
    }
  }

  lemma ScannedIffListed(ix: IvfIndex, q: Code, order: seq<nat>, vi: nat)
    requires Partitioned(ix) && ValidOrder(ix, order) && vi < ix.numVecs
    ensures vi in VecIndices(Scan(ix, q, order)) <==> Scanned(ix, order, vi)
  {
    var s := Scan(ix, q, order);
    InScan(ix, q, order, CandidateAt(ix, q, vi));
    if Scanned(ix, order, vi) {
      var i :| 0 <= i < |s| && s[i] == CandidateAt(ix, q, vi);
      assert VecIndices(s)[i] == vi;
    }
    if vi in VecIndices(s) {
      var i :| 0 <= i < |s| && VecIndices(s)[i] == vi;
      InScan(ix, q, order, s[i]);
    }
  }

  /** A cluster rank is at most the probe count exactly when the vector's index is in the scanned list. */
  lemma RankMeaning(ix: IvfIndex, q: Code, dists: seq<real>, full: seq<nat>, rank: nat, vi: nat, order: seq<nat>,
                    p: nat)
    requires Partitioned(ix) && |dists| == ix.numCents && vi < ix.numVecs
    requires IsProbeOrder(full, dists, ix.numCents) && 1 <= rank <= ix.numCents && Owns(ix, full[rank - 1], vi)
    requires IsProbeOrder(order, dists, p) && StrictCut(order, dists)
    ensures rank <= p <==> vi in VecIndices(Scan(ix, q, order))
  {
    var owner := full[rank - 1];
    ScannedIffListed(ix, q, order, vi);
    ProbedIffInOrder(ix, order, owner, vi);
    ProbeCountBound(order, dists, p);
    PrefixIsProbeOrder(full, dists, ix.numCents, p);
    SameProbes(order, full[..p], dists, p);
    if rank <= p {
      assert full[..p][rank - 1] == owner;
    }
  }

  lemma ProbeCountBound(order: seq<nat>, dists: seq<real>, p: nat)
    requires IsProbeOrder(order, dists, p)
    ensures p <= |dists|
  {
    DistinctSetSize(order);
    SmallSet(Elements(order), |dists|);
  }

  lemma ProbedIffInOrder(ix: IvfIndex, order: seq<nat>, owner: nat, vi: nat)
    requires Partitioned(ix) && ValidOrder(ix, order) && owner < ix.numCents && Owns(ix, owner, vi)
    ensures Scanned(ix, order, vi) <==> owner in order
  {
    if Scanned(ix, order, vi) {
      var i :| 0 <= i < |order| && Owns(ix, order[i], vi);
      OwnerUnique(ix, order[i], owner, vi);
    }
    if owner in order {
      var i :| 0 <= i < |order| && order[i] == owner;
      assert Owns(ix, order[i], vi);
    }
  }

  // ---------- Probe misses ----------

  /** If every one of the k clearly nearest vectors was scanned, the search found exactly them. */
  lemma AllScannedMeansFound(ix: IvfIndex, q: Code, order: seq<nat>, kept: seq<Candidate>, best: seq<Candidate>, k: nat)
    requires Partitioned(ix) && ValidOrder(ix, order)
    requires ScanState(kept, multiset(Scan(ix, q, order)), k)
    requires Separated(multiset(best), multiset(RangeScan(ix, q, 0, ix.numVecs)), k)
    requires forall c :: c in best ==> Scanned(ix, order, c.idx)
    ensures multiset(kept) == multiset(best)
  {
    var all, scan := RangeScan(ix, q, 0, ix.numVecs), Scan(ix, q, order);
    ScanIsPart(ix, q, order);
    DistinctCounts(all);
    forall c | c in best ensures c in scan {
      assert c in multiset(best) && c in multiset(all);
      InRangeScan(ix, q, 0, ix.numVecs, c);
      InScan(ix, q, order, c);
    }
    SeparatedInPart(best, scan, all, k);
    SeparatedIsUnique(multiset(best), multiset(kept), multiset(scan), k);
  }

  /** Probe-miss characterisation: when the k nearest stand strictly apart and the search still reports another
    fraud count than the full scan, some true neighbour lies in a cluster that was not probed. */
  lemma WrongCountMeansProbeMiss(ix: IvfIndex, q: Code, order: seq<nat>, kept: seq<Candidate>, best: seq<Candidate>,
                                 k: nat)
    requires Partitioned(ix) && ValidOrder(ix, order)
    requires ScanState(kept, multiset(Scan(ix, q, order)), k)
    requires Separated(multiset(best), multiset(RangeScan(ix, q, 0, ix.numVecs)), k)
    requires FraudCount(kept) != FraudCount(best)
    ensures exists c :: c in best && !Scanned(ix, order, c.idx)
  {
    if forall c :: c in best ==> Scanned(ix, order, c.idx) {
      AllScannedMeansFound(ix, q, order, kept, best, k);
      FraudCountOfPermutation(kept, best);
    }
  }

  // ---------- The classification ----------

  datatype Classification = TieFlip | ProbeMiss | VectorizeIssue | Other

  /** The decision in main, from the true neighbours, the scanned list and the two fraud counts. */
  function Classify(expectedApproved: bool, trueNeighbors: seq<Candidate>, diag: DiagResult): Classification {
    var trueCount := FraudCount(trueNeighbors);
    var trueApproved := trueCount < 3;
    if !trueApproved == expectedApproved then VectorizeIssue
    else if exists i :: 0 <= i < |trueNeighbors| && trueNeighbors[i].idx !in diag.scanned then ProbeMiss
    else if diag.fraudCount != trueCount then TieFlip
    else Other
  }

  /** The four verdicts. The vectors are blamed exactly when the true neighbours give the expected answer's opposite:
    at least three of them are frauds and approval was expected, or fewer and it was not. Otherwise a true neighbour
    that was not scanned makes a probe miss, and a different number of frauds a tie flip. */
  lemma ClassifyMeaning(expectedApproved: bool, trueNeighbors: seq<Candidate>, diag: DiagResult)
    ensures var verdict := Classify(expectedApproved, trueNeighbors, diag);
      var frauds := |set i | 0 <= i < |trueNeighbors| && trueNeighbors[i].isFraud|;
      var blamed := if expectedApproved then frauds >= 3 else frauds < 3;
      var missed := exists c :: c in trueNeighbors && c.idx !in diag.scanned;
      && (verdict == VectorizeIssue <==> blamed)
      && (verdict == ProbeMiss <==> !blamed && missed)
      && (verdict == TieFlip <==> !blamed && !missed && diag.fraudCount != frauds)
      && (verdict == Other <==> !blamed && !missed && diag.fraudCount == frauds)
  {
    FraudCountIsSize(trueNeighbors);
  }

  /** What main does with one mismatch: search, scan by brute force, decide. */
  method ClassifyMismatch(ix: IvfIndex, value: F32 -> real, refs: seq<Reference>, query: Vec, expectedApproved: bool)
    returns (verdict: Classification, diag: DiagResult, trueNeighbors: seq<Candidate>)
    requires Scannable(ix)
    ensures IsSearchResult(ix, value, query, Codes(query, QuantizeTruncating), Min(3, ix.numCents), 5, diag.probed,
                           diag.returned)
    ensures KNearest(multiset(trueNeighbors), multiset(ReferenceStream(refs, query)), 5)
    ensures verdict == VectorizeIssue <==>
      (if expectedApproved then |Frauds(trueNeighbors)| >= 3 else |Frauds(trueNeighbors)| < 3)
    ensures var scanned := VecIndices(Scan(ix, Codes(query, QuantizeTruncating), diag.probed));
      verdict == ProbeMiss ==> exists c :: c in trueNeighbors && c.idx !in scanned
    ensures verdict == TieFlip ==> |Frauds(diag.returned)| != |Frauds(trueNeighbors)|
    ensures verdict == Other ==> |Frauds(diag.returned)| == |Frauds(trueNeighbors)|
    ensures var scanned := VecIndices(Scan(ix, Codes(query, QuantizeTruncating), diag.probed));
      verdict == TieFlip || verdict == Other ==> forall c :: c in trueNeighbors ==> c.idx in scanned
  {
    hide ScanState, Scan, KNearest, Classify;
    diag := DiagnosticSearch(ix, value, query, QuantizeTruncating);
    trueNeighbors := BruteForce(refs, query);
    verdict := Classify(expectedApproved, trueNeighbors, diag);
    ClassifyMeaning(expectedApproved, trueNeighbors, diag);
  }

  /** A probe miss is reported exactly when the true neighbours give the expected answer and the cluster of one of
    them ranks beyond the probed ones. */
  lemma ProbeMissMeansFarRank(ix: IvfIndex, q: Code, dists: seq<real>, p: nat, diag: DiagResult, expectedApproved: bool,
                              trueNeighbors: seq<Candidate>, full: seq<nat>, ranks: seq<nat>)
    requires Partitioned(ix) && |dists| == ix.numCents
    requires IsProbeOrder(diag.probed, dists, p) && StrictCut(diag.probed, dists) && IsProbeOrder(full, dists,
                          ix.numCents)
    requires diag.scanned == VecIndices(Scan(ix, q, diag.probed))
    requires |ranks| == |trueNeighbors|
    requires forall i :: 0 <= i < |ranks| ==> trueNeighbors[i].idx < ix.numVecs
    requires forall i :: 0 <= i < |ranks| ==>
      1 <= ranks[i] <= ix.numCents && Owns(ix, full[ranks[i] - 1], trueNeighbors[i].idx)
    ensures Classify(expectedApproved, trueNeighbors, diag) == ProbeMiss <==>
      && (expectedApproved <==> |Frauds(trueNeighbors)| < 3)
      && exists i :: 0 <= i < |ranks| && ranks[i] > p
  {
    hide Scan, Classify;
    ClassifyMeaning(expectedApproved, trueNeighbors, diag);
    forall i | 0 <= i < |ranks| ensures ranks[i] <= p <==> trueNeighbors[i].idx in diag.scanned {
      RankMeaning(ix, q, dists, full, ranks[i], trueNeighbors[i].idx, diag.probed, p);
    }
    if exists i :: 0 <= i < |ranks| && ranks[i] > p {
      var i :| 0 <= i < |ranks| && ranks[i] > p;
      assert trueNeighbors[i] in trueNeighbors && trueNeighbors[i].idx !in diag.scanned;
    }
  }

  /** A tie flip is never reported when the true neighbours, read in the index's own numbering, are strictly
    the nearest of all stored vectors by int8 distance. */
  lemma TieFlipMeansNotSeparated(ix: IvfIndex, q: Code, diag: DiagResult, expectedApproved: bool,
                                 trueNeighbors: seq<Candidate>, best: seq<Candidate>)
    requires Partitioned(ix) && ValidOrder(ix, diag.probed)
    requires ScanState(diag.returned, multiset(Scan(ix, q, diag.probed)), K)
    requires diag.scanned == VecIndices(Scan(ix, q, diag.probed)) && diag.fraudCount == FraudCount(diag.returned)
    requires SameVectors(ix, q, trueNeighbors, best)
    requires Classify(expectedApproved, trueNeighbors, diag) == TieFlip
    ensures !Separated(multiset(best), multiset(RangeScan(ix, q, 0, ix.numVecs)), K)
  {
    hide Separated, Scan, RangeScan, ScanState, FraudCount;
    if Separated(multiset(best), multiset(RangeScan(ix, q, 0, ix.numVecs)), K) {
      SameVectorsSameCount(ix, q, trueNeighbors, best);
      forall c | c in best ensures Scanned(ix, diag.probed, c.idx) {
        var i :| 0 <= i < |best| && best[i] == c;
        assert trueNeighbors[i].idx in diag.scanned;
        ScannedIffListed(ix, q, diag.probed, c.idx);
      }
      AllScannedMeansFound(ix, q, diag.probed, diag.returned, best, K);
      FraudCountOfPermutation(diag.returned, best);
    }
  }

  /** `best` are the stored candidates that the true neighbours name, with the same labels. */
  ghost predicate SameVectors(ix: IvfIndex, q: Code, trueNeighbors: seq<Candidate>, best: seq<Candidate>) {
    && WellFormed(ix) && |best| == |trueNeighbors|
    && (forall i :: 0 <= i < |best| ==> best[i].idx < ix.numVecs && best[i] == CandidateAt(ix, q, best[i].idx))
    && (forall i :: 0 <= i < |best| ==>
        trueNeighbors[i].idx == best[i].idx && trueNeighbors[i].isFraud == best[i].isFraud)
  }

  lemma {:induction false} SameVectorsSameCount(ix: IvfIndex, q: Code, a: seq<Candidate>, b: seq<Candidate>)
    requires SameVectors(ix, q, a, b)
    ensures FraudCount(a) == FraudCount(b)
  {
    if a != [] {
      SameVectorsSameCount(ix, q, a[..|a| - 1], b[..|b| - 1]);
    }
  }

  // ---------- The search against brute force ----------

  /** The references the classifier holds, in file order. */
  function References(entries: seq<Entry>): (r: seq<Reference>)
    ensures |r| == |entries|
  {
    seq(|entries|, i requires 0 <= i < |entries| => Reference(entries[i].vec, entries[i].isFraud))
  }

  lemma GapSeparatesReals(entries: seq<Entry>, query: Vec, best: seq<nat>, k: nat, gap: real)
    requires ClearlyNearest(entries, query, best, k, gap) && gap >= 0.0
    ensures var stream := ReferenceStream(References(entries), query);
      Separated(multiset(Chosen(stream, best)), multiset(stream), k)
  {
    hide SqDist;
    var stream := ReferenceStream(References(entries), query);
    var chosen := Chosen(stream, best);
    forall c | c in chosen ensures c in stream {
      var i :| 0 <= i < |chosen| && chosen[i] == c;
      assert stream[best[i]] == c;
    }
    SubElements(chosen, stream);
    forall c: Candidate, d: Candidate | c in multiset(chosen) && d in multiset(stream) - multiset(chosen)
      ensures c.dist < d.dist
    {
      var i :| 0 <= i < |chosen| && chosen[i] == c;
      var j := NotChosen(stream, best, d);
    }
  }

  lemma {:induction false} SameLabelsSameCount(a: seq<Candidate>, b: seq<Candidate>)
    requires |a| == |b| && forall i :: 0 <= i < |a| ==> a[i].isFraud == b[i].isFraud
    ensures FraudCount(a) == FraudCount(b)
  {
    if a != [] {
      SameLabelsSameCount(a[..|a| - 1], b[..|b| - 1]);
    }
  }

  lemma BestInRange(entries: seq<Entry>, query: Vec, best: seq<nat>, k: nat, gap: real)
    requires ClearlyNearest(entries, query, best, k, gap)
    ensures forall i :: 0 <= i < |best| ==> best[i] < |entries|
  {
  }

  /** Brute force over the real vectors finds clearly nearest references, with the fraud count of the stored ones. */
  lemma BruteForceFinds(entries: seq<Entry>, query: Vec, q: Code, best: seq<nat>, gap: real, bruteForce: seq<Candidate>)
    requires ClearlyNearest(entries, query, best, K, gap) && gap >= 0.0
    requires KNearest(multiset(bruteForce), multiset(ReferenceStream(References(entries), query)), K)
    ensures forall i :: 0 <= i < |best| ==> best[i] < |entries|
    ensures multiset(bruteForce) == multiset(Chosen(ReferenceStream(References(entries), query), best))
    ensures FraudCount(bruteForce) == FraudCount(Chosen(ReferenceCandidates(entries, q), best))
  {
    hide KNearest, Separated, FraudCount, ClearlyNearest;
    var stream, refs := ReferenceStream(References(entries), query), ReferenceCandidates(entries, q);
    BestInRange(entries, query, best, K, gap);
    GapSeparatesReals(entries, query, best, K, gap);
    SeparatedIsUnique(multiset(Chosen(stream, best)), multiset(bruteForce), multiset(stream), K);
    FraudCountOfPermutation(bruteForce, Chosen(stream, best));
    SameLabelsSameCount(Chosen(stream, best), Chosen(refs, best));
  }

  /** When five references are clearly nearest and their nearest centroids are probed, the production search and the
    brute-force scan over the real vectors report the same fraud count. */
  lemma SearchMatchesBruteForce(entries: seq<Entry>, centroids: seq<Centroid>, value: F32 -> real, defaultProbes: U32,
                                probes: nat, query: Vec, order: seq<nat>, kept: seq<Candidate>, best: seq<nat>,
                                bruteForce: seq<Candidate>)
    requires Buildable(entries, centroids, value)
    requires Found(BuiltFile(entries, centroids, value, defaultProbes), probes, value, query, K, order, kept)
    requires Normalized(entries) && Within(query, -1.0, 1.0) && ClearlyNearest(entries, query, best, K, 14252.0)
    requires AllProbed(entries, CentroidVecs(centroids, value), order, best)
    requires KNearest(multiset(bruteForce), multiset(ReferenceStream(References(entries), query)), K)
    ensures FraudCount(kept) == FraudCount(bruteForce)
    ensures multiset(bruteForce) == multiset(Chosen(ReferenceStream(References(entries), query), best))
  {
    hide Found, KNearest, FraudCount, ClearlyNearest, Normalized, Within, AllProbed, Renumbered;
    ProductionSearchFinds(entries, centroids, value, defaultProbes, probes, query, K, order, kept, best);
    BruteForceFinds(entries, query, QuantizeVec(query), best, 14252.0, bruteForce);
  }

  /** The classifier's own search truncates the query's codes and probes at most three clusters. When five references
    are nearer than the rest by more than 21399 / 16129 and their nearest centroids are probed, it agrees with brute
    force, so the verdict is not a tie flip. */
  lemma DiagnosticMatchesBruteForce(entries: seq<Entry>, centroids: seq<Centroid>, value: F32 -> real,
                                    defaultProbes: U32, query: Vec, diag: DiagResult, best: seq<nat>,
                                    bruteForce: seq<Candidate>, expectedApproved: bool)
    requires Buildable(entries, centroids, value)
    requires Scannable(BuiltIndex(entries, centroids, value, defaultProbes))
    requires IsSearchResult(BuiltIndex(entries, centroids, value, defaultProbes), value, query,
                            Codes(query, QuantizeTruncating), Min(PROBES, |centroids|), K, diag.probed, diag.returned)
    requires diag.fraudCount == FraudCount(diag.returned)
    requires Normalized(entries) && Within(query, -1.0, 1.0) && ClearlyNearest(entries, query, best, K, 21399.0)
    requires AllProbed(entries, CentroidVecs(centroids, value), diag.probed, best)
    requires KNearest(multiset(bruteForce), multiset(ReferenceStream(References(entries), query)), K)
    ensures var found := Renumbered(Sources(entries, CentroidVecs(centroids, value)), diag.returned);
      && (forall i :: 0 <= i < |best| ==> best[i] < |entries|)
      && multiset(found) == multiset(Chosen(ReferenceCandidates(entries, Codes(query, QuantizeTruncating)), best))
    ensures diag.fraudCount == FraudCount(bruteForce)
    ensures Classify(expectedApproved, bruteForce, diag) != TieFlip
  {
    hide KNearest, FraudCount, ClearlyNearest, Normalized, Within, AllProbed, Renumbered, ErrorBound, CodesWithin;
    hide Codes, ReferenceCandidates;
    WrittenIsPartitioned(centroids, BuiltClusters(entries, centroids, value), defaultProbes);
    TruncatedCodes(query);
    ErrorBounds();
    ClearNeighborsFound(entries, centroids, value, defaultProbes, query, Codes(query, QuantizeTruncating), 1.0, K,
                        diag.probed, diag.returned, best);
    BruteForceFinds(entries, query, Codes(query, QuantizeTruncating), best, 21399.0, bruteForce);
  }

  // ---------- Two numberings ----------

  /** The references come sorted by cluster. */
  ghost predicate SortedByCluster(entries: seq<Entry>, vecs: seq<Vec>) {
    forall i, j :: 0 <= i < j < |entries| ==> Nearest(entries[i].vec, vecs) <= Nearest(entries[j].vec, vecs)
  }

  /** Stored index i lies in the cluster that reference i belongs to. */
  ghost predicate NumberingsAgree(entries: seq<Entry>, centroids: seq<Centroid>, value: F32 -> real, defaultProbes: U32)
    requires Buildable(entries, centroids, value)
  {
    var ix, vecs := BuiltIndex(entries, centroids, value, defaultProbes), CentroidVecs(centroids, value);
    WellFormed(ix) && forall i :: 0 <= i < |entries| ==> Owns(ix, Nearest(entries[i].vec, vecs), i)
  }

  /** The classifier looks up reference numbers among stored indices. That names the right cluster for every
    reference exactly when the reference file comes sorted by cluster. */
  lemma NumberingsAgreeIffSorted(entries: seq<Entry>, centroids: seq<Centroid>, value: F32 -> real, defaultProbes: U32)
    requires Buildable(entries, centroids, value)
    ensures NumberingsAgree(entries, centroids, value, defaultProbes)
       <==> SortedByCluster(entries, CentroidVecs(centroids, value))
  {
    var ix, vecs := BuiltIndex(entries, centroids, value, defaultProbes), CentroidVecs(centroids, value);
    WrittenIsPartitioned(centroids, BuiltClusters(entries, centroids, value), defaultProbes);
    if NumberingsAgree(entries, centroids, value, defaultProbes) {
      forall i, j | 0 <= i < j < |entries| ensures Nearest(entries[i].vec, vecs) <= Nearest(entries[j].vec, vecs) {
        OwnersAreOrdered(ix, Nearest(entries[i].vec, vecs), Nearest(entries[j].vec, vecs), i, j);
      }
    }
    if SortedByCluster(entries, vecs) {
      SortedKeepsNumbers(entries, vecs);
      forall i | 0 <= i < |entries| ensures Owns(ix, Nearest(entries[i].vec, vecs), i) {
        OwnerIsNearest(entries, centroids, value, defaultProbes, Nearest(entries[i].vec, vecs), i);
      }
    }
  }

  lemma OwnersAreOrdered(ix: IvfIndex, a: nat, b: nat, i: nat, j: nat)
    requires Partitioned(ix) && a < ix.numCents && b < ix.numCents && Owns(ix, a, i) && Owns(ix, b, j) && i < j
    ensures a <= b
  {
  }

  ghost predicate Increasing(s: seq<nat>) {
    forall i, j :: 0 <= i < j < |s| ==> s[i] < s[j]
  }

  lemma NothingIncreases()
    ensures Increasing([])
  {
  }

  lemma IncreasingPositions(entries: seq<Entry>, vecs: seq<Vec>, ci: nat)
    ensures Increasing(Positions(entries, vecs, ci))
  {
    PositionsIncrease(entries, vecs, ci);
  }

  lemma {:induction false} SortedListsIncrease(entries: seq<Entry>, vecs: seq<Vec>, n: nat)
    requires SortedByCluster(entries, vecs)
    ensures Increasing(Concat(PositionLists(entries, vecs, n)))
  {
    hide Increasing, AmongFirst, BelongsTo, SortedByCluster, Positions;
    if n == 0 {
      assert Increasing([]) by { NothingIncreases(); }
    } else {
      SortedListsIncrease(entries, vecs, n - 1);
      ListsStep(entries, vecs, n);
      PositionsMeaning(entries, vecs, n - 1);
      IncreasingPositions(entries, vecs, n - 1);
      SourcesOfFirst(entries, vecs, n - 1);
      var front, last := Concat(PositionLists(entries, vecs, n - 1)), Positions(entries, vecs, n - 1);
      forall i, j | 0 <= i < |front| && 0 <= j < |last| ensures front[i] < last[j] {
        assert front[i] in front && last[j] in last;
        EarlierCluster(entries, vecs, n - 1, front[i], last[j]);
      }
      IncreasingConcat(front, last);
    }
  }

  lemma EarlierCluster(entries: seq<Entry>, vecs: seq<Vec>, n: nat, i: nat, j: nat)
    requires SortedByCluster(entries, vecs) && AmongFirst(entries, vecs, n, i) && BelongsTo(entries, vecs, n, j)
    ensures i < j
  {
  }

  lemma IncreasingConcat(a: seq<nat>, b: seq<nat>)
    requires Increasing(a) && Increasing(b)
    requires forall i, j :: 0 <= i < |a| && 0 <= j < |b| ==> a[i] < b[j]
    ensures Increasing(a + b)
  {
  }

  lemma {:induction false} IncreasingIsAtLeast(s: seq<nat>, i: nat)
    requires Increasing(s) && i < |s|
    ensures s[i] >= i
  {
    if i > 0 {
      IncreasingIsAtLeast(s, i - 1);
    }
  }

  lemma {:induction false} IncreasingIsAtMost(s: seq<nat>, i: nat, n: nat)
    requires Increasing(s) && i < |s| == n && forall j :: 0 <= j < n ==> s[j] < n
    ensures s[i] <= i
    decreases n - i
  {
    if i + 1 < n {
      IncreasingIsAtMost(s, i + 1, n);
    }
  }

  lemma SortedKeepsNumbers(entries: seq<Entry>, vecs: seq<Vec>)
    requires vecs != [] && SortedByCluster(entries, vecs)
    ensures Sources(entries, vecs) == Identity(|entries|)
  {
    var s, n := Sources(entries, vecs), |entries|;
    SortedListsIncrease(entries, vecs, |vecs|);
    BuildConserves(entries, vecs);
    SameLength(s, Identity(n));
    forall j | 0 <= j < n ensures s[j] < n {
      assert s[j] in multiset(Identity(n));
    }
    forall i | 0 <= i < n ensures s[i] == i {
      IncreasingIsAtLeast(s, i);
      IncreasingIsAtMost(s, i, n);
    }
  }

  // Two references whose nearest centroids come in reverse order.

  function WordValue(w: F32): real { w as real }

  function OnAxisWords(w: F32): Centroid {
    seq(DIMS, j requires 0 <= j < DIMS => if j == 0 then w else 0)
  }

  function ReversedEntries(): (e: seq<Entry>)
    ensures |e| == 2
  {
    [Entry(QuantizeVec(OnAxis(1.0)), OnAxis(1.0), false), Entry(QuantizeVec(OnAxis(0.0)), OnAxis(0.0), false)]
  }

  lemma AxisWords()
    ensures CentroidVecs([OnAxisWords(0), OnAxisWords(1)], WordValue) == [OnAxis(0.0), OnAxis(1.0)]
  {
    assert CentroidVec(OnAxisWords(0), WordValue) == OnAxis(0.0);
    assert CentroidVec(OnAxisWords(1), WordValue) == OnAxis(1.0);
  }

  lemma NearestOfTwo(v: Vec, vecs: seq<Vec>)
    requires |vecs| == 2 && SqDist(v, vecs[0]) < F32_MAX
    ensures Nearest(v, vecs) == if SqDist(v, vecs[1]) < SqDist(v, vecs[0]) then 1 else 0
  {
    hide SqDist;
    NearestIsFirstMinimiser(v, vecs);
  }

  /** The numberings can disagree: the reference at 1 comes first, its centroid second. */
  lemma NumberingsCanDisagree()
    ensures var centroids := [OnAxisWords(0), OnAxisWords(1)];
      Buildable(ReversedEntries(), centroids, WordValue) && !NumberingsAgree(ReversedEntries(), centroids, WordValue, 3)
  {
    hide SqDist, OnAxis, QuantizeVec;
    var entries, centroids := ReversedEntries(), [OnAxisWords(0), OnAxisWords(1)];
    var vecs := CentroidVecs(centroids, WordValue);
    assert vecs == [OnAxis(0.0), OnAxis(1.0)] by { AxisWords(); }
    OnAxisDist(1.0, 0.0);
    OnAxisDist(1.0, 1.0);
    OnAxisDist(0.0, 0.0);
    OnAxisDist(0.0, 1.0);
    NearestOfTwo(OnAxis(1.0), vecs);
    NearestOfTwo(OnAxis(0.0), vecs);
    BuildConserves(entries, vecs);
    assert !SortedByCluster(entries, vecs) by { assert entries[0].vec == OnAxis(1.0) && entries[1].vec == OnAxis(0.0); }
    NumberingsAgreeIffSorted(entries, centroids, WordValue, 3);
  }
}
