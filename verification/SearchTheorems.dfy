/** What a search of a built index is good for: faithful ranking, self-retrieval, and more probes never hurting. */
module SearchTheorems {
  import opened Ordering
  import opened Vectors
  import opened Quantization
  import opened Bytes
  import opened IndexFormat
  import opened IndexLoader
  import opened TopK
  import opened IvfSearch
  import opened ScanFacts
  import opened Builder
  import opened Pipeline

  // ---------- Quantization keeps well-separated rankings ----------

  /** Every entry carries the codes of its own components, which lie in [-1, 1]. */
  ghost predicate Normalized(entries: seq<Entry>) {
    CarryOwnCodes(entries) && forall i :: 0 <= i < |entries| ==> Within(entries[i].vec, -1.0, 1.0)
  }

  ghost predicate CarryOwnCodes(entries: seq<Entry>) {
    forall i :: 0 <= i < |entries| ==> entries[i].code == QuantizeVec(entries[i].vec)
  }

  /** The builder gives every accepted reference the production codes of its own components. */
  lemma {:induction false} AcceptedCodes(records: seq<RefRecord>)
    ensures CarryOwnCodes(Accepted(records))
  {
    if records != [] {
      AcceptedCodes(records[..|records| - 1]);
    }
  }

  /** `best` names k references that are nearer, in real squared distance, than all the others
    by more than gap / 16129. */
  ghost predicate ClearlyNearest(entries: seq<Entry>, query: Vec, best: seq<nat>, k: nat, gap: real) {
    && Distinct(best) && |best| == Min(k, |entries|)
    && (forall i :: 0 <= i < |best| ==> best[i] < |entries|)
    && (forall i, j :: 0 <= i < |best| && 0 <= j < |entries| && j !in best ==>
        16129.0 * SqDist(query, entries[j].vec) > 16129.0 * SqDist(query, entries[best[i]].vec) + gap)
  }

  function Chosen(refs: seq<Candidate>, best: seq<nat>): (c: seq<Candidate>)
    requires forall i :: 0 <= i < |best| ==> best[i] < |refs|
    ensures |c| == |best|
  {
    seq(|best|, i requires 0 <= i < |best| => refs[best[i]])
  }

  lemma ChosenIsDistinct(entries: seq<Entry>, q: Code, best: seq<nat>)
    requires Distinct(best) && forall i :: 0 <= i < |best| ==> best[i] < |entries|
    ensures var refs := ReferenceCandidates(entries, q);
      Distinct(refs) && Distinct(Chosen(refs, best)) && multiset(Chosen(refs, best)) <= multiset(refs)
  {
    var refs := ReferenceCandidates(entries, q);
    var chosen := Chosen(refs, best);
    forall c | c in chosen ensures c in refs {
      var i :| 0 <= i < |chosen| && chosen[i] == c;
      assert refs[best[i]] == c;
    }
    SubElements(chosen, refs);
  }

  lemma NotChosen(refs: seq<Candidate>, best: seq<nat>, d: Candidate) returns (j: nat)
    requires forall i :: 0 <= i < |best| ==> best[i] < |refs|
    requires Distinct(refs) && d in multiset(refs) - multiset(Chosen(refs, best))
    ensures j < |refs| && refs[j] == d && j !in best
  {
    assert d in multiset(refs);
    j :| 0 <= j < |refs| && refs[j] == d;
    InChosen(refs, best, j);
    DistinctCounts(refs);
  }

  lemma InChosen(refs: seq<Candidate>, best: seq<nat>, j: nat)
    requires forall i :: 0 <= i < |best| ==> best[i] < |refs|
    requires j < |refs|
    ensures j in best ==> refs[j] in multiset(Chosen(refs, best))
  {
    if j in best {
      var i :| 0 <= i < |best| && best[i] == j;
      assert Chosen(refs, best)[i] == refs[j];
    }
  }

  /** A gap of twice the quantization error keeps the k references strictly nearest by int8 distance. */
  lemma GapSeparatesCodes(entries: seq<Entry>, query: Vec, q: Code, e: real, best: seq<nat>, k: nat)
    requires Normalized(entries) && Within(query, -1.0, 1.0) && CodesWithin(query, q, e) && e >= 0.0
    requires ClearlyNearest(entries, query, best, k, 2.0 * ErrorBound(e))
    ensures var refs := ReferenceCandidates(entries, q);
      Separated(multiset(Chosen(refs, best)), multiset(refs), k)
  {
    hide ErrorBound, CodesWithin, Within;
    var refs := ReferenceCandidates(entries, q);
    var chosen := Chosen(refs, best);
    ChosenIsDistinct(entries, q, best);
    forall c: Candidate, d: Candidate | c in multiset(chosen) && d in multiset(refs) - multiset(chosen)
      ensures c.dist < d.dist {
      var i :| 0 <= i < |chosen| && chosen[i] == c;
      var j := NotChosen(refs, best, d);
      GapSurvivesQuantization(query, q, e, entries[best[i]].vec, entries[j].vec);
    }
  }

  /** The nearest centroid of every reference in `best` is probed. */
  ghost predicate AllProbed(entries: seq<Entry>, vecs: seq<Vec>, order: seq<nat>, best: seq<nat>) {
    forall i :: 0 <= i < |best| && best[i] < |entries| ==> Nearest(entries[best[i]].vec, vecs) in order
  }

  lemma ScanIsPart(ix: IvfIndex, q: Code, order: seq<nat>)
    requires Partitioned(ix) && ValidOrder(ix, order)
    ensures multiset(Scan(ix, q, order)) <= multiset(RangeScan(ix, q, 0, ix.numVecs))
    ensures Distinct(RangeScan(ix, q, 0, ix.numVecs))
  {
    var all, scan := RangeScan(ix, q, 0, ix.numVecs), Scan(ix, q, order);
    ScanIsDistinct(ix, q, order);
    InRangeScan(ix, q, 0, ix.numVecs, Candidate(0, 0.0, false));
    forall c | c in scan ensures c in all {
      InScan(ix, q, order, c);
      InRangeScan(ix, q, 0, ix.numVecs, c);
    }
    SubElements(scan, all);
  }

  /** If k candidates stand strictly apart from all the others, they do so in any part that holds them. */
  lemma SeparatedInPart(best: seq<Candidate>, part: seq<Candidate>, all: seq<Candidate>, k: nat)
    requires Separated(multiset(best), multiset(all), k)
    requires multiset(part) <= multiset(all) && (forall c :: c in best ==> c in part) && Distinct(all)
    ensures Separated(multiset(best), multiset(part), k)
  {
    DistinctCounts(all);
    forall c ensures multiset(best)[c] <= multiset(part)[c] {
      if c in multiset(best) {
        assert c in best && c in multiset(part);
        assert multiset(best)[c] <= multiset(all)[c] == 1;
      }
    }
    MultisetSize(multiset(best), multiset(part));
    MultisetSize(multiset(part), multiset(all));
    forall c, d | c in multiset(best) && d in multiset(part) - multiset(best) ensures c.dist < d.dist {
      assert d in multiset(all) - multiset(best);
    }
  }

  lemma MultisetSize<T>(a: multiset<T>, b: multiset<T>)
    requires a <= b
    ensures |a| <= |b|
  {
    assert b == a + (b - a);
  }

  lemma RenumberedPart(sources: seq<nat>, part: seq<Candidate>, all: seq<Candidate>)
    requires multiset(part) <= multiset(all)
    ensures multiset(Renumbered(sources, part)) <= multiset(Renumbered(sources, all))
  {
    var f := c => Renumber(sources, c);
    var rest := SeqOfMultiset(multiset(all) - multiset(part));
    assert multiset(part + rest) == multiset(all);
    MapOfPermutation(part + rest, all, f);
    assert MapSeq(part + rest, f) == MapSeq(part, f) + MapSeq(rest, f);
  }

  /** A reference whose nearest centroid is probed is scanned, with its own distance and label. */
  lemma ProbedIsScanned(entries: seq<Entry>, centroids: seq<Centroid>, value: F32 -> real, defaultProbes: U32, q: Code,
                        order: seq<nat>, i: nat)
    requires Buildable(entries, centroids, value) && i < |entries|
    requires Partitioned(BuiltIndex(entries, centroids, value, defaultProbes))
    requires ValidOrder(BuiltIndex(entries, centroids, value, defaultProbes), order)
    requires Nearest(entries[i].vec, CentroidVecs(centroids, value)) in order
    ensures var scan := Scan(BuiltIndex(entries, centroids, value, defaultProbes), q, order);
      ReferenceCandidates(entries, q)[i] in Renumbered(Sources(entries, CentroidVecs(centroids, value)), scan)
  {
    hide Scan, Sources, Clusters, Nearest;
    var vecs, ix := CentroidVecs(centroids, value), BuiltIndex(entries, centroids, value, defaultProbes);
    var sources, scan := Sources(entries, vecs), Scan(ix, q, order);
    var vi := StoredAt(entries, vecs, i);
    OwnerIsNearest(entries, centroids, value, defaultProbes, Nearest(entries[i].vec, vecs), vi);
    var j :| 0 <= j < |order| && order[j] == Nearest(entries[i].vec, vecs);
    assert Owns(ix, order[j], vi);
    InScan(ix, q, order, CandidateAt(ix, q, vi));
    var n :| 0 <= n < |scan| && scan[n] == CandidateAt(ix, q, vi);
    assert Renumbered(sources, scan)[n] == ReferenceCandidates(entries, q)[i];
  }

  lemma StoredAt(entries: seq<Entry>, vecs: seq<Vec>, i: nat) returns (vi: nat)
    requires vecs != [] && i < |entries|
    ensures vi < |entries| == |Sources(entries, vecs)| && Sources(entries, vecs)[vi] == i
    ensures vi < |Concat(Clusters(entries, vecs))| && Concat(Clusters(entries, vecs))[vi] == entries[i]
  {
    var s := Sources(entries, vecs);
    BuildConserves(entries, vecs);
    SameLength(s, Identity(|entries|));
    assert Identity(|entries|)[i] == i;
    assert i in multiset(s);
    vi :| 0 <= vi < |s| && s[vi] == i;
  }

  /** What a scan of a built index meets, under reference numbers, is part of the references, and holds every
    reference whose nearest centroid is probed. */
  lemma ScanOfReferences(entries: seq<Entry>, centroids: seq<Centroid>, value: F32 -> real, defaultProbes: U32, q: Code,
                         order: seq<nat>, best: seq<nat>)
    requires Buildable(entries, centroids, value)
    requires Partitioned(BuiltIndex(entries, centroids, value, defaultProbes))
    requires ValidOrder(BuiltIndex(entries, centroids, value, defaultProbes), order)
    requires AllProbed(entries, CentroidVecs(centroids, value), order, best)
    requires forall i :: 0 <= i < |best| ==> best[i] < |entries|
    ensures var sources, refs := Sources(entries, CentroidVecs(centroids, value)), ReferenceCandidates(entries, q);
      var met := Renumbered(sources, Scan(BuiltIndex(entries, centroids, value, defaultProbes), q, order));
      multiset(met) <= multiset(refs) && forall c :: c in Chosen(refs, best) ==> c in met
  {
    hide Scan, Sources, RangeScan, Renumbered, ReferenceCandidates, BuiltIndex, Nearest;
    var ix := BuiltIndex(entries, centroids, value, defaultProbes);
    var sources := Sources(entries, CentroidVecs(centroids, value));
    var scan, refs := Scan(ix, q, order), ReferenceCandidates(entries, q);
    ScanIsPart(ix, q, order);
    StoredAreReferences(entries, centroids, value, defaultProbes, q);
    RenumberedPart(sources, scan, RangeScan(ix, q, 0, ix.numVecs));
    forall c | c in Chosen(refs, best) ensures c in Renumbered(sources, scan) {
      var i :| 0 <= i < |best| && Chosen(refs, best)[i] == c;
      ProbedIsScanned(entries, centroids, value, defaultProbes, q, order, best[i]);
    }
  }

  /** When k references beat all others by more than twice the quantization error and their nearest centroids are
    probed, a search of the built index returns exactly those k, hence their fraud count. */
  lemma ClearNeighborsFound(entries: seq<Entry>, centroids: seq<Centroid>, value: F32 -> real, defaultProbes: U32,
                            query: Vec, q: Code, e: real, k: nat, order: seq<nat>, kept: seq<Candidate>, best: seq<nat>)
    requires Buildable(entries, centroids, value) && Normalized(entries)
    requires Within(query, -1.0, 1.0) && CodesWithin(query, q, e) && e >= 0.0
    requires ClearlyNearest(entries, query, best, k, 2.0 * ErrorBound(e))
    requires Partitioned(BuiltIndex(entries, centroids, value, defaultProbes))
    requires ValidOrder(BuiltIndex(entries, centroids, value, defaultProbes), order)
    requires KNearest(multiset(kept), multiset(Scan(BuiltIndex(entries, centroids, value, defaultProbes), q, order)), k)
    requires AllProbed(entries, CentroidVecs(centroids, value), order, best)
    ensures var sources, refs := Sources(entries, CentroidVecs(centroids, value)), ReferenceCandidates(entries, q);
      && (forall i :: 0 <= i < |best| ==> best[i] < |entries|)
      && multiset(Renumbered(sources, kept)) == multiset(Chosen(refs, best))
      && FraudCount(kept) == FraudCount(Chosen(refs, best))
  {
    var ix := BuiltIndex(entries, centroids, value, defaultProbes);
    var sources := Sources(entries, CentroidVecs(centroids, value));
    var scan, refs := Scan(ix, q, order), ReferenceCandidates(entries, q);
    hide Scan, Sources, Renumbered, ReferenceCandidates, BuiltIndex, Partitioned, ErrorBound, CodesWithin, Within;
    hide Normalized, KNearest, Separated, FraudCount, Distinct, AllProbed;
    GapSeparatesCodes(entries, query, q, e, best, k);
    ChosenIsDistinct(entries, q, best);
    ScanOfReferences(entries, centroids, value, defaultProbes, q, order, best);
    SeparatedInPart(Chosen(refs, best), Renumbered(sources, scan), refs, k);
    RenumberKeepsNearest(sources, kept, scan, k);
    SeparatedIsUnique(multiset(Chosen(refs, best)), multiset(Renumbered(sources, kept)),
                      multiset(Renumbered(sources, scan)), k);
    RenumberKeepsFrauds(sources, kept);
    FraudCountOfPermutation(Renumbered(sources, kept), Chosen(refs, best));
  }

  /** The production search: it rounds the query's codes as the builder rounds the stored ones. */
  lemma ProductionSearchFinds(entries: seq<Entry>, centroids: seq<Centroid>, value: F32 -> real, defaultProbes: U32,
                        probes: nat, query: Vec, k: nat, order: seq<nat>, kept: seq<Candidate>, best: seq<nat>)
    requires Buildable(entries, centroids, value)
    requires Found(BuiltFile(entries, centroids, value, defaultProbes), probes, value, query, k, order, kept)
    requires Normalized(entries) && Within(query, -1.0, 1.0) && ClearlyNearest(entries, query, best, k, 14252.0)
    requires AllProbed(entries, CentroidVecs(centroids, value), order, best)
    ensures var refs := ReferenceCandidates(entries, QuantizeVec(query));
      && multiset(Renumbered(Sources(entries, CentroidVecs(centroids, value)), kept)) == multiset(Chosen(refs, best))
      && FraudCount(kept) == FraudCount(Chosen(refs, best))
  {
    hide Found, Scan, Sources, Renumbered, ReferenceCandidates, QuantizeVec, FraudCount, AllProbed, ErrorBound;
    hide ClearlyNearest, Normalized, Within, CodesWithin, Buildable, BuiltFile, KNearest;
    FoundInBuilt(entries, centroids, value, defaultProbes, probes, query, k, order, kept);
    RoundedCodes(query);
    ErrorBounds();
    ClearNeighborsFound(entries, centroids, value, defaultProbes, query, QuantizeVec(query), 0.5, k, order, kept, best);
  }

  lemma FullOrderProbesAll(entries: seq<Entry>, vecs: seq<Vec>, order: seq<nat>, best: seq<nat>)
    requires vecs != [] && Distinct(order) && |order| == |vecs| && forall i :: 0 <= i < |order| ==> order[i] < |vecs|
    ensures AllProbed(entries, vecs, order, best)
  {
    AllInOrder(|vecs|, order);
  }

  /** When k references beat all others by more than 14252 / 16129 in real squared distance, a search
    with every cluster probed returns exactly those k, hence their fraud count. */
  lemma RankingPreserved(entries: seq<Entry>, centroids: seq<Centroid>, value: F32 -> real, defaultProbes: U32,
                         probes: nat, query: Vec, k: nat, order: seq<nat>, kept: seq<Candidate>, best: seq<nat>)
    requires Buildable(entries, centroids, value)
    requires ProbesUsed(probes, defaultProbes, |centroids|) == |centroids|
    requires Found(BuiltFile(entries, centroids, value, defaultProbes), probes, value, query, k, order, kept)
    requires Normalized(entries) && Within(query, -1.0, 1.0) && ClearlyNearest(entries, query, best, k, 14252.0)
    ensures var refs := ReferenceCandidates(entries, QuantizeVec(query));
      && multiset(Renumbered(Sources(entries, CentroidVecs(centroids, value)), kept)) == multiset(Chosen(refs, best))
      && FraudCount(kept) == FraudCount(Chosen(refs, best))
  {
    FoundInBuilt(entries, centroids, value, defaultProbes, probes, query, k, order, kept);
    FullOrderProbesAll(entries, CentroidVecs(centroids, value), order, best);
    ProductionSearchFinds(entries, centroids, value, defaultProbes, probes, query, k, order, kept, best);
  }

  // ---------- Self-retrieval ----------

  /** b is strictly nearer to v than every other centroid, and nearer than the sentinel. */
  ghost predicate UniquelyNearest(v: Vec, vecs: seq<Vec>, b: nat) {
    && b < |vecs| && SqDist(v, vecs[b]) < F32_MAX
    && forall c :: 0 <= c < |vecs| && c != b ==> SqDist(v, vecs[b]) < SqDist(v, vecs[c])
  }

  lemma FirstProbeIsNearest(order: seq<nat>, vecs: seq<Vec>, v: Vec, p: nat, b: nat)
    requires IsProbeOrder(order, CentDistsOf(vecs, v), p) && p >= 1 && UniquelyNearest(v, vecs, b)
    ensures order[0] == b
  {
    var dists := CentDistsOf(vecs, v);
    assert dists[order[0]] <= dists[b] by {
      if b in order {
        var j :| 0 <= j < p && order[j] == b;
      }
    }
  }

  lemma ZeroIsKept(kept: seq<Candidate>, all: multiset<Candidate>, k: nat, c: Candidate)
    requires KNearest(multiset(kept), all, k) && k >= 1
    requires c in all && c.dist == 0.0 && forall d :: d in all ==> d.dist >= 0.0
    ensures exists i :: 0 <= i < |kept| && kept[i].dist == 0.0
  {
    assert |multiset(kept)| == |kept|;
    assert all == multiset{c} + (all - multiset{c});
    assert |kept| >= 1;
    if c in multiset(kept) {
      var i :| 0 <= i < |kept| && kept[i] == c;
    } else {
      assert kept[0] in multiset(kept) && c in all - multiset(kept);
      assert kept[0].dist == 0.0;
    }
  }

  /** Searching for a stored reference with a unique nearest centroid scans that reference, for any
    probe count of at least one, and so returns a candidate at distance 0. */
  lemma SelfRetrieval(entries: seq<Entry>, centroids: seq<Centroid>, value: F32 -> real, defaultProbes: U32,
                      probes: nat, i: nat, b: nat, k: nat, order: seq<nat>, kept: seq<Candidate>)
    requires Buildable(entries, centroids, value) && i < |entries| && k >= 1
    requires ProbesUsed(probes, defaultProbes, |centroids|) >= 1
    requires entries[i].code == QuantizeVec(entries[i].vec)
    requires UniquelyNearest(entries[i].vec, CentroidVecs(centroids, value), b)
    requires Found(BuiltFile(entries, centroids, value, defaultProbes), probes, value,
                   entries[i].vec, k, order, kept)
    ensures exists j :: 0 <= j < |kept| && kept[j].dist == 0.0
    ensures var ix, q := BuiltIndex(entries, centroids, value, defaultProbes), QuantizeVec(entries[i].vec);
      && Scannable(ix) && ValidOrder(ix, order)
      && exists c :: c in Scan(ix, q, order) &&
           Renumber(Sources(entries, CentroidVecs(centroids, value)), c) == Candidate(i, 0.0, entries[i].isFraud)
  {
    var query := entries[i].vec;
    var ix, q := BuiltIndex(entries, centroids, value, defaultProbes), QuantizeVec(query);
    FoundInBuilt(entries, centroids, value, defaultProbes, probes, query, k, order, kept);
    var c := StoredCopyIsScanned(entries, centroids, value, defaultProbes, i, b, order);
    forall d | d in multiset(Scan(ix, q, order)) ensures d.dist >= 0.0 {
      InScan(ix, q, order, d);
    }
    ZeroIsKept(kept, multiset(Scan(ix, q, order)), k, c);
  }

  lemma StoredCopyIsScanned(entries: seq<Entry>, centroids: seq<Centroid>, value: F32 -> real, defaultProbes: U32,
                            i: nat, b: nat, order: seq<nat>) returns (c: Candidate)
    requires Buildable(entries, centroids, value) && i < |entries| && entries[i].code == QuantizeVec(entries[i].vec)
    requires UniquelyNearest(entries[i].vec, CentroidVecs(centroids, value), b)
    requires Partitioned(BuiltIndex(entries, centroids, value, defaultProbes))
    requires IsProbeOrder(order, CentDistsOf(CentroidVecs(centroids, value), entries[i].vec), |order|) && |order| >= 1
    ensures var ix, q := BuiltIndex(entries, centroids, value, defaultProbes), QuantizeVec(entries[i].vec);
      ValidOrder(ix, order) && c in Scan(ix, q, order) && c.dist == 0.0
    ensures Renumber(Sources(entries, CentroidVecs(centroids, value)), c) == Candidate(i, 0.0, entries[i].isFraud)
  {
    hide Scan, Sources, Clusters, CodeDistTo;
    var query, vecs := entries[i].vec, CentroidVecs(centroids, value);
    var ix, q := BuiltIndex(entries, centroids, value, defaultProbes), QuantizeVec(query);
    FirstProbeIsNearest(order, vecs, query, |order|, b);
    UniquelyNearestIsNearest(query, vecs, b);
    ProbedIsScanned(entries, centroids, value, defaultProbes, q, order, i);
    CodeDistZero(q, DIMS);
    var sources, scan := Sources(entries, vecs), Scan(ix, q, order);
    var n :| 0 <= n < |scan| && Renumbered(sources, scan)[n] == ReferenceCandidates(entries, q)[i];
    c := scan[n];
  }

  lemma UniquelyNearestIsNearest(v: Vec, vecs: seq<Vec>, b: nat)
    requires UniquelyNearest(v, vecs, b)
    ensures Nearest(v, vecs) == b
  {
    NearestIsFirstMinimiser(v, vecs);
  }

  // ---------- More probes ----------

  /** Every centroid left out is strictly farther than every probed one. */
  ghost predicate StrictCut(order: seq<nat>, dists: seq<real>) {
    forall i, c :: 0 <= i < |order| && 0 <= c < |dists| && c !in order && order[i] < |dists| ==>
      dists[order[i]] < dists[c]
  }

  lemma DistinctDistancesCutStrictly(order: seq<nat>, dists: seq<real>, p: nat)
    requires Distinct(dists) && IsProbeOrder(order, dists, p)
    ensures StrictCut(order, dists)
  {
  }

  lemma NoFartherIsProbed(order: seq<nat>, dists: seq<real>, p: nat, i: nat, x: nat)
    requires IsProbeOrder(order, dists, p) && StrictCut(order, dists) && i < p
    requires x < |dists| && dists[x] <= dists[order[i]]
    ensures x in order
  {
  }

  /** With a strict cut at p probes, any order of p' >= p probes contains them. */
  lemma ProbesAreNested(order: seq<nat>, order': seq<nat>, dists: seq<real>, p: nat, p': nat)
    requires IsProbeOrder(order, dists, p) && IsProbeOrder(order', dists, p') && p <= p'
    requires StrictCut(order, dists)
    ensures forall c :: c in order ==> c in order'
  {
    forall c | c in order ensures c in order' {
      if c !in order' {
        var i :| 0 <= i < p && order[i] == c;
        forall j | 0 <= j < p' ensures order'[j] in order {
          assert dists[order'[j]] <= dists[c];
          NoFartherIsProbed(order, dists, p, i, order'[j]);
        }
        SubElements(order' + [c], order);
        MultisetSize(multiset(order' + [c]), multiset(order));
      }
    }
  }

  /** Raising the probe count never loses a scanned vector and never makes a sorted distance larger. */
  lemma ProbeMonotonicity(ix: IvfIndex, value: F32 -> real, query: Vec, q: Code, p: nat, p': nat, k: nat,
                          order: seq<nat>, kept: seq<Candidate>, order': seq<nat>, kept': seq<Candidate>)
    requires Partitioned(ix) && Scannable(ix) && p <= p'
    requires IsSearchResult(ix, value, query, q, p, k, order, kept)
    requires IsSearchResult(ix, value, query, q, p', k, order', kept')
    requires StrictCut(order, CentDistsOf(CentroidVecs(ix.centroids, value), query))
    ensures multiset(Scan(ix, q, order)) <= multiset(Scan(ix, q, order'))
    ensures |kept| <= |kept'|
    ensures forall i :: 0 <= i < |kept| ==> Sort(Dists(kept'))[i] <= Sort(Dists(kept))[i]
  {
    ProbesAreNested(order, order', CentDistsOf(CentroidVecs(ix.centroids, value), query), p, p');
    ScanGrows(ix, q, order, order');
    MoreCandidatesAreNoWorse(kept, Scan(ix, q, order), kept', Scan(ix, q, order'), k);
  }
}
