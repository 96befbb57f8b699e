/** Build, write, load, search: what the whole chain returns. */
module Pipeline {
  import opened Ordering
  import opened Vectors
  import opened Quantization
  import opened Bytes
  import opened IndexFormat
  import opened IndexLoader
  import opened TopK
  import opened IvfSearch
  import opened ScanFacts
  import opened Builder

  /** The clusters the builder fills, for centroids given as bits. */
  function BuiltClusters(entries: seq<Entry>, centroids: seq<Centroid>, value: F32 -> real): (c: seq<seq<Entry>>)
    ensures |c| == |centroids|
  {
    Clusters(entries, CentroidVecs(centroids, value))
  }

  ghost predicate Buildable(entries: seq<Entry>, centroids: seq<Centroid>, value: F32 -> real) {
    centroids != [] && Writable(centroids, BuiltClusters(entries, centroids, value))
  }

  /** The file the builder writes. */
  function BuiltFile(entries: seq<Entry>, centroids: seq<Centroid>, value: F32 -> real, defaultProbes: U32): seq<byte>
    requires Buildable(entries, centroids, value)
  {
    WrittenFile(centroids, BuiltClusters(entries, centroids, value), defaultProbes)
  }

  /** The index it stands for. */
  function BuiltIndex(entries: seq<Entry>, centroids: seq<Centroid>, value: F32 -> real, defaultProbes: U32): IvfIndex
    requires Buildable(entries, centroids, value)
  {
    WrittenIndex(centroids, BuiltClusters(entries, centroids, value), defaultProbes)
  }

  /** The second pass of the builder's main: empty clusters, assignment, writing. */
  method BuildIndex(records: seq<RefRecord>, centroids: seq<Centroid>, value: F32 -> real, defaultProbes: U32)
    returns (file: seq<byte>)
    requires Buildable(Accepted(records), centroids, value)
    ensures file == BuiltFile(Accepted(records), centroids, value, defaultProbes)
  {
    hide Members, Accepted, CentroidVecs, IndexBytes;
    var vecs := CentroidVecs(centroids, value);
    var clusters := new seq<Entry>[|centroids|](_ => []);
    var total := AssignAll(records, vecs, clusters);
    ghost var built := BuiltClusters(Accepted(records), centroids, value);
    forall ci | 0 <= ci < |centroids| ensures clusters[ci] == built[ci] {
      assert clusters[ci] == [] + Members(Accepted(records), vecs, ci);
    }
    assert clusters[..] == built;
    BuildConserves(Accepted(records), vecs);
    file := WriteIndex(centroids, clusters[..], total, |centroids|, defaultProbes);
  }

  // ---------- The shape of a built index ----------

  lemma WrittenIsPartitioned(centroids: seq<Centroid>, clusters: seq<seq<Entry>>, defaultProbes: U32)
    requires Writable(centroids, clusters)
    ensures Partitioned(WrittenIndex(centroids, clusters, defaultProbes))
  {
    var ix := WrittenIndex(centroids, clusters, defaultProbes);
    forall i, j | 0 <= i <= j <= ix.numCents ensures ix.offsets[i] <= ix.offsets[j] {
      StartsAreOrdered(clusters, i, j);
    }
    StartsAreOrdered(clusters, 0, |clusters|);
  }

  /** The reference stored at index vi. */
  function SourceOf(entries: seq<Entry>, centroids: seq<Centroid>, value: F32 -> real, vi: nat): nat
    requires vi < |Sources(entries, CentroidVecs(centroids, value))|
  {
    Sources(entries, CentroidVecs(centroids, value))[vi]
  }

  lemma PrefixOfLists(entries: seq<Entry>, vecs: seq<Vec>, i: nat, n: nat)
    requires i <= n
    ensures StartOf(PositionLists(entries, vecs, n), i) == StartOf(ClusterLists(entries, vecs, n), i)
  {
    assert PositionLists(entries, vecs, n)[..i] == PositionLists(entries, vecs, i);
    assert ClusterLists(entries, vecs, n)[..i] == ClusterLists(entries, vecs, i);
    ConcatOfLists(entries, vecs, i);
  }

  lemma PlaceInConcat(lists: seq<seq<nat>>, ci: nat, vi: nat)
    requires ci < |lists| && StartOf(lists, ci) <= vi < StartOf(lists, ci + 1)
    ensures vi < |Concat(lists)| && Concat(lists)[vi] in lists[ci]
  {
    PartOfConcat(lists, ci);
    var lo := StartOf(lists, ci);
    assert Concat(lists)[lo..StartOf(lists, ci + 1)][vi - lo] == Concat(lists)[vi];
  }

  /** The range of a cluster holds exactly the references nearest to its centroid. */
  lemma OwnerIsNearest(entries: seq<Entry>, centroids: seq<Centroid>, value: F32 -> real, defaultProbes: U32,
                       ci: nat, vi: nat)
    requires Buildable(entries, centroids, value) && ci < |centroids| && vi < |entries|
    ensures |Sources(entries, CentroidVecs(centroids, value))| == |entries|
    ensures SourceOf(entries, centroids, value, vi) < |entries|
    ensures WellFormed(BuiltIndex(entries, centroids, value, defaultProbes))
    ensures Owns(BuiltIndex(entries, centroids, value, defaultProbes), ci, vi)
       <==> Nearest(entries[SourceOf(entries, centroids, value, vi)].vec, CentroidVecs(centroids, value)) == ci
  {
    var vecs, ix := CentroidVecs(centroids, value), BuiltIndex(entries, centroids, value, defaultProbes);
    BuildConserves(entries, vecs);
    ConcatOfLists(entries, vecs, |vecs|);
    WrittenIsPartitioned(centroids, BuiltClusters(entries, centroids, value), defaultProbes);
    var owner := OwnerExists(ix, vi, ix.numCents);
    OwnedSource(entries, centroids, value, defaultProbes, owner, vi);
    if Owns(ix, ci, vi) {
      OwnerUnique(ix, owner, ci, vi);
    }
  }

  lemma OwnedSource(entries: seq<Entry>, centroids: seq<Centroid>, value: F32 -> real, defaultProbes: U32, ci: nat,
                    vi: nat)
    requires Buildable(entries, centroids, value) && ci < |centroids| && vi < |entries|
    requires WellFormed(BuiltIndex(entries, centroids, value, defaultProbes))
    requires Owns(BuiltIndex(entries, centroids, value, defaultProbes), ci, vi)
    ensures vi < |Sources(entries, CentroidVecs(centroids, value))|
    ensures BelongsTo(entries, CentroidVecs(centroids, value), ci, SourceOf(entries, centroids, value, vi))
  {
    var vecs := CentroidVecs(centroids, value);
    PrefixOfLists(entries, vecs, ci, |vecs|);
    PrefixOfLists(entries, vecs, ci + 1, |vecs|);
    PlaceInConcat(PositionLists(entries, vecs, |vecs|), ci, vi);
    InPositions(entries, vecs, ci, SourceOf(entries, centroids, value, vi));
  }

  // ---------- Stored vectors and references ----------

  /** The candidate of every reference, numbered as in the reference file. */
  function ReferenceCandidates(entries: seq<Entry>, q: Code): (r: seq<Candidate>)
    ensures |r| == |entries|
  {
    seq(|entries|, i requires 0 <= i < |entries| =>
      Candidate(i, CodeDist(entries[i].code, q) as real, entries[i].isFraud))
  }

  /** Replace a stored index by the number of the reference stored there. */
  function Renumber(sources: seq<nat>, c: Candidate): Candidate {
    if c.idx < |sources| then c.(idx := sources[c.idx]) else c
  }

  function Renumbered(sources: seq<nat>, s: seq<Candidate>): (r: seq<Candidate>)
    ensures |r| == |s|
  {
    MapSeq(s, c => Renumber(sources, c))
  }

  lemma StoredReadsReferences(entries: seq<Entry>, ix: IvfIndex, sources: seq<nat>, stored: seq<Entry>,
                              all: seq<Candidate>, q: Code)
    requires WellFormed(ix) && ix.numVecs == |stored| == |all| && ReadsFrom(entries, sources, stored)
    requires forall i :: 0 <= i < |stored| ==> ix.vecs[i] == stored[i].code && ix.labels[i] == stored[i].isFraud
    requires forall i :: 0 <= i < |stored| ==> all[i] == CandidateAt(ix, q, i)
    ensures ReadsFrom(ReferenceCandidates(entries, q), sources, Renumbered(sources, all))
  {
  }

  /** Scanning every stored vector meets every reference once, with its own distance and label. */
  lemma StoredAreReferences(entries: seq<Entry>, centroids: seq<Centroid>, value: F32 -> real, defaultProbes: U32,
                            q: Code)
    requires Buildable(entries, centroids, value)
    ensures var ix := BuiltIndex(entries, centroids, value, defaultProbes);
      var sources := Sources(entries, CentroidVecs(centroids, value));
      && WellFormed(ix) && ix.numVecs == |entries|
      && multiset(Renumbered(sources, RangeScan(ix, q, 0, ix.numVecs))) == multiset(ReferenceCandidates(entries, q))
  {
    var ix := BuiltIndex(entries, centroids, value, defaultProbes);
    var sources := Sources(entries, CentroidVecs(centroids, value));
    hide ReadsFrom, RangeScan, Concat, MapSeq, CodeDist, ReferenceCandidates;
    var refs := ReferenceCandidates(entries, q);
    BuildConserves(entries, CentroidVecs(centroids, value));
    ReadsItself(refs);
    var all := RangeScan(ix, q, 0, ix.numVecs);
    RangeScanContents(ix, q, 0, ix.numVecs);
    StoredReadsReferences(entries, ix, sources, Concat(BuiltClusters(entries, centroids, value)), all, q);
    Rearranged(refs, sources, Identity(|refs|), Renumbered(sources, all), refs);
  }

  lemma RenumberKeepsDists(sources: seq<nat>, s: seq<Candidate>)
    ensures Dists(Renumbered(sources, s)) == Dists(s)
  {
  }

  lemma {:induction false} RenumberKeepsFrauds(sources: seq<nat>, s: seq<Candidate>)
    ensures FraudCount(Renumbered(sources, s)) == FraudCount(s)
  {
    if s != [] {
      var front := s[..|s| - 1];
      assert Renumbered(sources, s)[..|s| - 1] == Renumbered(sources, front);
      RenumberKeepsFrauds(sources, front);
    }
  }

  /** A k-nearest choice stays one when candidates are renumbered. */
  lemma RenumberKeepsNearest(sources: seq<nat>, kept: seq<Candidate>, all: seq<Candidate>, k: nat)
    requires KNearest(multiset(kept), multiset(all), k)
    ensures KNearest(multiset(Renumbered(sources, kept)), multiset(Renumbered(sources, all)), k)
  {
    var f := c => Renumber(sources, c);
    var rest := SeqOfMultiset(multiset(all) - multiset(kept));
    assert multiset(kept + rest) == multiset(all);
    MapOfPermutation(kept + rest, all, f);
    assert MapSeq(kept + rest, f) == MapSeq(kept, f) + MapSeq(rest, f);
    var kept', all' := Renumbered(sources, kept), Renumbered(sources, all);
    assert multiset(kept') <= multiset(all');
    RenumberKeepsDists(sources, kept);
    RenumberKeepsDists(sources, all);
    KNearestIsSortedPrefix(kept, all, k);
    KNearestIsSortedPrefix(kept', all', k);
  }

  // ---------- End to end ----------

  /** Opening the file and searching it probed the clusters in this order and kept these candidates. */
  ghost predicate Found(file: seq<byte>, probes: nat, value: F32 -> real, query: Vec, k: nat,
                        order: seq<nat>, kept: seq<Candidate>)
  {
    && Load(file, probes).Ok?
    && var s := Load(file, probes).value;
    && SectionsFit(s) && Scannable(Decode(s))
    && IsSearchResult(Decode(s), value, query, QuantizeVec(query), Min(s.probes, s.numCents), k, order, kept)
  }

  /** The probe count a search of this file runs with. */
  function ProbesUsed(probes: nat, defaultProbes: U32, numCents: nat): nat {
    Min(if probes > 0 then probes else defaultProbes, numCents)
  }

  /** A search of a built file is a search of the built index. */
  lemma FoundInBuilt(entries: seq<Entry>, centroids: seq<Centroid>, value: F32 -> real, defaultProbes: U32, probes: nat,
                     query: Vec, k: nat, order: seq<nat>, kept: seq<Candidate>)
    requires Buildable(entries, centroids, value)
    requires Found(BuiltFile(entries, centroids, value, defaultProbes), probes, value, query, k, order, kept)
    ensures var ix := BuiltIndex(entries, centroids, value, defaultProbes);
      && Partitioned(ix) && Scannable(ix)
      && IsSearchResult(ix, value, query, QuantizeVec(query), ProbesUsed(probes, defaultProbes, |centroids|), k,
                        order, kept)
  {
    var clusters := BuiltClusters(entries, centroids, value);
    WriteThenLoad(centroids, clusters, defaultProbes, probes);
    WrittenIsPartitioned(centroids, clusters, defaultProbes);
  }

  /** A built file opens, and every search of it stays in bounds. */
  lemma BuiltFileIsSearchable(entries: seq<Entry>, centroids: seq<Centroid>, value: F32 -> real, defaultProbes: U32,
                              probes: nat)
    requires Buildable(entries, centroids, value)
    ensures var file := BuiltFile(entries, centroids, value, defaultProbes);
      && Load(file, probes).Ok?
      && var s := Load(file, probes).value;
      && SectionsFit(s) && Scannable(Decode(s)) && Partitioned(Decode(s))
      && Min(s.probes, s.numCents) == ProbesUsed(probes, defaultProbes, |centroids|)
  {
    var clusters := BuiltClusters(entries, centroids, value);
    WriteThenLoad(centroids, clusters, defaultProbes, probes);
    WrittenIsPartitioned(centroids, clusters, defaultProbes);
  }

  /** Exactness: build, write, load, and search with at least as many probes as centroids. Under the
    reference numbers the answer is a k-nearest choice among all accepted references, and its sorted
    distances are the k smallest of all. */
  lemma EndToEndExact(entries: seq<Entry>, centroids: seq<Centroid>, value: F32 -> real, defaultProbes: U32,
                      probes: nat, query: Vec, k: nat, order: seq<nat>, kept: seq<Candidate>)
    requires Buildable(entries, centroids, value)
    requires ProbesUsed(probes, defaultProbes, |centroids|) == |centroids|
    requires Found(BuiltFile(entries, centroids, value, defaultProbes), probes, value, query, k, order, kept)
    ensures var sources := Sources(entries, CentroidVecs(centroids, value));
      var refs := ReferenceCandidates(entries, QuantizeVec(query));
      && KNearest(multiset(Renumbered(sources, kept)), multiset(refs), k)
      && Sort(Dists(kept)) == Sort(Dists(refs))[..Min(k, |entries|)]
      && FraudCount(Renumbered(sources, kept)) == FraudCount(kept)
  {
    var ix, q := BuiltIndex(entries, centroids, value, defaultProbes), QuantizeVec(query);
    var sources, refs := Sources(entries, CentroidVecs(centroids, value)), ReferenceCandidates(entries, q);
    FoundInBuilt(entries, centroids, value, defaultProbes, probes, query, k, order, kept);
    FullScan(ix, q, order);
    StoredAreReferences(entries, centroids, value, defaultProbes, q);
    RenumberKeepsNearest(sources, kept, RangeScan(ix, q, 0, ix.numVecs), k);
    RenumberKeepsFrauds(sources, kept);
    RenumberKeepsDists(sources, kept);
    KNearestIsSortedPrefix(Renumbered(sources, kept), refs, k);
  }
}
