/** The whole chain over parsed records: what a search of the built file answers, in the records' own terms. */
module EndToEnd {
  import opened Ordering
  import opened Vectors
  import opened Quantization
  import opened Bytes
  import opened IndexFormat
  import opened IndexLoader
  import opened TopK
  import opened IvfSearch
  import opened ScanFacts
  import opened Builder
  import opened Pipeline
  import opened SearchTheorems

  // ---------- What a scan of a built index meets ----------

  lemma StoredEntry(entries: seq<Entry>, vecs: seq<Vec>, vi: nat)
    requires vecs != [] && vi < |entries|
    ensures |Sources(entries, vecs)| == |Concat(Clusters(entries, vecs))| == |entries|
    ensures Sources(entries, vecs)[vi] < |entries|
    ensures Concat(Clusters(entries, vecs))[vi] == entries[Sources(entries, vecs)[vi]]
  {
    hide Sources, Concat, Clusters;
    BuildConserves(entries, vecs);
  }

  /** Under reference numbers a scan meets only references whose nearest centroid is probed. */
  lemma ScannedIsProbed(entries: seq<Entry>, centroids: seq<Centroid>, value: F32 -> real, defaultProbes: U32, q: Code,
                        order: seq<nat>, c: Candidate)
    requires Buildable(entries, centroids, value)
    requires Partitioned(BuiltIndex(entries, centroids, value, defaultProbes))
    requires ValidOrder(BuiltIndex(entries, centroids, value, defaultProbes), order)
    requires c in Scan(BuiltIndex(entries, centroids, value, defaultProbes), q, order)
    ensures var c' := Renumber(Sources(entries, CentroidVecs(centroids, value)), c);
      && c'.idx < |entries| && c' == ReferenceCandidates(entries, q)[c'.idx]
      && Nearest(entries[c'.idx].vec, CentroidVecs(centroids, value)) in order
  {
    hide Scan, Sources, Clusters, Nearest, Concat;
    var vecs, ix := CentroidVecs(centroids, value), BuiltIndex(entries, centroids, value, defaultProbes);
    InScan(ix, q, order, c);
    BuildConserves(entries, vecs);
    StoredEntry(entries, vecs, c.idx);
    var i :| 0 <= i < |order| && Owns(ix, order[i], c.idx);
    OwnerIsNearest(entries, centroids, value, defaultProbes, order[i], c.idx);
  }

  /** The candidate of a reference whose nearest centroid is probed, under its reference number. */
  ghost predicate IsMet(entries: seq<Entry>, vecs: seq<Vec>, order: seq<nat>, q: Code, c: Candidate) {
    && c.idx < |entries| && c == ReferenceCandidates(entries, q)[c.idx]
    && Nearest(entries[c.idx].vec, vecs) in order
  }

  /** Under reference numbers a scan meets exactly those. */
  lemma MetReferences(entries: seq<Entry>, centroids: seq<Centroid>, value: F32 -> real, defaultProbes: U32, q: Code,
                      order: seq<nat>, c: Candidate)
    requires Buildable(entries, centroids, value)
    requires Partitioned(BuiltIndex(entries, centroids, value, defaultProbes))
    requires ValidOrder(BuiltIndex(entries, centroids, value, defaultProbes), order)
    ensures var vecs, scan := CentroidVecs(centroids, value),
                              Scan(BuiltIndex(entries, centroids, value, defaultProbes), q, order);
      c in Renumbered(Sources(entries, vecs), scan) <==> IsMet(entries, vecs, order, q, c)
  {
    var vecs := CentroidVecs(centroids, value);
    var sources, scan := Sources(entries, vecs), Scan(BuiltIndex(entries, centroids, value, defaultProbes), q, order);
    hide Scan, Sources, BuiltIndex, Nearest, ReferenceCandidates;
    if c in Renumbered(sources, scan) {
      var n :| 0 <= n < |scan| && Renumbered(sources, scan)[n] == c;
      ScannedIsProbed(entries, centroids, value, defaultProbes, q, order, scan[n]);
    }
    if IsMet(entries, vecs, order, q, c) {
      ProbedIsScanned(entries, centroids, value, defaultProbes, q, order, c.idx);
    }
  }

  // ---------- Answers as records ----------

  /** A record that was long enough to be stored, in the cluster of a probed centroid. */
  ghost predicate InProbed(rec: RefRecord, vecs: seq<Vec>, order: seq<nat>) {
    |rec.vector| >= 14 && Nearest(rec.vector[..14], vecs) in order
  }

  /** The int8 distance of a record and a query. */
  function RecordDist(rec: RefRecord, query: Vec): nat
    requires |rec.vector| >= 14
  {
    CodeDist(QuantizeVec(rec.vector[..14]), QuantizeVec(query))
  }

  /** `chosen` numbers different records in probed clusters, at most k of them; none left out is nearer, and there are
    fewer than k only when none is left out. */
  ghost predicate NearestRecords(records: seq<RefRecord>, vecs: seq<Vec>, order: seq<nat>, query: Vec, k: nat,
                                 chosen: seq<nat>)
  {
    && Distinct(chosen) && |chosen| <= k
    && (forall i :: 0 <= i < |chosen| ==> chosen[i] < |records| && InProbed(records[chosen[i]], vecs, order))
    && (forall i, r :: 0 <= i < |chosen| && 0 <= r < |records| && r !in chosen && InProbed(records[r], vecs, order) ==>
        RecordDist(records[chosen[i]], query) <= RecordDist(records[r], query))
    && (|chosen| < k ==> forall r :: 0 <= r < |records| && InProbed(records[r], vecs, order) ==> r in chosen)
  }

  /** The kept candidates are k-nearest among the references whose nearest centroid is probed. */
  ghost predicate NearestReferences(entries: seq<Entry>, vecs: seq<Vec>, order: seq<nat>, q: Code, k: nat,
                                    kept: seq<Candidate>)
  {
    && Distinct(kept) && |kept| <= k
    && (forall c :: c in kept ==> IsMet(entries, vecs, order, q, c))
    && (forall c, d :: c in kept && IsMet(entries, vecs, order, q, d) && d !in kept ==> c.dist <= d.dist)
    && (|kept| < k ==> forall d :: IsMet(entries, vecs, order, q, d) ==> d in kept)
  }

  lemma KeptAreNearestReferences(entries: seq<Entry>, centroids: seq<Centroid>, value: F32 -> real, defaultProbes: U32,
                                 q: Code, k: nat, order: seq<nat>, kept: seq<Candidate>)
    requires Buildable(entries, centroids, value)
    requires Partitioned(BuiltIndex(entries, centroids, value, defaultProbes))
    requires ValidOrder(BuiltIndex(entries, centroids, value, defaultProbes), order)
    requires KNearest(multiset(kept), multiset(Scan(BuiltIndex(entries, centroids, value, defaultProbes), q, order)), k)
    ensures var vecs := CentroidVecs(centroids, value);
      NearestReferences(entries, vecs, order, q, k, Renumbered(Sources(entries, vecs), kept))
  {
    var vecs := CentroidVecs(centroids, value);
    var sources, scan := Sources(entries, vecs), Scan(BuiltIndex(entries, centroids, value, defaultProbes), q, order);
    hide Scan, Sources, BuiltIndex, Nearest, Renumbered, ReferenceCandidates, IsMet;
    var met, kept' := Renumbered(sources, scan), Renumbered(sources, kept);
    RenumberKeepsNearest(sources, kept, scan, k);
    forall c ensures c in met <==> IsMet(entries, vecs, order, q, c) {
      MetReferences(entries, centroids, value, defaultProbes, q, order, c);
    }
    MetIsDistinct(entries, centroids, value, defaultProbes, q, order);
    NearestOfDistinct(kept', met, k);
  }

  lemma MetIsDistinct(entries: seq<Entry>, centroids: seq<Centroid>, value: F32 -> real, defaultProbes: U32, q: Code,
                      order: seq<nat>)
    requires Buildable(entries, centroids, value)
    requires Partitioned(BuiltIndex(entries, centroids, value, defaultProbes))
    requires ValidOrder(BuiltIndex(entries, centroids, value, defaultProbes), order)
    ensures var scan := Scan(BuiltIndex(entries, centroids, value, defaultProbes), q, order);
      forall c :: multiset(Renumbered(Sources(entries, CentroidVecs(centroids, value)), scan))[c] <= 1
  {
    hide Scan, Sources, BuiltIndex, Renumbered, ReferenceCandidates;
    ScanOfReferences(entries, centroids, value, defaultProbes, q, order, []);
    ChosenIsDistinct(entries, q, []);
    DistinctCounts(ReferenceCandidates(entries, q));
  }

  /** The record numbers behind kept references. */
  function RecordNumbers(records: seq<RefRecord>, kept: seq<Candidate>): (chosen: seq<nat>)
    ensures |chosen| == |kept|
  {
    seq(|kept|, i requires 0 <= i < |kept| =>
      if kept[i].idx < |LongEnough(records)| then LongEnough(records)[kept[i].idx] else 0)
  }

  /** Candidate c stands for record r, which is in a probed cluster. */
  ghost predicate StandsFor(records: seq<RefRecord>, vecs: seq<Vec>, order: seq<nat>, query: Vec, c: Candidate, r: nat)
  {
    && r < |records| && InProbed(records[r], vecs, order)
    && c.dist == RecordDist(records[r], query) as real
    && (c.isFraud <==> records[r].labelText == "fraud")
  }

  lemma ReferenceIsRecord(records: seq<RefRecord>, vecs: seq<Vec>, order: seq<nat>, query: Vec, a: nat)
    requires a < |Accepted(records)| == |LongEnough(records)|
    requires Nearest(Accepted(records)[a].vec, vecs) in order
    ensures var c := ReferenceCandidates(Accepted(records), QuantizeVec(query))[a];
      && StandsFor(records, vecs, order, query, c, LongEnough(records)[a])
      && IsMet(Accepted(records), vecs, order, QuantizeVec(query), c) && c.idx == a
  {
    hide Accepted, LongEnough, Nearest, CodeDist;
    AcceptedMeaning(records);
    var r := LongEnough(records)[a];
    assert Accepted(records)[a].code == QuantizeVec(records[r].vector[..14]);
  }

  lemma RecordIsReference(records: seq<RefRecord>, vecs: seq<Vec>, order: seq<nat>, query: Vec, r: nat)
    returns (c: Candidate)
    requires r < |records| && InProbed(records[r], vecs, order)
    ensures StandsFor(records, vecs, order, query, c, r)
    ensures IsMet(Accepted(records), vecs, order, QuantizeVec(query), c)
    ensures c.idx < |LongEnough(records)| && LongEnough(records)[c.idx] == r
  {
    hide Accepted, LongEnough, Nearest, CodeDist;
    var p := LongEnough(records);
    AcceptedMeaning(records);
    assert r in p;
    var a :| 0 <= a < |p| && p[a] == r;
    ReferenceIsRecord(records, vecs, order, query, a);
    c := ReferenceCandidates(Accepted(records), QuantizeVec(query))[a];
  }

  lemma MetStandsFor(records: seq<RefRecord>, vecs: seq<Vec>, order: seq<nat>, query: Vec, c: Candidate)
    requires IsMet(Accepted(records), vecs, order, QuantizeVec(query), c)
    ensures c.idx < |LongEnough(records)|
    ensures StandsFor(records, vecs, order, query, c, LongEnough(records)[c.idx])
  {
    hide Accepted, LongEnough, Nearest, ReferenceCandidates;
    AcceptedMeaning(records);
    ReferenceIsRecord(records, vecs, order, query, c.idx);
  }

  /** Different references are different records. */
  lemma RecordsDiffer(records: seq<RefRecord>, vecs: seq<Vec>, order: seq<nat>, q: Code, c: Candidate, d: Candidate)
    requires IsMet(Accepted(records), vecs, order, q, c) && IsMet(Accepted(records), vecs, order, q, d) && c != d
    ensures c.idx < |LongEnough(records)| && d.idx < |LongEnough(records)|
    ensures LongEnough(records)[c.idx] != LongEnough(records)[d.idx]
  {
    hide Accepted, LongEnough, Nearest;
    AcceptedMeaning(records);
    var p := LongEnough(records);
    assert c.idx != d.idx;
    if c.idx < d.idx {
      assert p[c.idx] < p[d.idx];
    } else {
      assert p[d.idx] < p[c.idx];
    }
  }

  /** k-nearest references are k-nearest records, and a kept label says what the record's text says. */
  lemma ReferencesAreRecords(records: seq<RefRecord>, vecs: seq<Vec>, order: seq<nat>, query: Vec, k: nat,
                             kept: seq<Candidate>)
    requires NearestReferences(Accepted(records), vecs, order, QuantizeVec(query), k, kept)
    ensures var chosen := RecordNumbers(records, kept);
      && NearestRecords(records, vecs, order, query, k, chosen)
      && forall i :: 0 <= i < |kept| ==> (kept[i].isFraud <==> records[chosen[i]].labelText == "fraud")
  {
    hide Accepted, LongEnough, RecordDist, IsMet, Nearest, QuantizeVec;
    var p, chosen, q := LongEnough(records), RecordNumbers(records, kept), QuantizeVec(query);
    forall i | 0 <= i < |kept|
      ensures kept[i].idx < |p| && chosen[i] == p[kept[i].idx]
      ensures StandsFor(records, vecs, order, query, kept[i], chosen[i])
    {
      MetStandsFor(records, vecs, order, query, kept[i]);
    }
    forall i, j | 0 <= i < j < |kept| ensures chosen[i] != chosen[j] {
      RecordsDiffer(records, vecs, order, q, kept[i], kept[j]);
    }
    forall r | 0 <= r < |records| && InProbed(records[r], vecs, order) && r !in chosen
      ensures |kept| == k && forall i :: 0 <= i < |kept| ==>
        RecordDist(records[chosen[i]], query) <= RecordDist(records[r], query)
    {
      var d := RecordIsReference(records, vecs, order, query, r);
      assert forall i :: 0 <= i < |kept| ==> chosen[i] in chosen && kept[i] != d;
      forall i | 0 <= i < |kept| ensures RecordDist(records[chosen[i]], query) <= RecordDist(records[r], query) {
        assert kept[i].dist <= d.dist;
      }
    }
  }

  // ---------- The program ----------

  /** A search that probed the clusters in this order answers with k-nearest records. */
  lemma AnswerIsRecords(records: seq<RefRecord>, centroids: seq<Centroid>, value: F32 -> real, defaultProbes: U32,
                        query: Vec, k: nat, order: seq<nat>, kept: seq<Candidate>) returns (chosen: seq<nat>)
    requires Buildable(Accepted(records), centroids, value)
    requires var ix := BuiltIndex(Accepted(records), centroids, value, defaultProbes);
      && Partitioned(ix) && ValidOrder(ix, order)
      && KNearest(multiset(kept), multiset(Scan(ix, QuantizeVec(query), order)), k)
    ensures NearestRecords(records, CentroidVecs(centroids, value), order, query, k, chosen)
    ensures |chosen| == |kept|
    ensures forall i :: 0 <= i < |kept| ==> (kept[i].isFraud <==> records[chosen[i]].labelText == "fraud")
  {
    hide Accepted, Scan, Sources, BuiltIndex, KNearest, NearestReferences, NearestRecords, LongEnough;
    var entries, vecs := Accepted(records), CentroidVecs(centroids, value);
    var kept' := Renumbered(Sources(entries, vecs), kept);
    KeptAreNearestReferences(entries, centroids, value, defaultProbes, QuantizeVec(query), k, order, kept);
    ReferencesAreRecords(records, vecs, order, query, k, kept');
    chosen := RecordNumbers(records, kept');
  }

  lemma OrderIsValid(vecs: seq<Vec>, query: Vec, p: nat, ix: IvfIndex, order: seq<nat>)
    requires IsProbeOrder(order, CentDistsOf(vecs, query), p) && ix.numCents == |vecs|
    ensures ValidOrder(ix, order)
    ensures |order| == |vecs| ==> forall c :: 0 <= c < |vecs| ==> c in order
  {
    if |order| == |vecs| {
      AllInOrder(|vecs|, order);
    }
  }

  lemma AllAreInProbed(records: seq<RefRecord>, vecs: seq<Vec>, order: seq<nat>)
    requires vecs != [] && forall c :: 0 <= c < |vecs| ==> c in order
    ensures forall r :: 0 <= r < |records| && |records[r].vector| >= 14 ==> InProbed(records[r], vecs, order)
  {
  }

  /** Build the file, open it, answer one query. The clusters probed are those of the nearest centroids; the answer is
    the k nearest records of those clusters by int8 distance, each with the label its own text gives it. With as many
    probes as centroids those are the k nearest of all records long enough to be stored. */
  method BuildThenSearch(records: seq<RefRecord>, centroids: seq<Centroid>, value: F32 -> real, defaultProbes: U32,
                         probes: nat, query: Vec, k: nat, buf: SearchBuffer)
    returns (neighbors: seq<Neighbor>, ghost order: seq<nat>, ghost chosen: seq<nat>)
    requires Buildable(Accepted(records), centroids, value) && k >= 1
    requires ProbesUsed(probes, defaultProbes, |centroids|) >= 1
    requires buf.cands.Valid()
    modifies buf, buf.cands, buf.cands.data
    ensures buf.cands.Valid()
    ensures IsProbeOrder(order, CentDistsOf(CentroidVecs(centroids, value), query),
                         Min(if probes > 0 then probes else defaultProbes, |centroids|))
    ensures NearestRecords(records, CentroidVecs(centroids, value), order, query, k, chosen)
    ensures |neighbors| == |chosen|
    ensures forall i :: 0 <= i < |neighbors| ==>
      (neighbors[i].isFraud <==> records[chosen[i]].labelText == "fraud")
    ensures |neighbors| == |buf.cands.Contents()|
    ensures forall i :: 0 <= i < |neighbors| ==> neighbors[i].isFraud == buf.cands.Contents()[i].isFraud
    ensures |order| == |centroids| ==>
      var entries := Accepted(records);
      KNearest(multiset(Renumbered(Sources(entries, CentroidVecs(centroids, value)), buf.cands.Contents())),
               multiset(ReferenceCandidates(entries, QuantizeVec(query))), k)
    ensures |order| == |centroids| ==> forall r :: 0 <= r < |records| && |records[r].vector| >= 14 ==>
      InProbed(records[r], CentroidVecs(centroids, value), order)
  {
    hide Load, Decode, SectionsFit, Buildable, BuiltFile, Scan, IsProbeOrder;
    hide Accepted, KNearest, NearestRecords, CentDistsOf, Nearest, Renumbered, Sources, ReferenceCandidates;
    ghost var entries := Accepted(records);
    var file := BuildIndex(records, centroids, value, defaultProbes);
    BuiltFileIsSearchable(entries, centroids, value, defaultProbes, probes);
    var s := Load(file, probes).value;
    neighbors := Search(s, value, query, k, buf);
    order := Indices(buf.centDists[..Min(s.probes, s.numCents)]);
    assert Found(file, probes, value, query, k, order, buf.cands.Contents());
    FoundInBuilt(entries, centroids, value, defaultProbes, probes, query, k, order, buf.cands.Contents());
    OrderIsValid(CentroidVecs(centroids, value), query, |order|,
                 BuiltIndex(entries, centroids, value, defaultProbes), order);
    if |order| == |centroids| {
      AllAreInProbed(records, CentroidVecs(centroids, value), order);
      EndToEndExact(entries, centroids, value, defaultProbes, probes, query, k, order, buf.cands.Contents());
    }
    chosen := AnswerIsRecords(records, centroids, value, defaultProbes, query, k, order, buf.cands.Contents());
  }
}
