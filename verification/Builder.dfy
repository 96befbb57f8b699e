/** The second pass of the index builder: every accepted reference goes to the cluster of its nearest centroid. */
module Builder {
  import opened Ordering
  import opened Vectors
  import opened Quantization
  import opened Bytes
  import opened IndexFormat

  /** The largest finite 32-bit float, (2^24 - 1) * 2^104: the starting value of the search for a minimum. */
  const F32_MAX: real := 340282346638528859811704183484516925440.0

  lemma SentinelValue()
    ensures F32_MAX == 16777215.0 * Pow256(13) as real
  {
    Pow256Values();
    assert Pow256(10) == 256 * (256 * Pow256(8));
    assert Pow256(12) == 256 * (256 * Pow256(10));
  }

  // ---------- The nearest centroid ----------

  datatype Best = Best(idx: nat, dist: real)

  function BestAmong(v: Vec, centroids: seq<Vec>, n: nat): (b: Best)
    requires n <= |centroids|
    ensures b.dist <= F32_MAX
    ensures forall i :: 0 <= i < n ==> b.dist <= SqDist(v, centroids[i])
    ensures b.dist == F32_MAX ==> b.idx == 0
    ensures b.dist < F32_MAX ==> b.idx < n && b.dist == SqDist(v, centroids[b.idx])
    ensures b.dist < F32_MAX ==> forall i :: 0 <= i < b.idx ==> b.dist < SqDist(v, centroids[i])
  {
    if n == 0 then Best(0, F32_MAX) else
      var b := BestAmong(v, centroids, n - 1);
      var d := SqDist(v, centroids[n - 1]);
      if d < b.dist then Best(n - 1, d) else b
  }

  function Nearest(v: Vec, centroids: seq<Vec>): (best: nat)
    ensures centroids != [] ==> best < |centroids|
  {
    BestAmong(v, centroids, |centroids|).idx
  }

  /** `nearest_centroid`. */
  method NearestCentroid(v: Vec, centroids: seq<Vec>) returns (best: nat)
    ensures best == Nearest(v, centroids)
  {
    best := 0;
    var bestDist := F32_MAX;
    for i := 0 to |centroids|
      invariant Best(best, bestDist) == BestAmong(v, centroids, i)
    {
      var d := SquaredEuclidean(v, centroids[i]);
      if d < bestDist {
        bestDist := d;
        best := i;
      }
    }
  }

  ghost predicate IsFirstMinimiser(v: Vec, centroids: seq<Vec>, b: nat) {
    && b < |centroids|
    && (forall i :: 0 <= i < |centroids| ==> SqDist(v, centroids[b]) <= SqDist(v, centroids[i]))
    && (forall i :: 0 <= i < b ==> SqDist(v, centroids[b]) < SqDist(v, centroids[i]))
  }

  /** The loop returns the first true minimiser exactly when some distance is below the sentinel,
    or the first centroid happens to be the minimiser. */
  lemma NearestIsFirstMinimiser(v: Vec, centroids: seq<Vec>)
    requires centroids != []
    ensures IsFirstMinimiser(v, centroids, Nearest(v, centroids)) <==>
        (|| (exists i :: 0 <= i < |centroids| && SqDist(v, centroids[i]) < F32_MAX)
         || (forall i :: 0 <= i < |centroids| ==> SqDist(v, centroids[0]) <= SqDist(v, centroids[i])))
  {
    var b := BestAmong(v, centroids, |centroids|);
    if b.dist < F32_MAX {
      assert SqDist(v, centroids[b.idx]) < F32_MAX;
    }
  }

  /** Components in [-1, 1] put every squared distance at 56 or less, far below the sentinel. */
  lemma SentinelNeverWins(v: Vec, centroids: seq<Vec>)
    requires centroids != [] && Within(v, -1.0, 1.0)
    requires forall i :: 0 <= i < |centroids| ==> Within(centroids[i], -1.0, 1.0)
    ensures forall i :: 0 <= i < |centroids| ==> SqDist(v, centroids[i]) <= 56.0
    ensures IsFirstMinimiser(v, centroids, Nearest(v, centroids))
  {
    forall i | 0 <= i < |centroids| ensures SqDist(v, centroids[i]) <= 56.0 {
      SqDistBound(v, centroids[i], DIMS);
    }
    assert SqDist(v, centroids[0]) < F32_MAX;
    NearestIsFirstMinimiser(v, centroids);
  }

  const TWO_TO_64: real := 18446744073709551616.0

  /** The point at x on the first axis. */
  function OnAxis(x: real): (v: Vec) {
    seq(DIMS, j requires 0 <= j < DIMS => if j == 0 then x else 0.0)
  }

  lemma {:induction false} OnAxisDistTo(x: real, y: real, n: nat)
    requires 0 < n <= DIMS
    ensures SqDistTo(OnAxis(x), OnAxis(y), n) == Sq(x - y)
  {
    if n > 1 {
      OnAxisDistTo(x, y, n - 1);
      assert Sq(0.0) == 0.0;
    } else {
      assert SqDistTo(OnAxis(x), OnAxis(y), 0) == 0.0;
    }
  }

  lemma OnAxisDist(x: real, y: real)
    ensures SqDist(OnAxis(x), OnAxis(y)) == Sq(x - y)
  {
    OnAxisDistTo(x, y, DIMS);
  }

  /** Beyond the sentinel the nearer centroid can lose: at 2^65 and 2^64 from the origin the first one is returned. */
  lemma SentinelCanWin()
    ensures var v, centroids := OnAxis(0.0), [OnAxis(2.0 * TWO_TO_64), OnAxis(TWO_TO_64)];
      && Nearest(v, centroids) == 0 && SqDist(v, centroids[1]) < SqDist(v, centroids[0])
      && !IsFirstMinimiser(v, centroids, Nearest(v, centroids))
  {
    hide OnAxis, SqDist;
    OnAxisDist(0.0, 2.0 * TWO_TO_64);
    OnAxisDist(0.0, TWO_TO_64);
    var v, centroids := OnAxis(0.0), [OnAxis(2.0 * TWO_TO_64), OnAxis(TWO_TO_64)];
    assert BestAmong(v, centroids, 0) == Best(0, F32_MAX);
    assert BestAmong(v, centroids, 1) == Best(0, F32_MAX);
    assert BestAmong(v, centroids, 2) == Best(0, F32_MAX);
  }

  // ---------- Assignment ----------

  /** A parsed line of the reference file. */
  datatype RefRecord = RefRecord(vector: seq<real>, labelText: string)

  function ToEntry(rec: RefRecord): Entry
    requires |rec.vector| >= DIMS
  {
    Entry(QuantizeVec(rec.vector[..DIMS]), rec.vector[..DIMS], rec.labelText == "fraud")
  }

  /** The references long enough to be used, in file order. */
  function Accepted(records: seq<RefRecord>): seq<Entry> {
    if records == [] then [] else
      var n := |records| - 1;
      Accepted(records[..n]) + (if |records[n].vector| >= DIMS then [ToEntry(records[n])] else [])
  }

  /** The numbers of those records. */
  function LongEnough(records: seq<RefRecord>): seq<nat> {
    if records == [] then [] else
      var n := |records| - 1;
      LongEnough(records[..n]) + if |records[n].vector| >= DIMS then [n] else []
  }

  lemma {:induction false} LongEnoughNumbers(records: seq<RefRecord>)
    ensures var p := LongEnough(records);
      && (forall i, j :: 0 <= i < j < |p| ==> p[i] < p[j])
      && (forall r: nat :: r in p <==> r < |records| && |records[r].vector| >= 14)
  {
    if records != [] {
      var n := |records| - 1;
      LongEnoughNumbers(records[..n]);
      var front := LongEnough(records[..n]);
      forall i | 0 <= i < |front| ensures front[i] < n {
        assert front[i] in front;
      }
    }
  }

  /** What is kept of a record: its first 14 components, their codes, and whether its label says fraud. */
  lemma RecordKept(rec: RefRecord)
    requires |rec.vector| >= 14
    ensures var e := ToEntry(rec);
      && e.vec == rec.vector[..14] && (e.isFraud <==> rec.labelText == "fraud")
      && forall j :: 0 <= j < 14 ==> e.code[j] == Quantize(rec.vector[j])
  {
  }

  lemma {:induction false} AcceptedInOrder(records: seq<RefRecord>)
    ensures |Accepted(records)| == |LongEnough(records)|
    ensures forall i :: 0 <= i < |Accepted(records)| ==>
      var r := LongEnough(records)[i];
      r < |records| && |records[r].vector| >= DIMS && Accepted(records)[i] == ToEntry(records[r])
  {
    hide ToEntry;
    if records != [] {
      AcceptedInOrder(records[..|records| - 1]);
    }
  }

  /** The accepted entries are, in file order, the records with at least 14 components: of each the first 14, the
    production codes of those, and a fraud label exactly when the record's text is "fraud". */
  lemma {:induction false} AcceptedMeaning(records: seq<RefRecord>)
    ensures var p, entries := LongEnough(records), Accepted(records);
      && (forall i, j :: 0 <= i < j < |p| ==> p[i] < p[j])
      && (forall r: nat :: r in p <==> r < |records| && |records[r].vector| >= 14)
      && |entries| == |p|
      && (forall i :: 0 <= i < |p| ==> p[i] < |records| && |records[p[i]].vector| >= 14)
      && (forall i :: 0 <= i < |p| ==> entries[i].vec == records[p[i]].vector[..14])
      && (forall i :: 0 <= i < |p| ==> (entries[i].isFraud <==> records[p[i]].labelText == "fraud"))
      && (forall i, j :: 0 <= i < |p| && 0 <= j < 14 ==> entries[i].code[j] == Quantize(records[p[i]].vector[j]))
  {
    hide ToEntry, Accepted, LongEnough;
    LongEnoughNumbers(records);
    AcceptedInOrder(records);
    forall i | 0 <= i < |Accepted(records)| {
      RecordKept(records[LongEnough(records)[i]]);
    }
  }

  lemma AcceptedStep(records: seq<RefRecord>, i: nat)
    requires i < |records|
    ensures Accepted(records[..i + 1]) ==
      if |records[i].vector| >= DIMS then Accepted(records[..i]) + [ToEntry(records[i])] else Accepted(records[..i])
  {
    assert records[..i + 1][..i] == records[..i];
  }

  /** The entries nearest to centroid ci, in file order. */
  function Members(entries: seq<Entry>, centroids: seq<Vec>, ci: nat): seq<Entry> {
    if entries == [] then [] else
      var n := |entries| - 1;
      Members(entries[..n], centroids, ci) + if Nearest(entries[n].vec, centroids) == ci then [entries[n]] else []
  }

  lemma MembersPush(entries: seq<Entry>, e: Entry, centroids: seq<Vec>, ci: nat)
    ensures Members(entries + [e], centroids, ci)
         == Members(entries, centroids, ci) + if Nearest(e.vec, centroids) == ci then [e] else []
  {
    assert (entries + [e])[..|entries|] == entries;
  }

  /** Push an entry onto the cluster of its nearest centroid. */
  method Place(entry: Entry, centroids: seq<Vec>, clusters: array<seq<Entry>>, ghost placed: seq<Entry>,
               ghost start: seq<seq<Entry>>)
    requires clusters.Length == |centroids| == |start| >= 1
    requires forall ci :: 0 <= ci < clusters.Length ==> clusters[ci] == start[ci] + Members(placed, centroids, ci)
    modifies clusters
    ensures forall ci :: 0 <= ci < clusters.Length ==>
      clusters[ci] == start[ci] + Members(placed + [entry], centroids, ci)
  {
    hide Members;
    forall ci | 0 <= ci < clusters.Length
      ensures Members(placed + [entry], centroids, ci)
           == Members(placed, centroids, ci) + if Nearest(entry.vec, centroids) == ci then [entry] else []
    {
      MembersPush(placed, entry, centroids, ci);
    }
    var ci := NearestCentroid(entry.vec, centroids);
    clusters[ci] := clusters[ci] + [entry];
  }

  lemma NothingAccepted(records: seq<RefRecord>, centroids: seq<Vec>)
    ensures Accepted(records[..0]) == [] && forall ci :: Members([], centroids, ci) == []
  {
  }

  /** `assign_all`, over parsed records: push every accepted reference onto its cluster, count them. */
  method AssignAll(records: seq<RefRecord>, centroids: seq<Vec>, clusters: array<seq<Entry>>) returns (total: nat)
    requires clusters.Length == |centroids| >= 1
    modifies clusters
    ensures total == |Accepted(records)|
    ensures forall ci :: 0 <= ci < clusters.Length ==>
      clusters[ci] == old(clusters[ci]) + Members(Accepted(records), centroids, ci)
  {
    hide Accepted, Members, Nearest;
    total := 0;
    ghost var start := clusters[..];
    NothingAccepted(records, centroids);
    for i := 0 to |records|
      invariant total == |Accepted(records[..i])|
      invariant forall ci :: 0 <= ci < clusters.Length ==>
        clusters[ci] == start[ci] + Members(Accepted(records[..i]), centroids, ci)
    {
      AcceptedStep(records, i);
      if |records[i].vector| >= DIMS {
        Place(ToEntry(records[i]), centroids, clusters, Accepted(records[..i]), start);
        total := total + 1;
      }
    }
    assert records[..|records|] == records;
  }

  // ---------- Conservation ----------

  /** The numbers of the entries nearest to centroid ci, in file order. */
  function Positions(entries: seq<Entry>, centroids: seq<Vec>, ci: nat): seq<nat> {
    if entries == [] then [] else
      var n := |entries| - 1;
      Positions(entries[..n], centroids, ci) + if Nearest(entries[n].vec, centroids) == ci then [n] else []
  }

  /** Position i is an entry nearest to centroid ci. */
  predicate BelongsTo(entries: seq<Entry>, centroids: seq<Vec>, ci: nat, i: nat) {
    i < |entries| && Nearest(entries[i].vec, centroids) == ci
  }

  lemma {:induction false} InPositions(entries: seq<Entry>, centroids: seq<Vec>, ci: nat, i: nat)
    ensures i in Positions(entries, centroids, ci) <==> BelongsTo(entries, centroids, ci, i)
  {
    if entries != [] {
      InPositions(entries[..|entries| - 1], centroids, ci, i);
    }
  }

  /** Inside a cluster the file order is kept. */
  lemma {:induction false} PositionsIncrease(entries: seq<Entry>, centroids: seq<Vec>, ci: nat)
    ensures var p := Positions(entries, centroids, ci);
      forall i, j :: 0 <= i < j < |p| ==> p[i] < p[j]
  {
    if entries != [] {
      var front := entries[..|entries| - 1];
      PositionsIncrease(front, centroids, ci);
      var p := Positions(front, centroids, ci);
      forall i | 0 <= i < |p| ensures p[i] < |front| {
        InPositions(front, centroids, ci, p[i]);
      }
    }
  }

  lemma {:induction false} MembersAtPositions(entries: seq<Entry>, centroids: seq<Vec>, ci: nat)
    ensures ReadsFrom(entries, Positions(entries, centroids, ci), Members(entries, centroids, ci))
  {
    if entries != [] {
      MembersAtPositions(entries[..|entries| - 1], centroids, ci);
    }
  }

  /** A cluster holds, in file order, exactly the entries whose nearest centroid is its own. */
  lemma {:induction false} PositionsMeaning(entries: seq<Entry>, centroids: seq<Vec>, ci: nat)
    ensures var p := Positions(entries, centroids, ci);
      && (forall i, j :: 0 <= i < j < |p| ==> p[i] < p[j])
      && (forall i: nat :: i in p <==> BelongsTo(entries, centroids, ci, i))
      && ReadsFrom(entries, p, Members(entries, centroids, ci))
  {
    PositionsIncrease(entries, centroids, ci);
    MembersAtPositions(entries, centroids, ci);
    forall i: nat ensures i in Positions(entries, centroids, ci) <==> BelongsTo(entries, centroids, ci, i) {
      InPositions(entries, centroids, ci, i);
    }
  }

  /** The first n clusters, as reference numbers and as entries. */
  function PositionLists(entries: seq<Entry>, centroids: seq<Vec>, n: nat): (p: seq<seq<nat>>)
    ensures |p| == n
  {
    seq(n, ci requires 0 <= ci < n => Positions(entries, centroids, ci))
  }

  function ClusterLists(entries: seq<Entry>, centroids: seq<Vec>, n: nat): (c: seq<seq<Entry>>)
    ensures |c| == n
  {
    seq(n, ci requires 0 <= ci < n => Members(entries, centroids, ci))
  }

  /** All clusters. */
  function Clusters(entries: seq<Entry>, centroids: seq<Vec>): (c: seq<seq<Entry>>)
    ensures |c| == |centroids|
  {
    ClusterLists(entries, centroids, |centroids|)
  }

  /** `Sources(...)[vi]` is the number of the reference stored at index vi. */
  function Sources(entries: seq<Entry>, centroids: seq<Vec>): seq<nat> {
    Concat(PositionLists(entries, centroids, |centroids|))
  }

  lemma ListsStep(entries: seq<Entry>, centroids: seq<Vec>, n: nat)
    requires n > 0
    ensures Concat(PositionLists(entries, centroids, n))
         == Concat(PositionLists(entries, centroids, n - 1)) + Positions(entries, centroids, n - 1)
    ensures Concat(ClusterLists(entries, centroids, n))
         == Concat(ClusterLists(entries, centroids, n - 1)) + Members(entries, centroids, n - 1)
  {
    assert PositionLists(entries, centroids, n)[..n - 1] == PositionLists(entries, centroids, n - 1);
    assert ClusterLists(entries, centroids, n)[..n - 1] == ClusterLists(entries, centroids, n - 1);
  }

  lemma {:induction false} ConcatOfLists(entries: seq<Entry>, centroids: seq<Vec>, n: nat)
    ensures ReadsFrom(entries, Concat(PositionLists(entries, centroids, n)),
                      Concat(ClusterLists(entries, centroids, n)))
  {
    if n > 0 {
      ConcatOfLists(entries, centroids, n - 1);
      ListsStep(entries, centroids, n);
      PositionsMeaning(entries, centroids, n - 1);
    }
  }

  predicate AmongFirst(entries: seq<Entry>, centroids: seq<Vec>, n: nat, i: nat) {
    i < |entries| && Nearest(entries[i].vec, centroids) < n
  }

  /** The first n clusters hold exactly the references whose nearest centroid is one of the first n, once each. */
  lemma {:induction false} SourcesOfFirst(entries: seq<Entry>, centroids: seq<Vec>, n: nat)
    ensures Distinct(Concat(PositionLists(entries, centroids, n)))
    ensures forall i: nat :: i in Concat(PositionLists(entries, centroids, n)) <==> AmongFirst(entries, centroids, n, i)
  {
    if n > 0 {
      SourcesOfFirst(entries, centroids, n - 1);
      ListsStep(entries, centroids, n);
      PositionsMeaning(entries, centroids, n - 1);
      var front, last := Concat(PositionLists(entries, centroids, n - 1)), Positions(entries, centroids, n - 1);
      forall i: nat | i in front ensures i !in last {
        assert AmongFirst(entries, centroids, n - 1, i);
        assert i in last <==> BelongsTo(entries, centroids, n - 1, i);
      }
      DistinctConcat(front, last);
      forall i: nat ensures i in front + last <==> AmongFirst(entries, centroids, n, i) {
        assert i in front <==> AmongFirst(entries, centroids, n - 1, i);
        assert i in last <==> BelongsTo(entries, centroids, n - 1, i);
      }
    }
  }

  /** Conservation: the stored entries are the accepted references, each exactly once. */
  lemma BuildConserves(entries: seq<Entry>, centroids: seq<Vec>)
    requires centroids != []
    ensures IsPermutation(Sources(entries, centroids), |entries|)
    ensures ReadsFrom(entries, Sources(entries, centroids), Concat(Clusters(entries, centroids)))
    ensures |Concat(Clusters(entries, centroids))| == |entries|
    ensures multiset(Concat(Clusters(entries, centroids))) == multiset(entries)
  {
    var s, c := Sources(entries, centroids), Concat(Clusters(entries, centroids));
    ConcatOfLists(entries, centroids, |centroids|);
    SourcesOfFirst(entries, centroids, |centroids|);
    forall i: nat ensures i in s <==> i < |entries| {
      assert i in s <==> AmongFirst(entries, centroids, |centroids|, i);
    }
    PermutationByMembership(s, |entries|);
    Rearranged(entries, s, Identity(|entries|), c, entries);
  }
}
