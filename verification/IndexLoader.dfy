/** Opening an index file, and the round trip with the writer. */
module IndexLoader {
  import opened Vectors
  import opened Quantization
  import opened Bytes
  import opened IndexFormat

  datatype LoadError =
    | TooSmallForHeader
    | BadMagic
    | UnsupportedVersion(version: nat)
    | WrongDims(dims: nat)
    | FileTooSmall(need: nat, got: nat)

  datatype Result<+T> = Ok(value: T) | Err(error: LoadError)

  /** The opened file: the mapped bytes and where each section starts. */
  datatype Searcher = Searcher(mmap: seq<byte>, numCents: U32, numVecs: U64, probes: nat,
                               offsetOff: nat, vecOff: nat, labelOff: nat)

  /** The index with every section decoded. */
  datatype IvfIndex = IvfIndex(numCents: nat, numVecs: nat, defaultProbes: nat,
                               centroids: seq<Centroid>, offsets: seq<U64>, vecs: seq<Code>, labels: seq<bool>)

  /** `usize` arithmetic of a release build. */
  function Wrap(n: nat): (w: U64) {
    n % TWO64
  }

  function U32At(m: seq<byte>, at: nat): U32
    requires at + 4 <= |m|
  {
    FromLEBound(m[at..at + 4]);
    Pow256Values();
    FromLE(m[at..at + 4])
  }

  function U64At(m: seq<byte>, at: nat): U64
    requires at + 8 <= |m|
  {
    FromLEBound(m[at..at + 8]);
    Pow256Values();
    FromLE(m[at..at + 8])
  }

  /** `Searcher::load`, once the file is mapped. */
  function Load(mmap: seq<byte>, probes: nat): Result<Searcher> {
    if |mmap| < HEADER then Err(TooSmallForHeader)
    else if mmap[0..4] != MAGIC then Err(BadMagic)
    else if U32At(mmap, 4) != 1 then Err(UnsupportedVersion(U32At(mmap, 4)))
    else
      var numVecs := U64At(mmap, 8);
      var numCents := U32At(mmap, 16);
      var fileDims := U32At(mmap, 20);
      if fileDims != DIMS then Err(WrongDims(fileDims)) else
      var defaultProbes := U32At(mmap, 24);
      var actualProbes := if probes > 0 then probes else defaultProbes;
      var offsetOff := HEADER + numCents * DIMS * 4;
      var vecOff := offsetOff + (numCents + 1) * 8;
      var labelOff := Wrap(vecOff + Wrap(numVecs * DIMS));
      var need := Wrap(labelOff + numVecs);
      if |mmap| < need then Err(FileTooSmall(need, |mmap|))
      else Ok(Searcher(mmap, numCents, numVecs, actualProbes, offsetOff, vecOff, labelOff))
  }

  /** Every section lies inside the file. */
  predicate SectionsFit(s: Searcher) {
    && HEADER <= |s.mmap|
    && s.offsetOff == HEADER + s.numCents * DIMS * 4
    && s.vecOff == s.offsetOff + (s.numCents + 1) * 8
    && s.labelOff == s.vecOff + s.numVecs * DIMS
    && s.labelOff + s.numVecs <= |s.mmap|
  }

  /** For a file that fits in memory, what the size check is meant to guarantee holds exactly when the
    declared sizes do not overflow the address arithmetic. */
  lemma LoadedSectionsFit(mmap: seq<byte>, probes: nat)
    requires |mmap| < TWO64 && Load(mmap, probes).Ok?
    ensures var s := Load(mmap, probes).value;
      SectionsFit(s) <==> s.vecOff + s.numVecs * (DIMS + 1) < TWO64
  {
    hide U32At, U64At;
    var s := Load(mmap, probes).value;
    if s.vecOff + s.numVecs * (DIMS + 1) < TWO64 {
      assert Wrap(s.numVecs * DIMS) == s.numVecs * DIMS;
    }
  }

  // ---------- Reading the sections ----------

  lemma RecordInside(i: nat, n: nat, w: nat)
    requires i < n
    ensures i * w + w <= n * w
  {
    assert n * w == i * w + w + (n - i - 1) * w;
  }

  function CentroidAt(s: Searcher, ci: nat): Centroid
    requires SectionsFit(s) && ci < s.numCents
  {
    RecordInside(ci, s.numCents, 56);
    seq(DIMS, j requires 0 <= j < DIMS => U32At(s.mmap, HEADER + ci * 56 + j * 4))
  }

  function OffsetAt(s: Searcher, ci: nat): U64
    requires SectionsFit(s) && ci <= s.numCents
  {
    U64At(s.mmap, s.offsetOff + ci * 8)
  }

  function VecAt(s: Searcher, vi: nat): Code
    requires SectionsFit(s) && vi < s.numVecs
  {
    RecordInside(vi, s.numVecs, DIMS);
    FromCodeBytes(s.mmap[s.vecOff + vi * DIMS..s.vecOff + vi * DIMS + DIMS])
  }

  function LabelAt(s: Searcher, vi: nat): bool
    requires SectionsFit(s) && vi < s.numVecs
  {
    s.mmap[s.labelOff + vi] == 1
  }

  predicate WellFormed(ix: IvfIndex) {
    && |ix.centroids| == ix.numCents && |ix.offsets| == ix.numCents + 1
    && |ix.vecs| == |ix.labels| == ix.numVecs
  }

  function Decode(s: Searcher): (ix: IvfIndex)
    requires SectionsFit(s)
    ensures WellFormed(ix) && ix.numCents == s.numCents && ix.numVecs == s.numVecs
  {
    IvfIndex(s.numCents, s.numVecs, U32At(s.mmap, 24),
      seq(s.numCents, ci requires 0 <= ci < s.numCents => CentroidAt(s, ci)),
      seq(s.numCents + 1, ci requires 0 <= ci <= s.numCents => OffsetAt(s, ci)),
      seq(s.numVecs, vi requires 0 <= vi < s.numVecs => VecAt(s, vi)),
      seq(s.numVecs, vi requires 0 <= vi < s.numVecs => LabelAt(s, vi)))
  }

  method ReadCentroids(s: Searcher) returns (r: seq<Centroid>)
    requires SectionsFit(s)
    ensures r == Decode(s).centroids
  {
    r := [];
    for i := 0 to s.numCents
      invariant |r| == i && forall j :: 0 <= j < i ==> r[j] == CentroidAt(s, j)
    {
      r := r + [CentroidAt(s, i)];
    }
  }

  method ReadOffsets(s: Searcher) returns (r: seq<U64>)
    requires SectionsFit(s)
    ensures r == Decode(s).offsets
  {
    r := [];
    for i := 0 to s.numCents + 1
      invariant |r| == i && forall j :: 0 <= j < i ==> r[j] == OffsetAt(s, j)
    {
      r := r + [OffsetAt(s, i)];
    }
  }

  method ReadVecs(s: Searcher) returns (r: seq<Code>)
    requires SectionsFit(s)
    ensures r == Decode(s).vecs
  {
    r := [];
    for i := 0 to s.numVecs
      invariant |r| == i && forall j :: 0 <= j < i ==> r[j] == VecAt(s, j)
    {
      r := r + [VecAt(s, i)];
    }
  }

  method ReadLabels(s: Searcher) returns (r: seq<bool>)
    requires SectionsFit(s)
    ensures r == Decode(s).labels
  {
    r := [];
    for i := 0 to s.numVecs
      invariant |r| == i && forall j :: 0 <= j < i ==> r[j] == LabelAt(s, j)
    {
      r := r + [LabelAt(s, i)];
    }
  }

  /** `IvfIndex::load` of the diagnostic binary: the same checks, then section by section. */
  method LoadIvfIndex(bytes: seq<byte>) returns (r: Result<IvfIndex>)
    requires Load(bytes, 0).Ok? ==> SectionsFit(Load(bytes, 0).value)
    ensures Load(bytes, 0).Err? ==> r == Err(Load(bytes, 0).error)
    ensures Load(bytes, 0).Ok? ==> r == Ok(Decode(Load(bytes, 0).value))
  {
    var loaded := Load(bytes, 0);
    if loaded.Err? {
      return Err(loaded.error);
    }
    var s := loaded.value;
    var centroids := ReadCentroids(s);
    var offsets := ReadOffsets(s);
    var vecs := ReadVecs(s);
    var labels := ReadLabels(s);
    r := Ok(IvfIndex(s.numCents, s.numVecs, U32At(s.mmap, 24), centroids, offsets, vecs, labels));
  }

  // ---------- Round trip ----------

  /** What the builder's main passes to the writer, and a file short enough to be addressed. */
  ghost predicate Writable(centroids: seq<Centroid>, clusters: seq<seq<Entry>>) {
    && |centroids| == |clusters| < 0x1_0000_0000
    && HEADER + 56 * |centroids| + 8 * (|centroids| + 1) + 15 * |Concat(clusters)| < TWO64
  }

  function WrittenFile(centroids: seq<Centroid>, clusters: seq<seq<Entry>>, defaultProbes: U32): seq<byte>
    requires Writable(centroids, clusters)
  {
    IndexBytes(centroids, clusters, |Concat(clusters)|, |centroids|, defaultProbes)
  }

  /** The index that the written file is meant to represent. */
  function WrittenIndex(centroids: seq<Centroid>, clusters: seq<seq<Entry>>, defaultProbes: U32): (ix: IvfIndex)
    requires Writable(centroids, clusters)
  {
    var all := Concat(clusters);
    OffsetsFit(clusters);
    IvfIndex(|centroids|, |all|, defaultProbes, centroids, Offsets(clusters),
      seq(|all|, i requires 0 <= i < |all| => all[i].code),
      seq(|all|, i requires 0 <= i < |all| => all[i].isFraud))
  }

  lemma OffsetsFit(clusters: seq<seq<Entry>>)
    ensures forall i :: 0 <= i < |Offsets(clusters)| ==> Offsets(clusters)[i] <= |Concat(clusters)|
  {
    forall i | 0 <= i <= |clusters| ensures Offsets(clusters)[i] <= |Concat(clusters)| {
      StartsAreOrdered(clusters, i, |clusters|);
    }
  }

  lemma SevenParts<T>(a: seq<T>, b: seq<T>, c: seq<T>, d: seq<T>, e: seq<T>, f: seq<T>, g: seq<T>, m: seq<T>)
    requires |a| == |b| == |d| == |e| == |f| == |g| == 4 && |c| == 8
    requires a + b + c + d + e + f + g <= m
    ensures m[0..4] == a && m[4..8] == b && m[8..16] == c && m[16..20] == d
    ensures m[20..24] == e && m[24..28] == f && m[28..32] == g
  {
  }

  lemma ReadU32(m: seq<byte>, at: nat, n: U32)
    requires at + 4 <= |m| && m[at..at + 4] == ToLE(n, 4)
    ensures U32At(m, at) == n
  {
    Pow256Values();
    DecodeEncode(n, 4);
  }

  lemma ReadU64(m: seq<byte>, at: nat, n: U64)
    requires at + 8 <= |m| && m[at..at + 8] == ToLE(n, 8)
    ensures U64At(m, at) == n
  {
    Pow256Values();
    DecodeEncode(n, 8);
  }

  /** What the header of the bytes says. */
  ghost predicate HeaderSays(m: seq<byte>, numVecs: U64, numCents: U32, defaultProbes: U32)
    requires HEADER <= |m|
  {
    && m[0..4] == MAGIC && U32At(m, 4) == 1 && U64At(m, 8) == numVecs && U32At(m, 16) == numCents
    && U32At(m, 20) == DIMS && U32At(m, 24) == defaultProbes
  }

  lemma HeaderFields(m: seq<byte>, numVecs: U64, numCents: U32, defaultProbes: U32)
    requires HeaderBytes(numVecs, numCents, defaultProbes) <= m
    ensures HeaderSays(m, numVecs, numCents, defaultProbes)
  {
    SevenParts(MAGIC, ToLE(1, 4), ToLE(numVecs, 8), ToLE(numCents, 4), ToLE(DIMS, 4), ToLE(defaultProbes, 4),
               ToLE(0, 4), m);
    ReadU32(m, 4, 1);
    ReadU64(m, 8, numVecs);
    ReadU32(m, 16, numCents);
    ReadU32(m, 20, DIMS);
    ReadU32(m, 24, defaultProbes);
  }

  lemma LoadByHeader(m: seq<byte>, numVecs: U64, numCents: U32, defaultProbes: U32, probes: nat)
    requires HEADER <= |m| && HeaderSays(m, numVecs, numCents, defaultProbes)
    requires HEADER + 56 * numCents + 8 * (numCents + 1) + 15 * numVecs < TWO64
    ensures var vecOff := HEADER + 56 * numCents + 8 * (numCents + 1);
      var need := vecOff + 15 * numVecs;
      Load(m, probes) ==
        if |m| < need then Err(FileTooSmall(need, |m|))
        else Ok(Searcher(m, numCents, numVecs, if probes > 0 then probes else defaultProbes,
                         HEADER + 56 * numCents, vecOff, vecOff + DIMS * numVecs))
  {
    var vecOff := HEADER + 56 * numCents + 8 * (numCents + 1);
    assert Wrap(numVecs * DIMS) == numVecs * DIMS;
    assert Wrap(vecOff + numVecs * DIMS) == vecOff + numVecs * DIMS;
    assert Wrap(vecOff + numVecs * DIMS + numVecs) == vecOff + 15 * numVecs;
  }

  /** The size check can pass on a file that holds nothing it declares: 40 bytes, no centroids, and as many vectors
    as make the needed size wrap around to 39. */
  lemma WrappedSizeIsAccepted()
    ensures var file := HeaderBytes(0x1111_1111_1111_1111, 0, 3) + [0, 0, 0, 0, 0, 0, 0, 0];
      |file| == 40 && Load(file, 0).Ok? && !SectionsFit(Load(file, 0).value)
  {
    hide U32At, U64At;
    var file := HeaderBytes(0x1111_1111_1111_1111, 0, 3) + [0, 0, 0, 0, 0, 0, 0, 0];
    assert HeaderBytes(0x1111_1111_1111_1111, 0, 3) <= file;
    HeaderFields(file, 0x1111_1111_1111_1111, 0, 3);
  }

  /** A file in the documented format: a correct header, and room for everything it declares. */
  ghost predicate InFormat(m: seq<byte>) {
    && HEADER <= |m|
    && HeaderSays(m, U64At(m, 8), U32At(m, 16), U32At(m, 24))
    && HEADER + 56 * U32At(m, 16) + 8 * (U32At(m, 16) + 1) + 15 * U64At(m, 8) <= |m|
  }

  /** A file loads with all its sections inside exactly when it is in the documented format. */
  lemma LoadsIffInFormat(m: seq<byte>, probes: nat)
    requires |m| < TWO64
    ensures InFormat(m) <==> Load(m, probes).Ok? && SectionsFit(Load(m, probes).value)
  {
    hide Wrap, FromLE;
    if InFormat(m) {
      LoadByHeader(m, U64At(m, 8), U32At(m, 16), U32At(m, 24), probes);
    }
  }

  lemma LoadFitting(s: Searcher, defaultProbes: U32, probes: nat)
    requires SectionsFit(s) && |s.mmap| < TWO64
    requires HeaderSays(s.mmap, s.numVecs, s.numCents, defaultProbes)
    requires s.probes == if probes > 0 then probes else defaultProbes
    ensures Load(s.mmap, probes) == Ok(s)
  {
    LoadByHeader(s.mmap, s.numVecs, s.numCents, defaultProbes, probes);
  }

  lemma SectionLengths(centroids: seq<Centroid>, clusters: seq<seq<Entry>>)
    ensures |Flat(centroids, CentroidBytes)| == |centroids| * 56
    ensures |Flat(Offsets(clusters), OffsetBytes)| == (|clusters| + 1) * 8
    ensures |Flat(Concat(clusters), EntryBytes)| == |Concat(clusters)| * DIMS
    ensures |Flat(Concat(clusters), LabelByte)| == |Concat(clusters)|
  {
    FlatLength(centroids, CentroidBytes, 56);
    FlatLength(Offsets(clusters), OffsetBytes, 8);
    FlatLength(Concat(clusters), EntryBytes, DIMS);
    FlatLength(Concat(clusters), LabelByte, 1);
  }

  lemma FiveParts<T>(b: seq<T>, h: seq<T>, c: seq<T>, o: seq<T>, v: seq<T>, l: seq<T>)
    requires b == h + c + o + v + l
    ensures h <= b && |b| == |h| + |c| + |o| + |v| + |l|
    ensures b[|h|..|h| + |c|] == c
    ensures b[|h| + |c|..|h| + |c| + |o|] == o
    ensures b[|h| + |c| + |o|..|h| + |c| + |o| + |v|] == v
    ensures b[|h| + |c| + |o| + |v|..] == l
  {
  }

  /** The Searcher that loading a written file must produce. */
  function WrittenSearcher(centroids: seq<Centroid>, clusters: seq<seq<Entry>>, defaultProbes: U32,
                           probes: nat): Searcher
    requires Writable(centroids, clusters)
  {
    var offsetOff := HEADER + |centroids| * 56;
    var vecOff := offsetOff + (|clusters| + 1) * 8;
    Searcher(WrittenFile(centroids, clusters, defaultProbes), |centroids|, |Concat(clusters)|,
      if probes > 0 then probes else defaultProbes, offsetOff, vecOff, vecOff + |Concat(clusters)| * DIMS)
  }

  /** The bytes of a written file, section by section: the sections tile the file. */
  lemma WrittenSections(centroids: seq<Centroid>, clusters: seq<seq<Entry>>, defaultProbes: U32, probes: nat)
    requires Writable(centroids, clusters)
    ensures var s := WrittenSearcher(centroids, clusters, defaultProbes, probes);
      && SectionsFit(s)
      && |s.mmap| == s.labelOff + s.numVecs
      && HeaderBytes(s.numVecs, s.numCents, defaultProbes) <= s.mmap
      && s.mmap[HEADER..s.offsetOff] == Flat(centroids, CentroidBytes)
      && s.mmap[s.offsetOff..s.vecOff] == Flat(Offsets(clusters), OffsetBytes)
      && s.mmap[s.vecOff..s.labelOff] == Flat(Concat(clusters), EntryBytes)
      && s.mmap[s.labelOff..] == Flat(Concat(clusters), LabelByte)
  {
    var s := WrittenSearcher(centroids, clusters, defaultProbes, probes);
    SectionLengths(centroids, clusters);
    assert s.mmap == IndexBytes(centroids, clusters, s.numVecs, s.numCents, defaultProbes);
    FiveParts(s.mmap, HeaderBytes(s.numVecs, s.numCents, defaultProbes), Flat(centroids, CentroidBytes),
      Flat(Offsets(clusters), OffsetBytes), Flat(Concat(clusters), EntryBytes), Flat(Concat(clusters), LabelByte));
  }

  lemma CentroidRecords(centroids: seq<Centroid>, clusters: seq<seq<Entry>>, defaultProbes: U32, probes: nat)
    requires Writable(centroids, clusters)
    ensures var s := WrittenSearcher(centroids, clusters, defaultProbes, probes);
      Holds(s.mmap, HEADER, centroids, CentroidBytes, 56)
  {
    hide Holds, Offsets, IndexBytes, Concat, HeaderBytes, Flat, EntryBytes, LabelByte, CentroidBytes, OffsetBytes;
    var s := WrittenSearcher(centroids, clusters, defaultProbes, probes);
    WrittenSections(centroids, clusters, defaultProbes, probes);
    SectionHolds(s.mmap, HEADER, s.offsetOff, centroids, CentroidBytes, 56);
  }

  lemma OffsetRecords(centroids: seq<Centroid>, clusters: seq<seq<Entry>>, defaultProbes: U32, probes: nat)
    requires Writable(centroids, clusters)
    ensures var s := WrittenSearcher(centroids, clusters, defaultProbes, probes);
      Holds(s.mmap, s.offsetOff, Offsets(clusters), OffsetBytes, 8)
  {
    hide Holds, Offsets, IndexBytes, Concat, HeaderBytes, Flat, EntryBytes, LabelByte, CentroidBytes, OffsetBytes;
    var s := WrittenSearcher(centroids, clusters, defaultProbes, probes);
    WrittenSections(centroids, clusters, defaultProbes, probes);
    SectionHolds(s.mmap, s.offsetOff, s.vecOff, Offsets(clusters), OffsetBytes, 8);
  }

  lemma VectorRecords(centroids: seq<Centroid>, clusters: seq<seq<Entry>>, defaultProbes: U32, probes: nat)
    requires Writable(centroids, clusters)
    ensures var s := WrittenSearcher(centroids, clusters, defaultProbes, probes);
      Holds(s.mmap, s.vecOff, Concat(clusters), EntryBytes, DIMS)
  {
    hide Holds, Offsets, IndexBytes, Concat, HeaderBytes, Flat, EntryBytes, LabelByte, CentroidBytes, OffsetBytes;
    var s := WrittenSearcher(centroids, clusters, defaultProbes, probes);
    WrittenSections(centroids, clusters, defaultProbes, probes);
    SectionHolds(s.mmap, s.vecOff, s.labelOff, Concat(clusters), EntryBytes, DIMS);
  }

  lemma LabelRecords(centroids: seq<Centroid>, clusters: seq<seq<Entry>>, defaultProbes: U32, probes: nat)
    requires Writable(centroids, clusters)
    ensures var s := WrittenSearcher(centroids, clusters, defaultProbes, probes);
      Holds(s.mmap, s.labelOff, Concat(clusters), LabelByte, 1)
  {
    hide Holds, Offsets, IndexBytes, Concat, HeaderBytes, Flat, EntryBytes, CentroidBytes, OffsetBytes;
    var s := WrittenSearcher(centroids, clusters, defaultProbes, probes);
    WrittenSections(centroids, clusters, defaultProbes, probes);
    assert s.mmap[s.labelOff..|s.mmap|] == s.mmap[s.labelOff..];
    SectionHolds(s.mmap, s.labelOff, |s.mmap|, Concat(clusters), LabelByte, 1);
  }

  /** Every record of a written file sits where its section and its number put it. */
  lemma WrittenRecords(centroids: seq<Centroid>, clusters: seq<seq<Entry>>, defaultProbes: U32, probes: nat)
    requires Writable(centroids, clusters)
    ensures var s := WrittenSearcher(centroids, clusters, defaultProbes, probes);
      && SectionsFit(s)
      && HeaderBytes(s.numVecs, s.numCents, defaultProbes) <= s.mmap
      && Holds(s.mmap, HEADER, centroids, CentroidBytes, 56)
      && Holds(s.mmap, s.offsetOff, Offsets(clusters), OffsetBytes, 8)
      && Holds(s.mmap, s.vecOff, Concat(clusters), EntryBytes, DIMS)
      && Holds(s.mmap, s.labelOff, Concat(clusters), LabelByte, 1)
  {
    var s := WrittenSearcher(centroids, clusters, defaultProbes, probes);
    hide Holds, Offsets, IndexBytes, Concat, HeaderBytes, Flat, EntryBytes, LabelByte, CentroidBytes, OffsetBytes;
    WrittenSections(centroids, clusters, defaultProbes, probes);
    CentroidRecords(centroids, clusters, defaultProbes, probes);
    OffsetRecords(centroids, clusters, defaultProbes, probes);
    VectorRecords(centroids, clusters, defaultProbes, probes);
    LabelRecords(centroids, clusters, defaultProbes, probes);
  }

  /** Loading a written file succeeds, for any probe setting. */
  lemma WrittenFileLoads(centroids: seq<Centroid>, clusters: seq<seq<Entry>>, defaultProbes: U32, probes: nat)
    requires Writable(centroids, clusters)
    ensures var s := WrittenSearcher(centroids, clusters, defaultProbes, probes);
      Load(s.mmap, probes) == Ok(s)
  {
    var s := WrittenSearcher(centroids, clusters, defaultProbes, probes);
    WrittenSections(centroids, clusters, defaultProbes, probes);
    HeaderFields(s.mmap, s.numVecs, s.numCents, defaultProbes);
    LoadFitting(s, defaultProbes, probes);
  }

  /** The 64-bit offsets start at a multiple of 8 in every file that loads. */
  lemma OffsetsAligned(mmap: seq<byte>, probes: nat)
    requires Load(mmap, probes).Ok?
    ensures Load(mmap, probes).value.offsetOff % 8 == 0
  {
    hide U32At, U64At, Wrap;
    var s := Load(mmap, probes).value;
    assert s.offsetOff == 8 * (4 + 7 * s.numCents);
  }

  /** A written file cut short anywhere is rejected. */
  lemma TruncatedFileIsRejected(centroids: seq<Centroid>, clusters: seq<seq<Entry>>, defaultProbes: U32,
                                probes: nat, n: nat)
    requires Writable(centroids, clusters)
    requires n < |WrittenFile(centroids, clusters, defaultProbes)|
    ensures Load(WrittenFile(centroids, clusters, defaultProbes)[..n], probes).Err?
  {
    var s := WrittenSearcher(centroids, clusters, defaultProbes, probes);
    WrittenSections(centroids, clusters, defaultProbes, probes);
    if n >= HEADER {
      HeaderFields(s.mmap[..n], s.numVecs, s.numCents, defaultProbes);
      LoadByHeader(s.mmap[..n], s.numVecs, s.numCents, defaultProbes, probes);
    }
  }

  // ---------- Decoding what was written ----------

  lemma WordOfCentroid(m: seq<byte>, at: nat, c: Centroid, j: nat)
    requires at + 56 <= |m| && m[at..at + 56] == CentroidBytes(c) && j < DIMS
    ensures U32At(m, at + j * 4) == c[j]
  {
    RecordOfSection(m, at, at + 56, c, F32Bytes, 4, j, j * 4);
    ReadU32(m, at + j * 4, c[j]);
  }

  lemma DecodedCentroids(s: Searcher, centroids: seq<Centroid>)
    requires SectionsFit(s) && s.numCents == |centroids|
    requires Holds(s.mmap, HEADER, centroids, CentroidBytes, 56)
    ensures Decode(s).centroids == centroids
  {
    forall ci | 0 <= ci < s.numCents ensures CentroidAt(s, ci) == centroids[ci] {
      assert RecordAt(s.mmap, HEADER, 56, ci) == CentroidBytes(centroids[ci]);
      forall j | 0 <= j < DIMS ensures CentroidAt(s, ci)[j] == centroids[ci][j] {
        WordOfCentroid(s.mmap, HEADER + ci * 56, centroids[ci], j);
      }
    }
  }

  lemma DecodedOffsets(s: Searcher, offsets: seq<nat>)
    requires SectionsFit(s) && |offsets| == s.numCents + 1
    requires Holds(s.mmap, s.offsetOff, offsets, OffsetBytes, 8)
    requires forall i :: 0 <= i < |offsets| ==> offsets[i] < TWO64
    ensures Decode(s).offsets == offsets
  {
    forall ci | 0 <= ci <= s.numCents ensures OffsetAt(s, ci) == offsets[ci] {
      assert RecordAt(s.mmap, s.offsetOff, 8, ci) == OffsetBytes(offsets[ci]);
      ReadU64(s.mmap, s.offsetOff + ci * 8, offsets[ci]);
    }
  }

  lemma DecodedCodes(s: Searcher, entries: seq<Entry>)
    requires SectionsFit(s) && s.numVecs == |entries|
    requires Holds(s.mmap, s.vecOff, entries, EntryBytes, DIMS)
    ensures Decode(s).vecs == seq(|entries|, i requires 0 <= i < |entries| => entries[i].code)
  {
    forall vi | 0 <= vi < s.numVecs ensures VecAt(s, vi) == entries[vi].code {
      assert RecordAt(s.mmap, s.vecOff, DIMS, vi) == EntryBytes(entries[vi]);
      CodesRoundTrip(entries[vi].code);
    }
  }

  lemma DecodedLabels(s: Searcher, entries: seq<Entry>)
    requires SectionsFit(s) && s.numVecs == |entries|
    requires Holds(s.mmap, s.labelOff, entries, LabelByte, 1)
    ensures Decode(s).labels == seq(|entries|, i requires 0 <= i < |entries| => entries[i].isFraud)
  {
    forall vi | 0 <= vi < s.numVecs ensures LabelAt(s, vi) == entries[vi].isFraud {
      assert RecordAt(s.mmap, s.labelOff, 1, vi)[0] == LabelByte(entries[vi])[0];
    }
  }

  /** The round trip: a written file loads, and decoding it gives back exactly the index that was written. */
  lemma WriteThenLoad(centroids: seq<Centroid>, clusters: seq<seq<Entry>>, defaultProbes: U32, probes: nat)
    requires Writable(centroids, clusters)
    ensures var s := WrittenSearcher(centroids, clusters, defaultProbes, probes);
      && SectionsFit(s)
      && Load(WrittenFile(centroids, clusters, defaultProbes), probes) == Ok(s)
      && Decode(s) == WrittenIndex(centroids, clusters, defaultProbes)
  {
    var s := WrittenSearcher(centroids, clusters, defaultProbes, probes);
    WrittenRecords(centroids, clusters, defaultProbes, probes);
    WrittenFileLoads(centroids, clusters, defaultProbes, probes);
    HeaderFields(s.mmap, s.numVecs, s.numCents, defaultProbes);
    OffsetsFit(clusters);
    DecodedCentroids(s, centroids);
    DecodedOffsets(s, Offsets(clusters));
    DecodedCodes(s, Concat(clusters));
    DecodedLabels(s, Concat(clusters));
  }
}
