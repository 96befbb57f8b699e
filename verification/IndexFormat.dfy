/** The index file: the bytes the builder writes, and the checks and offsets the searcher loads them with. */
module IndexFormat {
  import opened Vectors
  import opened Quantization
  import opened Bytes

  const TWO64: nat := 0x1_0000_0000_0000_0000
  type U32 = n: nat | n < 0x1_0000_0000
  type U64 = n: nat | n < 0x1_0000_0000_0000_0000

  /** The bits of a 32-bit float; what real number they stand for is a parameter where it matters. */
  type F32 = U32
  type Centroid = c: seq<F32> | |c| == DIMS witness seq(DIMS, _ => 0)

  /** One accepted reference: its codes, its components and its label. */
  datatype Entry = Entry(code: Code, vec: Vec, isFraud: bool)

  const MAGIC: seq<byte> := [73, 86, 70, 88]
  const HEADER: nat := 32

  function ToByte(x: I8): byte {
    if x < 0 then x + 256 else x
  }

  function ToI8(b: byte): I8 {
    if b < 128 then b else b - 256
  }

  function F32Bytes(w: F32): (b: seq<byte>)
    ensures |b| == 4
  {
    ToLE(w, 4)
  }

  function CentroidBytes(c: Centroid): (b: seq<byte>)
    ensures |b| == 56
  {
    FlatLength(c, F32Bytes, 4);
    Flat(c, F32Bytes)
  }

  function OffsetBytes(n: nat): (b: seq<byte>)
    ensures |b| == 8
  {
    ToLE(n, 8)
  }

  function CodeBytes(c: seq<I8>): (b: seq<byte>)
    ensures |b| == |c|
  {
    seq(|c|, i requires 0 <= i < |c| => ToByte(c[i]))
  }

  function FromCodeBytes(b: seq<byte>): (c: seq<I8>)
    ensures |c| == |b|
  {
    seq(|b|, i requires 0 <= i < |b| => ToI8(b[i]))
  }

  lemma CodesRoundTrip(c: seq<I8>)
    ensures FromCodeBytes(CodeBytes(c)) == c
  {
  }

  function EntryBytes(e: Entry): (b: seq<byte>)
    ensures |b| == DIMS
  {
    CodeBytes(e.code)
  }

  function LabelByte(e: Entry): seq<byte> {
    [if e.isFraud then 1 else 0]
  }

  function HeaderBytes(numVecs: U64, numCents: U32, defaultProbes: U32): (h: seq<byte>)
    ensures |h| == HEADER
  {
    MAGIC + ToLE(1, 4) + ToLE(numVecs, 8) + ToLE(numCents, 4) + ToLE(DIMS, 4) + ToLE(defaultProbes, 4) + ToLE(0, 4)
  }

  /** The first vector index of every cluster, and the total at the end. */
  function Offsets(clusters: seq<seq<Entry>>): seq<nat> {
    seq(|clusters| + 1, i requires 0 <= i < |clusters| + 1 => StartOf(clusters, i))
  }

  function IndexBytes(centroids: seq<Centroid>, clusters: seq<seq<Entry>>, numVecs: U64, numCents: U32,
                      defaultProbes: U32): seq<byte>
  {
    HeaderBytes(numVecs, numCents, defaultProbes)
    + Flat(centroids, CentroidBytes)
    + Flat(Offsets(clusters), OffsetBytes)
    + Flat(Concat(clusters), EntryBytes)
    + Flat(Concat(clusters), LabelByte)
  }

  // ---------- The writer ----------

  /** The prefix sums: `offsets[i]` is the running total when cluster i is reached. */
  method ClusterOffsets(clusters: seq<seq<Entry>>) returns (offsets: array<nat>)
    ensures fresh(offsets) && offsets[..] == Offsets(clusters)
  {
    offsets := new nat[|clusters| + 1](_ => 0);
    var cur := 0;
    for i := 0 to |clusters|
      invariant cur == StartOf(clusters, i)
      invariant forall j :: 0 <= j < i ==> offsets[j] == StartOf(clusters, j)
    {
      offsets[i] := cur;
      cur := cur + |clusters[i]|;
      StartStep(clusters, i);
    }
    offsets[|clusters|] := cur;
  }

  /** `for x in xs { write(record(x)) }` */
  method WriteAll<T>(xs: seq<T>, record: T -> seq<byte>) returns (w: seq<byte>)
    ensures w == Flat(xs, record)
  {
    w := [];
    for i := 0 to |xs|
      invariant w == Flat(xs[..i], record)
    {
      w := w + record(xs[i]);
      FlatPush(xs[..i], xs[i], record);
      assert xs[..i + 1] == xs[..i] + [xs[i]];
    }
    assert xs[..|xs|] == xs;
  }

  /** `for cluster in clusters { for entry in cluster { write(record(entry)) } }` */
  method WriteEntries(clusters: seq<seq<Entry>>, record: Entry -> seq<byte>) returns (w: seq<byte>)
    ensures w == Flat(Concat(clusters), record)
  {
    w := [];
    for i := 0 to |clusters|
      invariant w == Flat(Concat(clusters[..i]), record)
    {
      var cluster := clusters[i];
      var part := WriteAll(cluster, record);
      w := w + part;
      FlatConcat(Concat(clusters[..i]), cluster, record);
      ConcatPush(clusters[..i], cluster);
      assert clusters[..i + 1] == clusters[..i] + [cluster];
    }
    assert clusters[..|clusters|] == clusters;
  }

  /** `write_index`: header, centroids, offsets, vectors in cluster order, labels in the same order. */
  method WriteIndex(centroids: seq<Centroid>, clusters: seq<seq<Entry>>, numVecs: U64, numCents: U32,
                    defaultProbes: U32) returns (w: seq<byte>)
    ensures w == IndexBytes(centroids, clusters, numVecs, numCents, defaultProbes)
  {
    w := HeaderBytes(numVecs, numCents, defaultProbes);
    var cents := WriteAll(centroids, CentroidBytes);
    var offsets := ClusterOffsets(clusters);
    var offs := WriteAll(offsets[..], OffsetBytes);
    var vectors := WriteEntries(clusters, EntryBytes);
    var labels := WriteEntries(clusters, LabelByte);
    w := w + cents + offs + vectors + labels;
  }
}
