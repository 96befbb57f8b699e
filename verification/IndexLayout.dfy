/** The index file byte by byte: the layout in numbers, for every file that is loaded and every file that is written. */
module IndexLayout {
  import opened Bytes
  import opened IndexFormat
  import opened IndexLoader

  /** The 32-bit number at an offset, lowest byte first. */
  function Word(m: seq<byte>, at: nat): nat
    requires at + 4 <= |m|
  {
    m[at] as int + 0x100 * m[at + 1] as int + 0x1_0000 * m[at + 2] as int + 0x100_0000 * m[at + 3] as int
  }

  /** The 64-bit number at an offset, lowest byte first. */
  function Long(m: seq<byte>, at: nat): nat
    requires at + 8 <= |m|
  {
    Word(m, at) + 0x1_0000_0000 * Word(m, at + 4)
  }

  lemma FromFour(b: seq<byte>)
    requires |b| >= 4
    ensures FromLE(b) == Word(b, 0) + 0x1_0000_0000 * FromLE(b[4..])
  {
    assert b[1..][1..] == b[2..] && b[2..][1..] == b[3..] && b[3..][1..] == b[4..];
    assert FromLE(b) == b[0] + 256 * FromLE(b[1..]);
    assert FromLE(b[1..]) == b[1] + 256 * FromLE(b[2..]);
    assert FromLE(b[2..]) == b[2] + 256 * FromLE(b[3..]);
    assert FromLE(b[3..]) == b[3] + 256 * FromLE(b[4..]);
  }

  lemma U32IsWord(m: seq<byte>, at: nat)
    requires at + 4 <= |m|
    ensures U32At(m, at) == Word(m, at)
  {
    FromFour(m[at..at + 4]);
    assert m[at..at + 4][4..] == [];
  }

  lemma U64IsLong(m: seq<byte>, at: nat)
    requires at + 8 <= |m|
    ensures U64At(m, at) == Long(m, at)
  {
    var b := m[at..at + 8];
    FromFour(b);
    FromFour(b[4..]);
    assert b[4..][4..] == [];
    assert Word(b, 0) == Word(m, at) && Word(b[4..], 0) == Word(m, at + 4);
  }

  // ---------- Loading ----------

  lemma WrappedNeed(a: nat, n: nat)
    ensures Wrap(Wrap(a + Wrap(14 * n)) + n) == (a + 15 * n) % 0x1_0000_0000_0000_0000
  {
    WrapSum(14 * n, a);
    WrapSum(a + 14 * n, n);
  }

  lemma WrapSum(a: nat, b: nat)
    ensures Wrap(b + Wrap(a)) == Wrap(a + b) == Wrap(Wrap(a) + b)
  {
    var q := a / TWO64;
    assert a + b == TWO64 * q + (a % TWO64 + b);
  }

  /** Which files load, and the error of each that does not, from the bytes: "IVFX", version 1 and 14 dimensions, and
    the declared sizes, added up in 64 bits, within the file. */
  lemma LoadMeaning(m: seq<byte>, probes: nat)
    ensures |m| < 32 ==> Load(m, probes) == Err(TooSmallForHeader)
    ensures |m| >= 32 ==>
      var numVecs, numCents := Long(m, 8), Word(m, 16);
      var need := (32 + 56 * numCents + 8 * (numCents + 1) + 15 * numVecs) % 0x1_0000_0000_0000_0000;
      var r := Load(m, probes);
      if m[..4] != ['I' as int, 'V' as int, 'F' as int, 'X' as int] then r == Err(BadMagic)
      else if Word(m, 4) != 1 then r == Err(UnsupportedVersion(Word(m, 4)))
      else if Word(m, 20) != 14 then r == Err(WrongDims(Word(m, 20)))
      else if |m| < need then r == Err(FileTooSmall(need, |m|))
      else r.Ok? && r.value.mmap == m && r.value.numCents == numCents && r.value.numVecs == numVecs
           && r.value.probes == if probes == 0 then Word(m, 24) else probes
  {
    hide U32At, U64At, Word, Long, Wrap;
    if |m| >= 32 {
      U32IsWord(m, 4);
      U64IsLong(m, 8);
      U32IsWord(m, 16);
      U32IsWord(m, 20);
      U32IsWord(m, 24);
      WrappedNeed(32 + Word(m, 16) * 56 + (Word(m, 16) + 1) * 8, Long(m, 8));
      assert m[0..4] == m[..4];
      MagicIs();
    }
  }

  lemma MagicIs()
    ensures MAGIC == ['I' as int, 'V' as int, 'F' as int, 'X' as int]
  {
  }

  /** Where the numbers of an opened file stand: centroid words from 32, 64-bit offsets, signed bytes, labels. */
  lemma DecodeMeaning(s: Searcher)
    requires SectionsFit(s)
    ensures var ix, m, c, v := Decode(s), s.mmap, s.numCents, s.numVecs;
      && |ix.centroids| == c && |ix.offsets| == c + 1 && |ix.vecs| == |ix.labels| == v
      && 40 + 64 * c + 15 * v <= |m|
      && ix.defaultProbes == Word(m, 24)
      && (forall ci, j :: 0 <= ci < c && 0 <= j < 14 ==>
          0 <= 32 + 56 * ci + 4 * j <= |m| - 4 && ix.centroids[ci][j] == Word(m, 32 + 56 * ci + 4 * j))
      && (forall ci :: 0 <= ci <= c ==>
          32 + 56 * c + 8 * ci <= |m| - 8 && ix.offsets[ci] == Long(m, 32 + 56 * c + 8 * ci))
      && (forall vi, j :: 0 <= vi < v && 0 <= j < 14 ==>
          0 <= 40 + 64 * c + 14 * vi + j < |m| && ix.vecs[vi][j] == Signed(m[40 + 64 * c + 14 * vi + j]))
      && (forall vi :: 0 <= vi < v ==>
          40 + 64 * c + 14 * v + vi < |m| && (ix.labels[vi] <==> m[40 + 64 * c + 14 * v + vi] == 1))
  {
    hide U32At, U64At, Word, Long;
    var m, c := s.mmap, s.numCents;
    U32IsWord(m, 24);
    forall ci, j | 0 <= ci < c && 0 <= j < 14
      ensures 0 <= 32 + 56 * ci + 4 * j <= |m| - 4 && CentroidAt(s, ci)[j] == Word(m, 32 + 56 * ci + 4 * j)
    {
      U32IsWord(m, 32 + 56 * ci + 4 * j);
    }
    forall ci | 0 <= ci <= c ensures OffsetAt(s, ci) == Long(m, 32 + 56 * c + 8 * ci) {
      U64IsLong(m, 32 + 56 * c + 8 * ci);
    }
  }

  /** The two's complement reading of a byte. */
  function Signed(b: byte): int {
    if b >= 0x80 then b - 0x100 else b
  }

  // ---------- Writing ----------

  lemma WrittenHeader(m: seq<byte>, numVecs: U64, numCents: U32, defaultProbes: U32)
    requires HeaderBytes(numVecs, numCents, defaultProbes) <= m
    ensures m[..8] == [73, 86, 70, 88, 1, 0, 0, 0] && m[20..24] == [14, 0, 0, 0] && m[28..32] == [0, 0, 0, 0]
  {
    SevenParts(MAGIC, ToLE(1, 4), ToLE(numVecs, 8), ToLE(numCents, 4), ToLE(14, 4), ToLE(defaultProbes, 4), ToLE(0, 4),
               m);
    SmallWord(0);
    SmallWord(1);
    SmallWord(14);
    assert m[..8] == m[0..4] + m[4..8];
  }

  lemma SmallWord(n: nat)
    requires n < 256
    ensures ToLE(n, 4) == [n, 0, 0, 0]
  {
    assert Digit(n, 1) == Digit(0, 0) && Digit(n, 2) == Digit(0, 1) && Digit(n, 3) == Digit(0, 2);
    assert Digit(0, 1) == Digit(0, 0) && Digit(0, 2) == Digit(0, 1);
  }

  lemma LabelOf(m: seq<byte>, at: nat, stored: seq<Entry>, vi: nat)
    requires Holds(m, at, stored, LabelByte, 1) && vi < |stored|
    ensures at + vi < |m| && m[at + vi] == if stored[vi].isFraud then 1 else 0
  {
    var e := stored[vi];
    assert at + vi * 1 + 1 <= |m|;
    assert RecordAt(m, at, 1, vi) == LabelByte(stored[vi]);
    assert RecordAt(m, at, 1, vi)[0] == m[at + vi];
  }

  lemma WrittenLabels(centroids: seq<Centroid>, clusters: seq<seq<Entry>>, defaultProbes: U32)
    requires Writable(centroids, clusters)
    ensures var m, stored := WrittenFile(centroids, clusters, defaultProbes), Concat(clusters);
      forall vi :: 0 <= vi < |stored| ==>
        var at := 40 + 64 * |centroids| + 14 * |stored| + vi;
        at < |m| && m[at] == if stored[vi].isFraud then 1 else 0
  {
    hide Holds, HeaderBytes, Flat, Offsets, IndexBytes, Concat, CentroidBytes, OffsetBytes, EntryBytes, LabelByte;
    var s, stored := WrittenSearcher(centroids, clusters, defaultProbes, 0), Concat(clusters);
    WrittenRecords(centroids, clusters, defaultProbes, 0);
    forall vi | 0 <= vi < |stored|
      ensures s.labelOff + vi < |s.mmap| && s.mmap[s.labelOff + vi] == if stored[vi].isFraud then 1 else 0
    {
      LabelOf(s.mmap, s.labelOff, stored, vi);
    }
  }

  lemma WrittenFront(centroids: seq<Centroid>, clusters: seq<seq<Entry>>, defaultProbes: U32)
    requires Writable(centroids, clusters)
    ensures var m := WrittenFile(centroids, clusters, defaultProbes);
      && |m| == 40 + 64 * |centroids| + 15 * |Concat(clusters)|
      && m[..8] == [73, 86, 70, 88, 1, 0, 0, 0] && m[20..24] == [14, 0, 0, 0] && m[28..32] == [0, 0, 0, 0]
  {
    hide HeaderBytes, Flat, Offsets, IndexBytes, Concat;
    var s := WrittenSearcher(centroids, clusters, defaultProbes, 0);
    WrittenSections(centroids, clusters, defaultProbes, 0);
    WrittenHeader(s.mmap, s.numVecs, s.numCents, defaultProbes);
  }

  /** The bytes of a written file that the reader does not tell apart: exactly "IVFX", version 1, 14 dimensions and zero
    in the header, and labels that are 1 for a fraud and 0 otherwise; and the length of the file. */
  lemma WrittenBytes(centroids: seq<Centroid>, clusters: seq<seq<Entry>>, defaultProbes: U32)
    requires Writable(centroids, clusters)
    ensures var m, stored := WrittenFile(centroids, clusters, defaultProbes), Concat(clusters);
      && |m| == 40 + 64 * |centroids| + 15 * |stored|
      && m[..8] == [73, 86, 70, 88, 1, 0, 0, 0] && m[20..24] == [14, 0, 0, 0] && m[28..32] == [0, 0, 0, 0]
      && (forall vi :: 0 <= vi < |stored| ==>
          m[40 + 64 * |centroids| + 14 * |stored| + vi] == if stored[vi].isFraud then 1 else 0)
  {
    hide WrittenFile, Concat;
    WrittenFront(centroids, clusters, defaultProbes);
    WrittenLabels(centroids, clusters, defaultProbes);
  }
}
