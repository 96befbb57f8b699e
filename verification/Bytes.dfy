/** Little-endian integers and flattened records as byte sequences. */
module Bytes {

  type byte = b: int | 0 <= b < 256

  function Pow256(n: nat): (p: nat)
    ensures p >= 1
  {
    if n == 0 then 1 else 256 * Pow256(n - 1)
  }

  lemma Pow256Values()
    ensures Pow256(4) == 0x1_0000_0000 && Pow256(8) == 0x1_0000_0000_0000_0000
  {
    assert Pow256(2) == 0x1_0000;
    assert Pow256(4) == 256 * (256 * Pow256(2));
    assert Pow256(6) == 256 * (256 * Pow256(4));
    assert Pow256(8) == 256 * (256 * Pow256(6));
  }

  /** The i-th base-256 digit, lowest first. */
  function Digit(n: nat, i: nat): byte
    decreases i, n
  {
    if i == 0 then n % 256 else Digit(n / 256, i - 1)
  }

  /** `to_le_bytes` of an integer of the given width: higher digits are cut off. */
  function ToLE(n: nat, width: nat): (b: seq<byte>)
    ensures |b| == width
  {
    seq(width, i requires 0 <= i < width => Digit(n, i))
  }

  /** `from_le_bytes`. */
  function FromLE(b: seq<byte>): nat {
    if b == [] then 0 else b[0] + 256 * FromLE(b[1..])
  }

  lemma {:induction false} DecodeEncode(n: nat, width: nat)
    requires n < Pow256(width)
    ensures FromLE(ToLE(n, width)) == n
  {
    if width > 0 {
      DecodeEncode(n / 256, width - 1);
      assert ToLE(n, width)[1..] == ToLE(n / 256, width - 1);
      assert ToLE(n, width)[0] == n % 256;
    }
  }

  lemma {:induction false} FromLEBound(b: seq<byte>)
    ensures FromLE(b) < Pow256(|b|)
  {
    if b != [] {
      FromLEBound(b[1..]);
    }
  }

  // ---------- Concatenation and flattening ----------

  function Concat<T>(xss: seq<seq<T>>): seq<T> {
    if xss == [] then [] else Concat(xss[..|xss| - 1]) + xss[|xss| - 1]
  }

  lemma ConcatPush<T>(xss: seq<seq<T>>, xs: seq<T>)
    ensures Concat(xss + [xs]) == Concat(xss) + xs
  {
    assert (xss + [xs])[..|xss|] == xss;
  }

  /** Where the i-th part starts. */
  function StartOf<T>(xss: seq<seq<T>>, i: nat): nat
    requires i <= |xss|
  {
    |Concat(xss[..i])|
  }

  lemma {:induction false} StartsAreOrdered<T>(xss: seq<seq<T>>, i: nat, j: nat)
    requires i <= j <= |xss|
    ensures StartOf(xss, i) <= StartOf(xss, j)
    ensures StartOf(xss, |xss|) == |Concat(xss)|
    decreases j
  {
    assert xss[..|xss|] == xss;
    if i < j {
      StartsAreOrdered(xss, i, j - 1);
      assert xss[..j][..j - 1] == xss[..j - 1];
    }
  }

  lemma StartStep<T>(xss: seq<seq<T>>, i: nat)
    requires i < |xss|
    ensures StartOf(xss, i + 1) == StartOf(xss, i) + |xss[i]|
    ensures StartOf(xss, i + 1) <= |Concat(xss)|
  {
    assert xss[..i + 1][..i] == xss[..i];
    StartsAreOrdered(xss, i + 1, |xss|);
  }

  lemma PrefixPart<T>(s: seq<T>, t: seq<T>, lo: nat, hi: nat)
    requires lo <= hi <= |s|
    ensures (s + t)[lo..hi] == s[lo..hi]
  {
  }

  /** The i-th part sits between its start and the next one. */
  lemma {:induction false} PartOfConcat<T>(xss: seq<seq<T>>, i: nat)
    requires i < |xss|
    ensures StartOf(xss, i) <= StartOf(xss, i + 1) == StartOf(xss, i) + |xss[i]| <= |Concat(xss)|
    ensures Concat(xss)[StartOf(xss, i)..StartOf(xss, i + 1)] == xss[i]
  {
    StartStep(xss, i);
    var n := |xss| - 1;
    if i == n {
      assert xss[..n + 1] == xss;
    } else {
      var ys := xss[..n];
      assert ys[..i] == xss[..i] && ys[..i + 1] == xss[..i + 1];
      PartOfConcat(ys, i);
      PrefixPart(Concat(ys), xss[n], StartOf(xss, i), StartOf(xss, i + 1));
    }
  }

  function Flat<T>(xs: seq<T>, f: T -> seq<byte>): seq<byte> {
    if xs == [] then [] else Flat(xs[..|xs| - 1], f) + f(xs[|xs| - 1])
  }

  lemma FlatPush<T>(xs: seq<T>, x: T, f: T -> seq<byte>)
    ensures Flat(xs + [x], f) == Flat(xs, f) + f(x)
  {
    assert (xs + [x])[..|xs|] == xs;
  }

  lemma {:induction false} FlatConcat<T>(xs: seq<T>, ys: seq<T>, f: T -> seq<byte>)
    ensures Flat(xs + ys, f) == Flat(xs, f) + Flat(ys, f)
  {
    if ys == [] {
      assert xs + ys == xs;
    } else {
      var n := |ys| - 1;
      calc {
        Flat(xs + ys, f);
        { assert xs + ys == xs + ys[..n] + [ys[n]]; }
        Flat(xs + ys[..n] + [ys[n]], f);
        { FlatPush(xs + ys[..n], ys[n], f); }
        Flat(xs + ys[..n], f) + f(ys[n]);
        { FlatConcat(xs, ys[..n], f); }
        Flat(xs, f) + Flat(ys[..n], f) + f(ys[n]);
        Flat(xs, f) + (Flat(ys[..n], f) + f(ys[n]));
        Flat(xs, f) + Flat(ys, f);
      }
    }
  }

  lemma {:induction false} FlatLength<T>(xs: seq<T>, f: T -> seq<byte>, w: nat)
    requires forall x :: x in xs ==> |f(x)| == w
    ensures |Flat(xs, f)| == |xs| * w
  {
    if xs != [] {
      FlatLength(xs[..|xs| - 1], f, w);
      assert |xs| * w == (|xs| - 1) * w + w;
    }
  }

  /** Fixed-width records are found again at multiples of their width. */
  lemma {:induction false} FlatRecord<T>(xs: seq<T>, f: T -> seq<byte>, w: nat, i: nat)
    requires forall x :: x in xs ==> |f(x)| == w
    requires i < |xs|
    ensures i * w + w <= |Flat(xs, f)|
    ensures Flat(xs, f)[i * w..i * w + w] == f(xs[i])
  {
    var n := |xs| - 1;
    FlatLength(xs[..n], f, w);
    if i < n {
      FlatRecord(xs[..n], f, w, i);
    }
  }

  lemma SliceOfSlice<T>(s: seq<T>, lo: nat, hi: nat, a: nat, b: nat)
    requires lo <= hi <= |s| && a <= b <= hi - lo
    ensures s[lo..hi][a..b] == s[lo + a..lo + b]
  {
    forall k | 0 <= k < b - a ensures s[lo..hi][a..b][k] == s[lo + a..lo + b][k] {
      var t := s[lo..hi];
      assert t[a..b][k] == t[a + k];
    }
  }

  lemma PartOfSection<T>(m: seq<T>, lo: nat, hi: nat, section: seq<T>, a: nat, w: nat, r: seq<T>)
    requires lo <= hi <= |m| && m[lo..hi] == section
    requires a + w <= |section| && section[a..a + w] == r
    ensures lo + a + w <= hi
    ensures m[lo + a..lo + a + w] == r
  {
    assert |m[lo..hi]| == hi - lo;
    SliceOfSlice(m, lo, hi, a, a + w);
  }

  lemma FlatRecordAt<T>(xs: seq<T>, f: T -> seq<byte>, w: nat, i: nat, a: nat)
    requires forall x :: x in xs ==> |f(x)| == w
    requires i < |xs| && a == i * w
    ensures a + w <= |Flat(xs, f)|
    ensures Flat(xs, f)[a..a + w] == f(xs[i])
  {
    FlatRecord(xs, f, w, i);
  }

  /** A record of a section that is found inside a larger byte sequence. */
  lemma RecordOfSection<T>(m: seq<byte>, lo: nat, hi: nat, xs: seq<T>, f: T -> seq<byte>, w: nat, i: nat, a: nat)
    requires lo <= hi <= |m| && m[lo..hi] == Flat(xs, f)
    requires forall x :: x in xs ==> |f(x)| == w
    requires i < |xs| && a == i * w
    ensures lo + a + w <= hi
    ensures m[lo + a..lo + a + w] == f(xs[i])
  {
    FlatRecordAt(xs, f, w, i, a);
    PartOfSection(m, lo, hi, Flat(xs, f), a, w, f(xs[i]));
  }

  /** Record i of a section of w-byte records that starts at `lo`. */
  function RecordAt(m: seq<byte>, lo: nat, w: nat, i: nat): seq<byte>
    requires lo + i * w + w <= |m|
  {
    m[lo + i * w..lo + i * w + w]
  }

  /** From `lo` on, the bytes hold the records of xs, one after the other. */
  ghost predicate Holds<T>(m: seq<byte>, lo: nat, xs: seq<T>, f: T -> seq<byte>, w: nat) {
    forall i {:trigger xs[i]} :: 0 <= i < |xs| ==> lo + i * w + w <= |m| && RecordAt(m, lo, w, i) == f(xs[i])
  }

  lemma SectionHolds<T>(m: seq<byte>, lo: nat, hi: nat, xs: seq<T>, f: T -> seq<byte>, w: nat)
    requires lo <= hi <= |m| && m[lo..hi] == Flat(xs, f)
    requires forall x :: x in xs ==> |f(x)| == w
    ensures Holds(m, lo, xs, f, w)
  {
    forall i | 0 <= i < |xs| ensures lo + i * w + w <= |m| && RecordAt(m, lo, w, i) == f(xs[i]) {
      RecordOfSection(m, lo, hi, xs, f, w, i, i * w);
    }
  }
}
