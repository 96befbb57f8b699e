/** int8 quantization: the scalar formula, the distance on codes, and how far it is from the real distance. */
module Quantization {
  import opened Vectors

  type I8 = x: int | -128 <= x < 128
  type I32 = x: int | -0x8000_0000 <= x < 0x8000_0000
  type Code = c: seq<I8> | |c| == DIMS witness seq(DIMS, _ => 0)

  /** `f32::round`: to the nearest integer, halves away from zero. */
  function Round(x: real): int {
    if x >= 0.0 then (x + 0.5).Floor else -((-x + 0.5).Floor)
  }

  /** A float-to-integer `as` cast: toward zero. */
  function Truncate(x: real): int {
    if x >= 0.0 then x.Floor else -((-x).Floor)
  }

  function Quantize(f: real): (q: I8)
    ensures -127 <= q <= 127
  {
    var v := Round(f * 127.0);
    if v > 127 then 127 else if v < -127 then -127 else v
  }

  /** The quantizer of the diagnostic binary: it truncates. */
  function QuantizeTruncating(f: real): (q: I8)
    ensures -127 <= q <= 127
  {
    var v := f * 127.0;
    if v > 127.0 then 127 else if v < -127.0 then -127 else Truncate(v)
  }

  function Abs(x: real): (r: real)
    ensures r >= 0.0 && (r == x || r == -x)
  {
    if x >= 0.0 then x else -x
  }

  /** A scaled component, kept between -127 and 127. */
  function Clamped(f: real): real {
    if f * 127.0 > 127.0 then 127.0 else if f * 127.0 < -127.0 then -127.0 else f * 127.0
  }

  /** For every real component: the production code is the integer nearest to the clamped scaled component, halves away
    from zero; the truncating code is the farthest integer not beyond it, seen from zero. */
  lemma QuantizersMeaning(f: real)
    ensures Abs(Quantize(f) as real - Clamped(f)) <= 0.5
    ensures Abs(Quantize(f) as real - Clamped(f)) == 0.5 ==> Abs(Quantize(f) as real) > Abs(Clamped(f))
    ensures Abs(QuantizeTruncating(f) as real) <= Abs(Clamped(f)) < Abs(QuantizeTruncating(f) as real) + 1.0
    ensures QuantizeTruncating(f) > 0 ==> Clamped(f) > 0.0
    ensures QuantizeTruncating(f) < 0 ==> Clamped(f) < 0.0
  {
    var x := f * 127.0;
    assert Round(x) as real - 0.5 <= x <= Round(x) as real + 0.5;
  }

  /** The truncating copy and the production quantizer give the same code exactly when the scaled
    component saturates or has a fractional part below one half. */
  lemma QuantizersAgree(f: real)
    ensures Quantize(f) == QuantizeTruncating(f)
       <==> Abs(f * 127.0) >= 127.0 || Abs(f * 127.0) - Abs(f * 127.0).Floor as real < 0.5
  {
    var x := Abs(f * 127.0);
    var n := x.Floor;
    assert (x + 0.5).Floor == if x - n as real < 0.5 then n else n + 1;
  }

  lemma QuantizersDiffer()
    ensures Quantize(0.5) == 64 && QuantizeTruncating(0.5) == 63
    ensures Quantize(-0.5) == -64 && QuantizeTruncating(-0.5) == -63
  {
    assert (63.5 as real).Floor == 63 && (64.0 as real).Floor == 64;
  }

  function Codes(v: Vec, quantize: real -> I8): (c: Code) {
    seq(DIMS, i requires 0 <= i < DIMS => quantize(v[i]))
  }

  function QuantizeVec(v: Vec): Code {
    Codes(v, Quantize)
  }

  /** The loop that fills the code array. */
  method QuantizeAll(v: Vec, quantize: real -> I8) returns (out: Code)
    ensures out == Codes(v, quantize)
  {
    var c: seq<I8> := [];
    for i := 0 to DIMS
      invariant |c| == i
      invariant forall j :: 0 <= j < i ==> c[j] == quantize(v[j])
    {
      c := c + [quantize(v[i])];
    }
    out := c;
  }

  // ---------- Distance on codes ----------

  function IntSq(x: int): (s: nat)
    ensures -255 <= x <= 255 ==> s <= 65025
  {
    SquareBound(x);
    x * x
  }

  lemma SquareBound(x: int)
    ensures x * x >= 0
    ensures -255 <= x <= 255 ==> x * x <= 65025
  {
    if -255 <= x <= 255 {
      assert (255 - x) * (255 + x) >= 0;
      assert (255 - x) * (255 + x) == 65025 - x * x;
    }
  }

  function CodeDistTo(a: Code, b: Code, n: nat): (d: nat)
    requires n <= DIMS
    ensures d <= 65025 * n
  {
    if n == 0 then 0 else
      CodeDistTo(a, b, n - 1) + IntSq(a[n - 1] as int - b[n - 1] as int)
  }

  function CodeDist(a: Code, b: Code): (d: nat)
    ensures d <= 910350
  {
    CodeDistTo(a, b, DIMS)
  }

  /** `dist_int8`: the 32-bit accumulator never overflows, for any stored bytes. */
  method DistInt8(stored: Code, query: Code) returns (sum: I32)
    ensures sum == CodeDist(stored, query)
  {
    sum := 0;
    for i := 0 to DIMS
      invariant sum == CodeDistTo(stored, query, i)
    {
      var diff: I32 := stored[i] as I32 - query[i] as I32;
      assert diff * diff == IntSq(diff);
      sum := sum + diff * diff;
    }
  }

  lemma {:induction false} CodeDistZero(a: Code, n: nat)
    requires n <= DIMS
    ensures CodeDistTo(a, a, n) == 0
  {
    if n > 0 {
      CodeDistZero(a, n - 1);
    }
  }

  // ---------- Error bound ----------

  function L1To(a: Vec, b: Vec, n: nat): (r: real)
    requires n <= DIMS
    ensures r >= 0.0
  {
    if n == 0 then 0.0 else L1To(a, b, n - 1) + Abs(a[n - 1] - b[n - 1])
  }

  lemma QuantizeError(f: real)
    requires -1.0 <= f <= 1.0
    ensures -0.5 <= Quantize(f) as real - f * 127.0 <= 0.5
  {
    var x := f * 127.0;
    assert -127.0 <= x <= 127.0;
    assert -0.5 <= Round(x) as real - x <= 0.5;
  }

  lemma TruncationError(f: real)
    requires -1.0 <= f <= 1.0
    ensures -1.0 <= QuantizeTruncating(f) as real - f * 127.0 <= 1.0
  {
    var x := f * 127.0;
    assert -127.0 <= x <= 127.0;
    assert -1.0 <= Truncate(x) as real - x <= 1.0;
  }

  /** Every code is within e of 127 times its component. */
  ghost predicate CodesWithin(v: Vec, c: Code, e: real) {
    forall j :: 0 <= j < DIMS ==> -e <= c[j] as real - 127.0 * v[j] <= e
  }

  lemma RoundedCodes(v: Vec)
    requires Within(v, -1.0, 1.0)
    ensures CodesWithin(v, QuantizeVec(v), 0.5)
  {
    forall j | 0 <= j < DIMS ensures -0.5 <= QuantizeVec(v)[j] as real - 127.0 * v[j] <= 0.5 {
      QuantizeError(v[j]);
    }
  }

  lemma TruncatedCodes(v: Vec)
    requires Within(v, -1.0, 1.0)
    ensures CodesWithin(v, Codes(v, QuantizeTruncating), 1.0)
  {
    forall j | 0 <= j < DIMS ensures -1.0 <= QuantizeTruncating(v[j]) as real - 127.0 * v[j] <= 1.0 {
      TruncationError(v[j]);
    }
  }

  lemma RealSquare(q: int)
    ensures IntSq(q) as real == q as real * q as real
  {
  }

  lemma ProductNonNegative(x: real, y: real)
    requires x >= 0.0 && y >= 0.0
    ensures x * y >= 0.0
  {
  }

  lemma ProductBound(d: real, e: real, r: real)
    requires -r <= e <= r
    ensures -(r * Abs(d)) <= d * e <= r * Abs(d)
  {
    ProductNonNegative(Abs(d), r - e);
    ProductNonNegative(Abs(d), r + e);
    assert Abs(d) * (r - e) == r * Abs(d) - Abs(d) * e;
    assert Abs(d) * (r + e) == r * Abs(d) + Abs(d) * e;
    if d < 0.0 {
      assert d * e == -(Abs(d) * e);
    }
  }

  /** How far an int8 distance over n components can be from 16129 times the real one when their L1 distance is l
    and each difference is off by at most r. */
  function Spread(r: real, l: real, n: nat): real {
    254.0 * (r * l) + n as real * (r * r)
  }

  lemma SpreadOfNothing(r: real)
    ensures Spread(r, 0.0, 0) == 0.0
  {
  }

  lemma SpreadStep(r: real, l: real, d: real, n: nat)
    ensures Spread(r, l + d, n + 1) == Spread(r, l, n) + Spread(r, d, 1)
  {
    assert r * (l + d) == r * l + r * d;
    assert (n + 1) as real * (r * r) == n as real * (r * r) + r * r;
  }

  /** One component: an error of at most r in a difference. */
  lemma SquareError(d: real, q: int, r: real)
    requires -r <= q as real - 127.0 * d <= r
    ensures -Spread(r, Abs(d), 1) <= IntSq(q) as real - 16129.0 * Sq(d) <= Spread(r, Abs(d), 1)
  {
    var e := q as real - 127.0 * d;
    RealSquare(q);
    assert q as real * q as real - 16129.0 * (d * d) == 254.0 * (d * e) + e * e;
    SqBound(e, r);
    ProductBound(d, e, r);
  }

  lemma DifferenceError(a: Vec, b: Vec, ca: Code, cb: Code, e1: real, e2: real, j: nat)
    requires j < DIMS && CodesWithin(a, ca, e1) && CodesWithin(b, cb, e2)
    ensures var s := Spread(e1 + e2, Abs(a[j] - b[j]), 1);
      -s <= IntSq(ca[j] as int - cb[j] as int) as real - 16129.0 * Sq(a[j] - b[j]) <= s
  {
    hide Spread, Sq, IntSq, Abs;
    assert -e1 <= ca[j] as real - 127.0 * a[j] <= e1 && -e2 <= cb[j] as real - 127.0 * b[j] <= e2;
    SquareError(a[j] - b[j], ca[j] as int - cb[j] as int, e1 + e2);
  }

  /** For codes within e1 and e2 of their components, the int8 distance stays within the spread. */
  lemma {:induction false} CodeDistError(a: Vec, b: Vec, ca: Code, cb: Code, e1: real, e2: real, n: nat)
    requires n <= DIMS && CodesWithin(a, ca, e1) && CodesWithin(b, cb, e2)
    ensures var s := Spread(e1 + e2, L1To(a, b, n), n);
      -s <= CodeDistTo(ca, cb, n) as real - 16129.0 * SqDistTo(a, b, n) <= s
  {
    hide Spread, Sq, IntSq, Abs, CodesWithin;
    if n == 0 {
      SpreadOfNothing(e1 + e2);
    } else {
      CodeDistError(a, b, ca, cb, e1, e2, n - 1);
      DifferenceError(a, b, ca, cb, e1, e2, n - 1);
      SpreadStep(e1 + e2, L1To(a, b, n - 1), Abs(a[n - 1] - b[n - 1]), n - 1);
    }
  }

  lemma {:induction false} L1Bound(a: Vec, b: Vec, n: nat)
    requires n <= DIMS && Within(a, -1.0, 1.0) && Within(b, -1.0, 1.0)
    ensures L1To(a, b, n) <= 2.0 * n as real
  {
    if n > 0 {
      L1Bound(a, b, n - 1);
    }
  }

  /** The largest error of an int8 distance when the stored codes are rounded and the query's codes are within e. */
  function ErrorBound(e: real): real {
    Spread(0.5 + e, 28.0, DIMS)
  }

  lemma ErrorBounds()
    ensures ErrorBound(0.5) == 7126.0 && ErrorBound(1.0) == 10699.5
  {
  }

  lemma SpreadAtMost(r: real, l: real, n: nat)
    requires r >= 0.0 && l <= 28.0
    ensures Spread(r, l, n) <= Spread(r, 28.0, n)
  {
    ProductNonNegative(r, 28.0 - l);
    assert r * (28.0 - l) == r * 28.0 - r * l;
  }

  /** Both sides rounded: at most 254 L1 + 14, hence at most 7126. */
  lemma QuantizationError(a: Vec, b: Vec)
    requires Within(a, -1.0, 1.0) && Within(b, -1.0, 1.0)
    ensures Abs(CodeDist(QuantizeVec(a), QuantizeVec(b)) as real - 16129.0 * SqDist(a, b))
         <= 254.0 * L1To(a, b, DIMS) + 14.0 <= 7126.0
  {
    hide QuantizeVec, CodeDistTo, SqDistTo, L1To, CodesWithin;
    RoundedCodes(a);
    RoundedCodes(b);
    CodeDistError(a, b, QuantizeVec(a), QuantizeVec(b), 0.5, 0.5, DIMS);
    L1Bound(a, b, DIMS);
  }

  /** Stored side rounded, query side truncated: at most 381 L1 + 31.5, hence at most 10699.5. */
  lemma MixedQuantizationError(a: Vec, b: Vec)
    requires Within(a, -1.0, 1.0) && Within(b, -1.0, 1.0)
    ensures Abs(CodeDist(QuantizeVec(a), Codes(b, QuantizeTruncating)) as real - 16129.0 * SqDist(a, b))
         <= 381.0 * L1To(a, b, DIMS) + 31.5 <= 10699.5
  {
    hide QuantizeVec, Codes, CodeDistTo, SqDistTo, L1To, CodesWithin;
    RoundedCodes(a);
    TruncatedCodes(b);
    CodeDistError(a, b, QuantizeVec(a), Codes(b, QuantizeTruncating), 0.5, 1.0, DIMS);
    L1Bound(a, b, DIMS);
  }

  lemma ErrorWithinBound(a: Vec, b: Vec, q: Code, e: real)
    requires Within(a, -1.0, 1.0) && Within(b, -1.0, 1.0) && CodesWithin(b, q, e) && e >= 0.0
    ensures -ErrorBound(e) <= CodeDist(QuantizeVec(a), q) as real - 16129.0 * SqDist(b, a) <= ErrorBound(e)
  {
    hide QuantizeVec, CodeDistTo, SqDistTo, L1To, CodesWithin, Spread;
    RoundedCodes(a);
    CodeDistError(a, b, QuantizeVec(a), q, 0.5, e, DIMS);
    L1Bound(a, b, DIMS);
    SpreadAtMost(0.5 + e, L1To(a, b, DIMS), DIMS);
    SqDistSymmetric(a, b, DIMS);
  }

  /** A gap of more than twice the error bound in 16129 times the squared distance survives quantization. */
  lemma GapSurvivesQuantization(query: Vec, q: Code, e: real, near: Vec, far: Vec)
    requires Within(query, -1.0, 1.0) && Within(near, -1.0, 1.0) && Within(far, -1.0, 1.0)
    requires CodesWithin(query, q, e) && e >= 0.0
    requires 16129.0 * SqDist(query, far) > 16129.0 * SqDist(query, near) + 2.0 * ErrorBound(e)
    ensures CodeDist(QuantizeVec(near), q) < CodeDist(QuantizeVec(far), q)
  {
    ErrorWithinBound(near, query, q, e);
    ErrorWithinBound(far, query, q, e);
  }
}
