/** The lock-free latency histogram: three atomic additions per sample, and percentiles read from the buckets. */
module Timing {
  import opened Ordering
  import opened IndexFormat

  const BOUNDS: seq<nat> := [10, 50, 100, 250, 500, 1000, 5000]
  const N: nat := 8

  function BucketFrom(us: nat, i: nat): (b: nat)
    requires i <= 7
    ensures i <= b <= 7
    ensures b < 7 ==> us < BOUNDS[b]
    ensures forall j :: i <= j < b ==> us >= BOUNDS[j]
    decreases 7 - i
  {
    if i == 7 || us < BOUNDS[i] then i else BucketFrom(us, i + 1)
  }

  /** The first bound above the sample, or the open-ended last bucket. */
  function BucketOf(us: nat): (b: nat)
    ensures b < N
  {
    BucketFrom(us, 0)
  }

  /** The eight buckets in microseconds. */
  lemma BucketMeaning(us: nat)
    ensures BucketOf(us) == 0 <==> us < 10
    ensures BucketOf(us) == 1 <==> 10 <= us < 50
    ensures BucketOf(us) == 2 <==> 50 <= us < 100
    ensures BucketOf(us) == 3 <==> 100 <= us < 250
    ensures BucketOf(us) == 4 <==> 250 <= us < 500
    ensures BucketOf(us) == 5 <==> 500 <= us < 1000
    ensures BucketOf(us) == 6 <==> 1000 <= us < 5000
    ensures BucketOf(us) == 7 <==> 5000 <= us
  {
    var b := BucketFrom(us, 0);
    assert b < 7 ==> us < BOUNDS[b];
    assert b > 0 ==> us >= BOUNDS[b - 1];
  }

  lemma BucketsAreOrdered(a: nat, b: nat)
    requires a <= b
    ensures BucketOf(a) <= BucketOf(b)
  {
  }

  /** `fetch_add` on a 64-bit counter wraps. */
  function Add64(a: U64, b: nat): U64 {
    (a + b) % TWO64
  }

  datatype Stats = Stats(sumUs: U64, count: U64, buckets: seq<U64>)

  predicate ValidStats(s: Stats) { |s.buckets| == N }

  const ZERO: Stats := Stats(0, 0, [0, 0, 0, 0, 0, 0, 0, 0])

  // The three atomic steps of `record`.

  function AddSum(s: Stats, us: U64): Stats {
    s.(sumUs := Add64(s.sumUs, us))
  }

  function AddCount(s: Stats): Stats {
    s.(count := Add64(s.count, 1))
  }

  function AddBucket(s: Stats, us: U64): Stats
    requires ValidStats(s)
  {
    s.(buckets := s.buckets[BucketOf(us) := Add64(s.buckets[BucketOf(us)], 1)])
  }

  // ---------- The object ----------

  class PhaseStats {
    var sumUs: U64
    var count: U64
    const buckets: array<U64>

    ghost predicate Valid()
      reads this
    {
      buckets.Length == N
    }

    function Snapshot(): Stats
      reads this, buckets
    {
      Stats(sumUs, count, buckets[..])
    }

    constructor ()
      ensures Valid() && fresh(buckets) && Snapshot() == ZERO
    {
      sumUs, count := 0, 0;
      buckets := new U64[N](_ => 0);
    }

    /** `record`, run alone. */
    method Record(us: U64)
      requires Valid()
      modifies this, buckets
      ensures Valid() && Snapshot() == AddBucket(AddCount(AddSum(old(Snapshot()), us)), us)
    {
      sumUs := Add64(sumUs, us);
      count := Add64(count, 1);
      var idx := BucketOf(us);
      buckets[idx] := Add64(buckets[idx], 1);
    }

    /** The percentile closure of `report`: the first bucket whose running total reaches the target. */
    method Percentile(pct: real) returns (bucket: nat)
      requires Valid() && 0.0 <= pct <= 1.0
      ensures bucket == FirstReaching(buckets[..], Target(count, pct))
    {
      var target := (count as real * pct).Floor;
      var cum: U64 := 0;
      for i := 0 to N
        invariant cum == Cumulative(buckets[..], i)
        invariant forall j :: 0 <= j < i ==> !ReachesAt(buckets[..], target, j)
      {
        cum := Add64(cum, buckets[i]);
        assert cum == Cumulative(buckets[..], i + 1);
        if cum >= target {
          assert ReachesAt(buckets[..], target, i);
          FirstReachingIs(buckets[..], target, i);
          return i;
        }
      }
      FirstReachingIs(buckets[..], target, N - 1);
      return N - 1;
    }
  }

  lemma ScaledNonNegative(n: nat, pct: real)
    requires pct >= 0.0
    ensures n as real * pct >= 0.0
  {
  }

  function Target(n: U64, pct: real): (t: nat)
    requires 0.0 <= pct <= 1.0
  {
    ScaledNonNegative(n, pct);
    (n as real * pct).Floor
  }

  function Cumulative(buckets: seq<U64>, n: nat): U64
    requires n <= |buckets|
  {
    if n == 0 then 0 else Add64(Cumulative(buckets, n - 1), buckets[n - 1])
  }

  /** The running total including bucket j is at least the target. */
  predicate ReachesAt(buckets: seq<U64>, target: nat, j: nat)
    requires |buckets| == N && j < N
  {
    Cumulative(buckets, j + 1) >= target
  }

  function FirstReachingFrom(buckets: seq<U64>, target: nat, i: nat): (b: nat)
    requires |buckets| == N && i < N
    ensures i <= b < N
    ensures b < N - 1 ==> ReachesAt(buckets, target, b)
    ensures forall j :: i <= j < b ==> !ReachesAt(buckets, target, j)
    decreases N - i
  {
    if i == N - 1 || ReachesAt(buckets, target, i) then i else FirstReachingFrom(buckets, target, i + 1)
  }

  function FirstReaching(buckets: seq<U64>, target: nat): (b: nat)
    requires |buckets| == N
    ensures b < N
  {
    FirstReachingFrom(buckets, target, 0)
  }

  lemma FirstReachingIs(buckets: seq<U64>, target: nat, i: nat)
    requires |buckets| == N && i < N && (i == N - 1 || ReachesAt(buckets, target, i))
    requires forall j :: 0 <= j < i ==> !ReachesAt(buckets, target, j)
    ensures FirstReaching(buckets, target) == i
  {
  }

  // ---------- Interleaved recorders ----------

  /** Where a recorder stands: outside, after the first addition, or after the second. */
  datatype Phase = Idle | Summed(us: U64) | Counted(us: U64)

  /** The shared counters, every recorder's position, and the history of samples begun and finished. */
  datatype System = System(stats: Stats, recorders: seq<Phase>, begun: seq<U64>, finished: seq<U64>)

  datatype Action = Begin(who: nat, us: U64) | Tally(who: nat) | Finish(who: nat)

  predicate Enabled(s: System, a: Action) {
    ValidStats(s.stats) && a.who < |s.recorders| &&
    match a
    case Begin(_, _) => s.recorders[a.who].Idle?
    case Tally(_) => s.recorders[a.who].Summed?
    case Finish(_) => s.recorders[a.who].Counted?
  }

  /** One atomic step of one recorder. */
  function Do(s: System, a: Action): (s': System)
    requires Enabled(s, a)
    ensures ValidStats(s'.stats) && |s'.recorders| == |s.recorders|
  {
    match a
    case Begin(who, us) =>
      s.(stats := AddSum(s.stats, us), recorders := s.recorders[who := Summed(us)], begun := s.begun + [us])
    case Tally(who) =>
      s.(stats := AddCount(s.stats), recorders := s.recorders[who := Counted(s.recorders[who].us)])
    case Finish(who) =>
      var us := s.recorders[who].us;
      s.(stats := AddBucket(s.stats, us), recorders := s.recorders[who := Idle], finished := s.finished + [us])
  }

  function Start(recorders: nat): System {
    System(ZERO, seq(recorders, _ => Idle), [], [])
  }

  /** Every action is enabled when its turn comes. */
  predicate CanRun(s: System, actions: seq<Action>)
    decreases |actions|
  {
    actions == [] || (Enabled(s, actions[0]) && CanRun(Do(s, actions[0]), actions[1..]))
  }

  /** An interleaving: any enabled actions of any recorders in any order. */
  function Execute(s: System, actions: seq<Action>): System
    requires CanRun(s, actions)
    decreases |actions|
  {
    if actions == [] then s else Execute(Do(s, actions[0]), actions[1..])
  }

  function Sum(samples: seq<U64>): nat {
    if samples == [] then 0 else Sum(samples[..|samples| - 1]) + samples[|samples| - 1]
  }

  /** How many samples fall in bucket b. */
  function Hist(samples: seq<U64>, b: nat): (h: nat)
    ensures h <= |samples|
  {
    if samples == [] then 0 else
      Hist(samples[..|samples| - 1], b) + if BucketOf(samples[|samples| - 1]) == b then 1 else 0
  }

  function Carried(p: Phase): multiset<U64> {
    if p.Idle? then multiset{} else multiset{p.us}
  }

  /** The samples of recorders that have begun and not finished. */
  function InFlight(recorders: seq<Phase>): multiset<U64> {
    if recorders == [] then multiset{} else InFlight(recorders[..|recorders| - 1]) + Carried(recorders[|recorders| - 1])
  }

  /** The recorders between their second and third step. */
  function BetweenCountAndBucket(recorders: seq<Phase>): nat {
    if recorders == [] then 0 else
      var n := |recorders| - 1;
      BetweenCountAndBucket(recorders[..n]) + if recorders[n].Counted? then 1 else 0
  }

  ghost predicate Inv(s: System) {
    && ValidStats(s.stats)
    && s.stats.sumUs == Sum(s.begun) % TWO64
    && s.stats.count == (|s.finished| + BetweenCountAndBucket(s.recorders)) % TWO64
    && (forall b :: 0 <= b < N ==> s.stats.buckets[b] == Hist(s.finished, b) % TWO64)
    && multiset(s.begun) == multiset(s.finished) + InFlight(s.recorders)
  }

  lemma {:induction false} UpdateBetween(r: seq<Phase>, who: nat, p: Phase)
    requires who < |r|
    ensures BetweenCountAndBucket(r[who := p]) + (if r[who].Counted? then 1 else 0)
         == BetweenCountAndBucket(r) + (if p.Counted? then 1 else 0)
  {
    var n := |r| - 1;
    if who == n {
      assert r[who := p][..n] == r[..n];
    } else {
      UpdateBetween(r[..n], who, p);
      assert r[who := p][..n] == r[..n][who := p];
    }
  }

  lemma {:induction false} UpdateInFlight(r: seq<Phase>, who: nat, p: Phase)
    requires who < |r|
    ensures InFlight(r[who := p]) + Carried(r[who]) == InFlight(r) + Carried(p)
  {
    hide Carried;
    var n := |r| - 1;
    if who == n {
      assert r[who := p][..n] == r[..n];
    } else {
      UpdateInFlight(r[..n], who, p);
      assert r[who := p][..n] == r[..n][who := p];
      var last := Carried(r[n]);
      assert InFlight(r[who := p]) == InFlight(r[..n][who := p]) + last;
      assert InFlight(r) == InFlight(r[..n]) + last;
      calc {
        InFlight(r[who := p]) + Carried(r[who]);
        InFlight(r[..n][who := p]) + Carried(r[..n][who]) + last;
        InFlight(r[..n]) + Carried(p) + last;
        InFlight(r) + Carried(p);
      }
    }
  }

  lemma AddMod(a: nat, b: nat)
    ensures (a % TWO64 + b) % TWO64 == (a + b) % TWO64
  {
    var q := a / TWO64;
    assert a + b == TWO64 * q + (a % TWO64 + b);
  }

  lemma SumPush(samples: seq<U64>, us: U64)
    ensures Sum(samples + [us]) == Sum(samples) + us
  {
    assert (samples + [us])[..|samples|] == samples;
  }

  lemma BeginKeepsInv(s: System, who: nat, us: U64)
    requires Inv(s) && Enabled(s, Begin(who, us))
    ensures Inv(Do(s, Begin(who, us)))
  {
    hide Hist, BetweenCountAndBucket, InFlight, BucketOf, Sum;
    UpdateBetween(s.recorders, who, Summed(us));
    UpdateInFlight(s.recorders, who, Summed(us));
    assert InFlight(s.recorders[who := Summed(us)]) == InFlight(s.recorders) + multiset{us};
    AddMod(Sum(s.begun), us);
    SumPush(s.begun, us);
    assert multiset(s.begun + [us]) == multiset(s.begun) + multiset{us};
  }

  lemma SameAfterBoth(a: multiset<U64>, b: multiset<U64>, c: multiset<U64>)
    requires a + c == b + c
    ensures a == b
  {
    assert a == (a + c) - c;
  }

  lemma TallyKeepsInv(s: System, who: nat)
    requires Inv(s) && Enabled(s, Tally(who))
    ensures Inv(Do(s, Tally(who)))
  {
    hide Hist, BetweenCountAndBucket, InFlight, Sum;
    var us := s.recorders[who].us;
    UpdateBetween(s.recorders, who, Counted(us));
    UpdateInFlight(s.recorders, who, Counted(us));
    SameAfterBoth(InFlight(s.recorders[who := Counted(us)]), InFlight(s.recorders), multiset{us});
    AddMod(|s.finished| + BetweenCountAndBucket(s.recorders), 1);
  }

  lemma FinishKeepsInv(s: System, who: nat)
    requires Inv(s) && Enabled(s, Finish(who))
    ensures Inv(Do(s, Finish(who)))
  {
    hide BetweenCountAndBucket, InFlight, Sum, BucketOf;
    var us := s.recorders[who].us;
    var finished' := s.finished + [us];
    UpdateBetween(s.recorders, who, Idle);
    UpdateInFlight(s.recorders, who, Idle);
    assert InFlight(s.recorders[who := Idle]) + multiset{us} == InFlight(s.recorders);
    assert finished'[..|finished'| - 1] == s.finished;
    AddMod(Hist(s.finished, BucketOf(us)), 1);
    assert multiset(finished') == multiset(s.finished) + multiset{us};
  }

  lemma StepKeepsInv(s: System, a: Action)
    requires Inv(s) && Enabled(s, a)
    ensures Inv(Do(s, a))
  {
    hide Inv, Do, Enabled;
    match a {
      case Begin(who, us) => BeginKeepsInv(s, who, us);
      case Tally(who) => TallyKeepsInv(s, who);
      case Finish(who) => FinishKeepsInv(s, who);
    }
  }

  lemma {:induction false} StartInv(recorders: nat)
    ensures BetweenCountAndBucket(seq(recorders, _ => Idle)) == 0 && InFlight(seq(recorders, _ => Idle)) == multiset{}
  {
    QuietCounts(seq(recorders, _ => Idle));
  }

  lemma {:induction false} ExecuteKeepsInv(s: System, actions: seq<Action>)
    requires Inv(s) && CanRun(s, actions)
    ensures Inv(Execute(s, actions))
    decreases |actions|
  {
    hide Inv, Do, Enabled;
    if actions != [] {
      StepKeepsInv(s, actions[0]);
      ExecuteKeepsInv(Do(s, actions[0]), actions[1..]);
    }
  }

  /** Safety over every interleaving of any number of recorders. */
  lemma InterleavingKeepsInv(recorders: nat, actions: seq<Action>)
    requires CanRun(Start(recorders), actions)
    ensures Inv(Execute(Start(recorders), actions))
  {
    StartInv(recorders);
    ExecuteKeepsInv(Start(recorders), actions);
  }

  /** Nobody is recording. */
  predicate Quiet(r: seq<Phase>) {
    forall i :: 0 <= i < |r| ==> r[i].Idle?
  }

  lemma {:induction false} QuietCounts(r: seq<Phase>)
    requires Quiet(r)
    ensures BetweenCountAndBucket(r) == 0 && InFlight(r) == multiset{}
  {
    if r != [] {
      QuietCounts(r[..|r| - 1]);
    }
  }

  /** A recorder that is not interrupted does exactly what `record` run alone does. */
  lemma RecordIsThreeSteps(s: System, who: nat, us: U64)
    requires Enabled(s, Begin(who, us))
    ensures var actions := [Begin(who, us), Tally(who), Finish(who)];
      && CanRun(s, actions)
      && Execute(s, actions).stats == AddBucket(AddCount(AddSum(s.stats, us)), us)
      && Execute(s, actions).recorders == s.recorders
  {
    var actions := [Begin(who, us), Tally(who), Finish(who)];
    var s1 := Do(s, actions[0]);
    var s2 := Do(s1, actions[1]);
    assert actions[1..] == [Tally(who), Finish(who)] && actions[1..][1..] == [Finish(who)];
    assert actions[1..][1..][1..] == [];
    assert CanRun(s2, [Finish(who)]);
    assert CanRun(s1, actions[1..]);
    assert Execute(s2, [Finish(who)]) == Do(s2, Finish(who));
    assert Execute(s1, actions[1..]) == Do(s2, Finish(who));
  }

  // ---------- Count against buckets ----------

  function HistTo(samples: seq<U64>, n: nat): nat {
    if n == 0 then 0 else HistTo(samples, n - 1) + Hist(samples, n - 1)
  }

  lemma {:induction false} HistToPush(samples: seq<U64>, us: U64, n: nat)
    ensures HistTo(samples + [us], n) == HistTo(samples, n) + if BucketOf(us) < n then 1 else 0
  {
    if n > 0 {
      HistToPush(samples, us, n - 1);
      assert (samples + [us])[..|samples|] == samples;
    }
  }

  lemma {:induction false} HistOfNothing(n: nat)
    ensures HistTo([], n) == 0
  {
    if n > 0 {
      HistOfNothing(n - 1);
    }
  }

  /** Every sample is in exactly one bucket. */
  lemma {:induction false} HistTotal(samples: seq<U64>)
    ensures HistTo(samples, N) == |samples|
  {
    if samples == [] {
      HistOfNothing(N);
    } else {
      var n := |samples| - 1;
      HistTotal(samples[..n]);
      HistToPush(samples[..n], samples[n], N);
      assert samples == samples[..n] + [samples[n]];
    }
  }

  lemma {:induction false} CumulativeIsHist(buckets: seq<U64>, samples: seq<U64>, n: nat)
    requires |buckets| == N && n <= N && forall b :: 0 <= b < N ==> buckets[b] == Hist(samples, b) % TWO64
    ensures Cumulative(buckets, n) == HistTo(samples, n) % TWO64
  {
    if n > 0 {
      CumulativeIsHist(buckets, samples, n - 1);
      AddMod(HistTo(samples, n - 1), buckets[n - 1]);
      AddMod(Hist(samples, n - 1), HistTo(samples, n - 1));
    }
  }

  lemma CountAgainstBuckets(s: System)
    requires Inv(s)
    ensures s.stats.count == Add64(Cumulative(s.stats.buckets, N), BetweenCountAndBucket(s.recorders))
  {
    hide Hist, Cumulative, HistTo, BetweenCountAndBucket, InFlight, Sum;
    CumulativeIsHist(s.stats.buckets, s.finished, N);
    HistTotal(s.finished);
    AddMod(|s.finished|, BetweenCountAndBucket(s.recorders));
  }

  /** In every reachable state the count exceeds the bucket total, modulo 2^64, by the recorders that have
    counted their sample and not yet put it in a bucket. */
  lemma CountMinusBuckets(recorders: nat, actions: seq<Action>)
    requires CanRun(Start(recorders), actions)
    ensures var s := Execute(Start(recorders), actions);
      && ValidStats(s.stats)
      && s.stats.count == Add64(Cumulative(s.stats.buckets, N), BetweenCountAndBucket(s.recorders))
  {
    hide Execute, CanRun, Cumulative;
    InterleavingKeepsInv(recorders, actions);
    CountAgainstBuckets(Execute(Start(recorders), actions));
  }

  lemma QuietIsExact(s: System)
    requires Inv(s) && Quiet(s.recorders) && |s.begun| < TWO64
    ensures multiset(s.finished) == multiset(s.begun) && |s.finished| == |s.begun|
    ensures s.stats.count == |s.begun| && s.stats.sumUs == Sum(s.begun) % TWO64
    ensures forall b :: 0 <= b < N ==> s.stats.buckets[b] == Hist(s.finished, b)
  {
    hide Hist, BetweenCountAndBucket, InFlight, Sum;
    QuietCounts(s.recorders);
    SameLength(s.finished, s.begun);
  }

  /** Once idle, whatever the interleaving was, the counters describe exactly the samples that were begun. */
  lemma QuietStateIsExact(recorders: nat, actions: seq<Action>)
    requires CanRun(Start(recorders), actions)
    requires Quiet(Execute(Start(recorders), actions).recorders) && |Execute(Start(recorders), actions).begun| < TWO64
    ensures var s := Execute(Start(recorders), actions);
      && ValidStats(s.stats)
      && multiset(s.finished) == multiset(s.begun)
      && s.stats.count == |s.begun| && s.stats.sumUs == Sum(s.begun) % TWO64
      && forall b :: 0 <= b < N ==> s.stats.buckets[b] == Hist(s.finished, b)
  {
    hide Execute, CanRun, Hist, Sum;
    InterleavingKeepsInv(recorders, actions);
    QuietIsExact(Execute(Start(recorders), actions));
  }

  // ---------- Percentiles ----------

  ghost predicate SortedSamples(s: seq<U64>) {
    forall i, j :: 0 <= i < j < |s| ==> s[i] <= s[j]
  }

  /** Sorted samples fill the buckets in order. */
  lemma {:induction false} BucketOfSorted(s: seq<U64>, j: nat, b: nat)
    requires SortedSamples(s) && j < |s| && b < N
    ensures BucketOf(s[j]) <= b <==> j < HistTo(s, b + 1)
    ensures HistTo(s, b + 1) <= |s|
  {
    var n := |s| - 1;
    HistToPush(s[..n], s[n], b + 1);
    assert s == s[..n] + [s[n]];
    HistToBound(s[..n], b + 1);
    if j < n {
      BucketOfSorted(s[..n], j, b);
      BucketsAreOrdered(s[j], s[n]);
    } else if n > 0 {
      BucketOfSorted(s[..n], n - 1, b);
      BucketsAreOrdered(s[n - 1], s[n]);
    }
  }

  lemma {:induction false} HistToBound(s: seq<U64>, n: nat)
    ensures HistTo(s, n) <= |s|
  {
    if s == [] {
      HistOfNothing(n);
    } else {
      var m := |s| - 1;
      HistToBound(s[..m], n);
      HistToPush(s[..m], s[m], n);
      assert s == s[..m] + [s[m]];
    }
  }

  function SampleBucket(us: U64): nat { BucketOf(us) }

  /** A histogram entry counts the samples whose bucket it is. */
  lemma {:induction false} HistIsMultiplicity(s: seq<U64>, b: nat)
    ensures Hist(s, b) == multiset(MapSeq<U64, nat>(s, SampleBucket))[b]
  {
    hide BucketOf;
    if s != [] {
      var n := |s| - 1;
      HistIsMultiplicity(s[..n], b);
      assert MapSeq<U64, nat>(s, SampleBucket) == MapSeq<U64, nat>(s[..n], SampleBucket) + [SampleBucket(s[n])];
    }
  }

  lemma HistOfPermutation(x: seq<U64>, y: seq<U64>, b: nat)
    requires multiset(x) == multiset(y)
    ensures Hist(x, b) == Hist(y, b)
  {
    hide Hist, MapSeq;
    HistIsMultiplicity(x, b);
    HistIsMultiplicity(y, b);
    MapOfPermutation<U64, nat>(x, y, SampleBucket);
  }

  /** In a quiet state a target of at least 1 names the bucket of the target-th smallest sample. */
  lemma PercentileMeaning(buckets: seq<U64>, samples: seq<U64>, sorted: seq<U64>, target: nat)
    requires |buckets| == N && |samples| < TWO64 && forall b :: 0 <= b < N ==> buckets[b] == Hist(samples, b)
    requires multiset(sorted) == multiset(samples) && SortedSamples(sorted)
    requires 1 <= target <= |samples| == |sorted|
    ensures FirstReaching(buckets, target) == BucketOf(sorted[target - 1])
  {
    hide Hist, HistTo, BucketOf, FirstReaching, Cumulative;
    var k := BucketOf(sorted[target - 1]);
    forall j | 0 <= j < N ensures ReachesAt(buckets, target, j) <==> k <= j {
      CumulativeOfSorted(buckets, samples, sorted, j + 1);
      BucketOfSorted(sorted, target - 1, j);
    }
    FirstReachingIs(buckets, target, k);
  }

  lemma CumulativeOfSorted(buckets: seq<U64>, samples: seq<U64>, sorted: seq<U64>, n: nat)
    requires |buckets| == N && n <= N && |samples| < TWO64 && forall b :: 0 <= b < N ==> buckets[b] == Hist(samples, b)
    requires multiset(sorted) == multiset(samples)
    ensures Cumulative(buckets, n) == HistTo(sorted, n)
  {
    hide Hist, HistTo, Cumulative;
    SameLength(sorted, samples);
    forall b | 0 <= b < N ensures buckets[b] == Hist(sorted, b) % TWO64 {
      HistOfPermutation(sorted, samples, b);
    }
    CumulativeIsHist(buckets, sorted, n);
    HistToBound(sorted, n);
  }

  /** A larger target never names an earlier bucket: the p50 bucket is at most the p99 bucket. */
  lemma PercentilesAreOrdered(buckets: seq<U64>, target: nat, target': nat)
    requires |buckets| == N && target <= target'
    ensures FirstReaching(buckets, target) <= FirstReaching(buckets, target')
  {
    assert forall j :: 0 <= j < N ==> ReachesAt(buckets, target', j) ==> ReachesAt(buckets, target, j);
  }

  function Ceil(x: real): (r: int)
    ensures r as real - 1.0 < x <= r as real
  {
    -((-x).Floor)
  }

  /** The rank that the nearest-rank method gives a percentile: pct times the number of samples, rounded up. */
  function NearestRank(n: nat, pct: real): int {
    Ceil(n as real * pct)
  }

  lemma ProductWithin(n: real, pct: real)
    requires n >= 1.0 && 0.0 < pct <= 1.0
    ensures 0.0 < n * pct <= n
  {
  }

  lemma CeilAndFloor(x: real, n: nat)
    requires 0.0 < x <= n as real
    ensures 1 <= Ceil(x) <= n && x.Floor <= Ceil(x) <= x.Floor + 1
    ensures x == x.Floor as real ==> Ceil(x) == x.Floor
  {
  }

  lemma NearestRankIs(n: U64, pct: real)
    requires n >= 1 && 0.0 < pct <= 1.0
    ensures 1 <= NearestRank(n, pct) <= n
    ensures Target(n, pct) <= NearestRank(n, pct) <= Target(n, pct) + 1
    ensures n as real * pct == Target(n, pct) as real ==> NearestRank(n, pct) == Target(n, pct)
  {
    hide Ceil;
    ProductWithin(n as real, pct);
    CeilAndFloor(n as real * pct, n);
  }

  lemma FirstBucket(us: U64)
    ensures BucketOf(us) == 0 <==> us < 10
  {
  }

  lemma TargetOfReported(n: U64, pct: real)
    requires n >= 1 && (pct == 0.5 || pct == 0.99)
    ensures Target(n, pct) <= n
    ensures Target(n, pct) == 0 <==> n == 1
  {
    if n >= 2 {
      assert n as real * pct >= 1.0;
    }
  }

  /** What a reported label says of the percentile by nearest rank. The code rounds the rank down: it is the nearest
    rank r or one less, the label is never too late, and it names the bucket of the r-th smallest sample exactly when
    the sample one rank below shares that bucket (and always when pct times n is whole). At rank 0 the label is the
    first, which is right exactly when the smallest sample is below 10. */
  lemma ReportedPercentile(buckets: seq<U64>, samples: seq<U64>, sorted: seq<U64>, pct: real)
    requires |buckets| == N && |samples| < TWO64 && forall b :: 0 <= b < N ==> buckets[b] == Hist(samples, b)
    requires multiset(sorted) == multiset(samples) && SortedSamples(sorted) && |sorted| == |samples| >= 1
    requires 0.0 < pct <= 1.0
    ensures var t, r := Target(|samples|, pct), NearestRank(|samples|, pct);
      var named := FirstReaching(buckets, t);
      && 1 <= r <= |samples| && t <= r <= t + 1
      && named <= BucketOf(sorted[r - 1])
      && (named == BucketOf(sorted[r - 1]) <==>
          if t == 0 then sorted[0] < 10 else BucketOf(sorted[t - 1]) == BucketOf(sorted[r - 1]))
      && (|samples| as real * pct == t as real ==> named == BucketOf(sorted[r - 1]))
      && (pct == 0.5 || pct == 0.99 ==> (t == 0 <==> |samples| == 1))
  {
    hide Hist, Cumulative, HistTo, FirstReaching, Target, NearestRank, BucketOf;
    var target, rank := Target(|samples|, pct), NearestRank(|samples|, pct);
    NearestRankIs(|samples|, pct);
    if pct == 0.5 || pct == 0.99 {
      TargetOfReported(|samples|, pct);
    }
    if target == 0 {
      assert ReachesAt(buckets, 0, 0);
      FirstReachingIs(buckets, 0, 0);
      FirstBucket(sorted[0]);
    } else {
      PercentileMeaning(buckets, samples, sorted, target);
      BucketsAreOrdered(sorted[target - 1], sorted[rank - 1]);
    }
  }

  lemma BucketsOfWitness()
    ensures BucketOf(5) == 0 && BucketOf(60) == 2 && BucketOf(6000) == 7
  {
  }

  lemma HistOfTwo(x: U64, y: U64, b: nat)
    ensures Hist([x, y], b) == (if BucketOf(x) == b then 1 else 0) + (if BucketOf(y) == b then 1 else 0)
  {
    assert [x, y][..1] == [x] && [x][..0] == [];
  }

  lemma HistOfThree(x: U64, y: U64, z: U64, b: nat)
    ensures Hist([x, y, z], b) == (if BucketOf(x) == b then 1 else 0) + (if BucketOf(y) == b then 1 else 0)
      + (if BucketOf(z) == b then 1 else 0)
  {
    HistOfTwo(x, y, b);
    assert [x, y, z][..2] == [x, y];
  }

  lemma FirstOfOne(buckets: seq<U64>)
    requires |buckets| == N && buckets[0] == 1
    ensures FirstReaching(buckets, 1) == 0
  {
    assert Cumulative(buckets, 1) == Add64(Cumulative(buckets, 0), 1);
  }

  /** The rounding shows with three samples: of 5, 60 and 60 microseconds the reported p50 is the first label while the
    median lies in the third bucket. */
  lemma LowMedianIsReported()
    ensures forall b :: 0 <= b < N ==> [1, 0, 2, 0, 0, 0, 0, 0][b] == Hist([5, 60, 60], b)
    ensures FirstReaching([1, 0, 2, 0, 0, 0, 0, 0], Target(3, 0.5)) == 0
    ensures NearestRank(3, 0.5) == 2 && BucketOf([5, 60, 60][1]) == 2
  {
    hide Hist, BucketOf, FirstReaching;
    BucketsOfWitness();
    forall b | 0 <= b < N ensures [1, 0, 2, 0, 0, 0, 0, 0][b] == Hist([5, 60, 60], b) {
      HistOfThree(5, 60, 60, b);
    }
    FirstOfOne([1, 0, 2, 0, 0, 0, 0, 0]);
  }

  /** And with two: of 5 and 6000 microseconds the reported p99 is the first label, and the larger sample lies in the
    last bucket. */
  lemma LowTailIsReported()
    ensures forall b :: 0 <= b < N ==> [1, 0, 0, 0, 0, 0, 0, 1][b] == Hist([5, 6000], b)
    ensures FirstReaching([1, 0, 0, 0, 0, 0, 0, 1], Target(2, 0.99)) == 0
    ensures NearestRank(2, 0.99) == 2 && BucketOf([5, 6000][1]) == 7
  {
    hide Hist, BucketOf, FirstReaching;
    BucketsOfWitness();
    forall b | 0 <= b < N ensures [1, 0, 0, 0, 0, 0, 0, 1][b] == Hist([5, 6000], b) {
      HistOfTwo(5, 6000, b);
    }
    FirstOfOne([1, 0, 0, 0, 0, 0, 0, 1]);
  }
}
