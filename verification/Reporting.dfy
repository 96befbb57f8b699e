/** The latency report, read counter by counter while recorders run. */
module Reporting {
  import opened IndexFormat
  import opened Timing

  // ---------- One atomic load at a time ----------

  /** How far `report` has come: before the count is read, in the first or the second scan of the buckets (`cum` is the
    running total of the buckets below `at`), or done. `from` and `to` note how many samples had been finished when the
    first and the last bucket were read. */
  datatype Report =
    | NotStarted
    | NoData
    | First(n: U64, from: nat, cum: U64, at: nat)
    | Second(n: U64, from: nat, p50: nat, cum: U64, at: nat)
    | Reported(n: U64, from: nat, p50: nat, p99: nat, to: nat)

  predicate Loading(r: Report) {
    r.NotStarted? || (r.First? && r.at < N) || (r.Second? && r.at < N)
  }

  /** The next load: the count, or one more bucket of the scan in progress. */
  function LoadNext(s: System, r: Report): Report
    requires ValidStats(s.stats) && Loading(r)
  {
    match r
    case NotStarted => if s.stats.count == 0 then NoData else First(s.stats.count, 0, 0, 0)
    case First(n, from, cum, at) =>
      var cum' := Add64(cum, s.stats.buckets[at]);
      var from' := if at == 0 then |s.finished| else from;
      if cum' >= Target(n, 0.5) || at == N - 1 then Second(n, from', at, 0, 0) else First(n, from', cum', at + 1)
    case Second(n, from, p50, cum, at) =>
      var cum' := Add64(cum, s.stats.buckets[at]);
      if cum' >= Target(n, 0.99) || at == N - 1 then Reported(n, from, p50, at, |s.finished|)
      else Second(n, from, p50, cum', at + 1)
  }

  datatype Observed = Observed(sys: System, report: Report)

  datatype Event = Recorder(action: Action) | Load

  predicate Possible(o: Observed, e: Event) {
    match e
    case Recorder(a) => Enabled(o.sys, a)
    case Load => ValidStats(o.sys.stats) && Loading(o.report)
  }

  function Next(o: Observed, e: Event): Observed
    requires Possible(o, e)
  {
    match e
    case Recorder(a) => o.(sys := Do(o.sys, a))
    case Load => o.(report := LoadNext(o.sys, o.report))
  }

  predicate CanObserve(o: Observed, events: seq<Event>)
    decreases |events|
  {
    events == [] || (Possible(o, events[0]) && CanObserve(Next(o, events[0]), events[1..]))
  }

  /** An interleaving of one report with any number of recorders. */
  function Observe(o: Observed, events: seq<Event>): Observed
    requires CanObserve(o, events)
    decreases |events|
  {
    if events == [] then o else Observe(Next(o, events[0]), events[1..])
  }

  function Unread(recorders: nat): Observed {
    Observed(Start(recorders), NotStarted)
  }

  // ---------- Growing histories ----------

  lemma {:induction false} HistGrows(samples: seq<U64>, k: nat, b: nat)
    requires k <= |samples|
    ensures Hist(samples[..k], b) <= Hist(samples, b)
    decreases |samples|
  {
    hide BucketOf;
    var n := |samples| - 1;
    if k <= n {
      HistGrows(samples[..n], k, b);
      assert samples[..n][..k] == samples[..k];
    } else {
      assert samples[..k] == samples;
    }
  }

  /** d more samples add at most d to a running total. */
  lemma {:induction false} HistToGrows(samples: seq<U64>, i: nat, j: nat, b: nat)
    requires i <= j <= |samples|
    ensures HistTo(samples[..i], b) <= HistTo(samples[..j], b) <= HistTo(samples[..i], b) + (j - i)
    decreases j
  {
    hide HistTo, BucketOf;
    if i < j {
      HistToGrows(samples, i, j - 1, b);
      HistToPush(samples[..j - 1], samples[j - 1], b);
      assert samples[..j] == samples[..j - 1] + [samples[j - 1]];
    }
  }

  lemma {:induction false} HistToMonotone(samples: seq<U64>, a: nat, b: nat)
    requires a <= b
    ensures HistTo(samples, a) <= HistTo(samples, b)
    decreases b
  {
    if a < b {
      HistToMonotone(samples, a, b - 1);
    }
  }

  // ---------- What the report knows ----------

  /** Bounds on what has been read, in terms of the samples finished at the first read and so far. */
  ghost predicate Reading(finished: seq<U64>, r: Report) {
    match r
    case NotStarted => true
    case NoData => true
    case First(n, from, cum, at) =>
      at < N && from <= |finished| && HistTo(finished[..from], at) <= cum <= HistTo(finished, at)
      && (at > 0 ==> cum < Target(n, 0.5))
    case Second(n, from, p50, cum, at) =>
      at < N && p50 < N && from <= |finished| && cum <= HistTo(finished, at)
      && (p50 > 0 ==> HistTo(finished[..from], p50) < Target(n, 0.5))
    case Reported(n, from, p50, p99, to) =>
      p50 < N && p99 < N && from <= to <= |finished|
      && (p50 > 0 ==> HistTo(finished[..from], p50) < Target(n, 0.5))
      && (p99 < N - 1 ==> Target(n, 0.99) <= HistTo(finished[..to], p99 + 1))
  }

  /** The counters follow the history, and so does the report while the history is shorter than the counters wrap. */
  ghost predicate ObservedInv(o: Observed) {
    Inv(o.sys) && (|o.sys.finished| < TWO64 ==> Reading(o.sys.finished, o.report))
  }

  /** Finishing a sample keeps every bound. */
  lemma ReadingGrows(finished: seq<U64>, us: U64, r: Report)
    requires Reading(finished, r)
    ensures Reading(finished + [us], r)
  {
    hide HistTo, Target;
    if r.First? || r.Second? {
      HistToPush(finished, us, r.at);
      assert (finished + [us])[..r.from] == finished[..r.from];
    } else if r.Reported? {
      assert (finished + [us])[..r.from] == finished[..r.from];
      assert (finished + [us])[..r.to] == finished[..r.to];
    }
  }

  lemma InvBucket(s: System, b: nat)
    requires Inv(s) && b < N
    ensures ValidStats(s.stats) && s.stats.buckets[b] == Hist(s.finished, b) % TWO64
  {
    hide Hist, Sum, BetweenCountAndBucket, InFlight;
  }

  /** Reading one more bucket adds its part of the history, without wrapping. */
  lemma BucketRead(s: System, cum: U64, at: nat)
    requires Inv(s) && |s.finished| < TWO64 && at < N && cum <= HistTo(s.finished, at)
    ensures Add64(cum, s.stats.buckets[at]) == cum + Hist(s.finished, at) <= HistTo(s.finished, at + 1)
  {
    hide Hist, Inv;
    InvBucket(s, at);
    HistToBound(s.finished, at + 1);
  }

  lemma FirstScanReads(s: System, r: Report)
    requires Inv(s) && |s.finished| < TWO64 && r.First? && Reading(s.finished, r)
    ensures Reading(s.finished, LoadNext(s, r))
  {
    hide Inv, Hist, Target;
    var from := if r.at == 0 then |s.finished| else r.from;
    InvBucket(s, r.at);
    BucketRead(s, r.cum, r.at);
    HistGrows(s.finished, from, r.at);
    assert HistTo(s.finished[..from], r.at + 1) == HistTo(s.finished[..from], r.at) + Hist(s.finished[..from], r.at);
    assert s.finished[..|s.finished|] == s.finished;
    assert HistTo(s.finished, 0) == 0;
  }

  lemma SecondScanReads(s: System, r: Report)
    requires Inv(s) && |s.finished| < TWO64 && r.Second? && Reading(s.finished, r)
    ensures Reading(s.finished, LoadNext(s, r))
  {
    hide Inv, Hist, Target, HistTo;
    InvBucket(s, r.at);
    BucketRead(s, r.cum, r.at);
    assert s.finished[..|s.finished|] == s.finished;
    assert HistTo(s.finished, 0) == 0 by { HistToZero(s.finished); }
  }

  lemma HistToZero(samples: seq<U64>)
    ensures HistTo(samples, 0) == 0
  {
  }

  lemma EventKeepsInv(o: Observed, e: Event)
    requires ObservedInv(o) && Possible(o, e)
    ensures ObservedInv(Next(o, e))
  {
    hide Inv, Reading;
    match e {
      case Recorder(a) =>
        StepKeepsInv(o.sys, a);
        if a.Finish? && |o.sys.finished| < TWO64 {
          ReadingGrows(o.sys.finished, o.sys.recorders[a.who].us, o.report);
        }
      case Load =>
        if |o.sys.finished| < TWO64 {
          LoadKeepsReading(o.sys, o.report);
        }
    }
  }

  lemma LoadKeepsReading(s: System, r: Report)
    requires Inv(s) && |s.finished| < TWO64 && ValidStats(s.stats) && Loading(r) && Reading(s.finished, r)
    ensures Reading(s.finished, LoadNext(s, r))
  {
    hide Inv, Target;
    match r {
      case NotStarted => HistToZero(s.finished[..0]);
      case First(_, _, _, _) => FirstScanReads(s, r);
      case Second(_, _, _, _, _) => SecondScanReads(s, r);
    }
  }

  lemma {:induction false} ObserveKeepsInv(o: Observed, events: seq<Event>)
    requires ObservedInv(o) && CanObserve(o, events)
    ensures ObservedInv(Observe(o, events))
    decreases |events|
  {
    hide ObservedInv, Next, Possible;
    if events != [] {
      EventKeepsInv(o, events[0]);
      ObserveKeepsInv(Next(o, events[0]), events[1..]);
    }
  }

  // ---------- The count ----------

  /** Once the count is read, the report keeps it: it stays without data, or it stays a report over that count. */
  lemma {:induction false} CountIsKept(o: Observed, events: seq<Event>)
    requires CanObserve(o, events) && !o.report.NotStarted?
    ensures var r, r' := o.report, Observe(o, events).report;
      if r.NoData? then r'.NoData? else !r'.NotStarted? && !r'.NoData? && r'.n == r.n
    decreases |events|
  {
    hide Do, Enabled, Target;
    if events != [] {
      CountIsKept(Next(o, events[0]), events[1..]);
    }
  }

  /** A report that has started read the count at one moment of the run. It has no data exactly when the count was 0 at
    that moment; otherwise it is over that count, which is positive. */
  lemma {:induction false} CountIsReadOnce(o: Observed, events: seq<Event>) returns (i: nat)
    requires CanObserve(o, events) && o.report.NotStarted? && !Observe(o, events).report.NotStarted?
    ensures i < |events| && events[i].Load? && CanObserve(o, events[..i]) && Observe(o, events[..i]).report.NotStarted?
    ensures var count, r := Observe(o, events[..i]).sys.stats.count, Observe(o, events).report;
      && (r.NoData? <==> count == 0)
      && (!r.NoData? ==> r.n == count > 0)
    decreases |events|
  {
    hide Do, Enabled, Target;
    if events[0].Load? {
      i := 0;
      assert events[..0] == [];
      CountIsKept(Next(o, events[0]), events[1..]);
    } else {
      var j := CountIsReadOnce(Next(o, events[0]), events[1..]);
      i := j + 1;
      assert events[..i][1..] == events[1..][..j] && events[..i][0] == events[0];
    }
  }

  // ---------- The two percentiles ----------

  lemma OrderFromReading(finished: seq<U64>, r: Report)
    requires r.Reported? && Reading(finished, r)
    requires r.to - r.from <= Target(r.n, 0.99) - Target(r.n, 0.5)
    ensures r.p50 <= r.p99
  {
    hide HistTo, Target;
    if r.p99 < r.p50 {
      HistToGrows(finished, r.from, r.to, r.p99 + 1);
      HistToMonotone(finished[..r.from], r.p99 + 1, r.p50);
    }
  }

  lemma StartIsKnown(recorders: nat)
    ensures ObservedInv(Unread(recorders))
  {
    InterleavingKeepsInv(recorders, []);
  }

  /** Over every interleaving: the reported p50 is not after the reported p99 as long as, between the first and the last
    bucket read, no more samples are finished than the two targets lie apart. */
  lemma ReportIsOrdered(recorders: nat, events: seq<Event>)
    requires CanObserve(Unread(recorders), events)
    requires Observe(Unread(recorders), events).report.Reported?
    requires |Observe(Unread(recorders), events).sys.finished| < TWO64
    ensures var r := Observe(Unread(recorders), events).report;
      r.to - r.from <= Target(r.n, 0.99) - Target(r.n, 0.5) ==> r.p50 <= r.p99
  {
    hide Observe, CanObserve, Inv, Target, Reading;
    StartIsKnown(recorders);
    ObserveKeepsInv(Unread(recorders), events);
    var o := Observe(Unread(recorders), events);
    if o.report.to - o.report.from <= Target(o.report.n, 0.99) - Target(o.report.n, 0.5) {
      OrderFromReading(o.sys.finished, o.report);
    }
  }

  // ---------- A report that is not interrupted ----------

  lemma {:induction false} ObserveConcat(o: Observed, a: seq<Event>, b: seq<Event>)
    requires CanObserve(o, a) && CanObserve(Observe(o, a), b)
    ensures CanObserve(o, a + b) && Observe(o, a + b) == Observe(Observe(o, a), b)
    decreases |a|
  {
    hide Possible, Next;
    if a == [] {
      assert a + b == b;
    } else {
      ObserveConcat(Next(o, a[0]), a[1..], b);
      assert (a + b)[0] == a[0] && (a + b)[1..] == a[1..] + b;
    }
  }

  lemma ObserveOne(o: Observed, e: Event)
    requires Possible(o, e)
    ensures CanObserve(o, [e]) && Observe(o, [e]) == Next(o, e)
  {
    assert [e][1..] == [];
  }

  predicate OnlyLoads(events: seq<Event>) {
    forall i :: 0 <= i < |events| ==> events[i].Load?
  }

  lemma {:induction false} FirstScanAlone(s: System, n: U64, from: nat, at: nat) returns (events: seq<Event>)
    requires ValidStats(s.stats) && at < N
    requires forall j :: 0 <= j < at ==> !ReachesAt(s.stats.buckets, Target(n, 0.5), j)
    ensures var o := Observed(s, First(n, from, Cumulative(s.stats.buckets, at), at));
      && OnlyLoads(events) && CanObserve(o, events)
      && Observe(o, events) == Observed(s, Second(n, if at == 0 then |s.finished| else from,
                                                  FirstReaching(s.stats.buckets, Target(n, 0.5)), 0, 0))
    decreases N - at
  {
    hide Target, FirstReaching, Cumulative, Observe, CanObserve;
    var buckets, o := s.stats.buckets, Observed(s, First(n, from, Cumulative(s.stats.buckets, at), at));
    ObserveOne(o, Load);
    CumulativeStep(buckets, at);
    if at == N - 1 || ReachesAt(buckets, Target(n, 0.5), at) {
      FirstReachingIs(buckets, Target(n, 0.5), at);
      events := [Load];
    } else {
      var rest := FirstScanAlone(s, n, if at == 0 then |s.finished| else from, at + 1);
      ObserveConcat(o, [Load], rest);
      events := [Load] + rest;
    }
  }

  lemma CumulativeStep(buckets: seq<U64>, n: nat)
    requires n < |buckets|
    ensures Cumulative(buckets, n + 1) == Add64(Cumulative(buckets, n), buckets[n])
  {
  }

  lemma {:induction false} SecondScanAlone(s: System, n: U64, from: nat, p50: nat, at: nat)
    returns (events: seq<Event>)
    requires ValidStats(s.stats) && at < N
    requires forall j :: 0 <= j < at ==> !ReachesAt(s.stats.buckets, Target(n, 0.99), j)
    ensures var o := Observed(s, Second(n, from, p50, Cumulative(s.stats.buckets, at), at));
      && OnlyLoads(events) && CanObserve(o, events)
      && Observe(o, events) == Observed(s, Reported(n, from, p50, FirstReaching(s.stats.buckets, Target(n, 0.99)),
                                                    |s.finished|))
    decreases N - at
  {
    hide Target, FirstReaching, Cumulative, Observe, CanObserve;
    var buckets, o := s.stats.buckets, Observed(s, Second(n, from, p50, Cumulative(s.stats.buckets, at), at));
    ObserveOne(o, Load);
    CumulativeStep(buckets, at);
    if at == N - 1 || ReachesAt(buckets, Target(n, 0.99), at) {
      FirstReachingIs(buckets, Target(n, 0.99), at);
      events := [Load];
    } else {
      var rest := SecondScanAlone(s, n, from, p50, at + 1);
      ObserveConcat(o, [Load], rest);
      events := [Load] + rest;
    }
  }

  lemma CountRead(s: System) returns (events: seq<Event>)
    requires ValidStats(s.stats) && s.stats.count > 0
    ensures var o, count := Observed(s, NotStarted), s.stats.count;
      && OnlyLoads(events) && CanObserve(o, events)
      && Observe(o, events) == Observed(s, Second(count, |s.finished|,
                                                  FirstReaching(s.stats.buckets, Target(count, 0.5)), 0, 0))
  {
    hide Target, FirstReaching, Observe, CanObserve;
    ObserveOne(Observed(s, NotStarted), Load);
    var rest := FirstScanAlone(s, s.stats.count, 0, 0);
    ObserveConcat(Observed(s, NotStarted), [Load], rest);
    events := [Load] + rest;
  }

  /** Nobody interrupting, the report names what the percentile loop run alone names, for both percentiles. */
  lemma UninterruptedReport(s: System) returns (events: seq<Event>)
    requires ValidStats(s.stats) && s.stats.count > 0
    ensures var o, count := Observed(s, NotStarted), s.stats.count;
      && OnlyLoads(events) && CanObserve(o, events)
      && Observe(o, events) == Observed(s, Reported(count, |s.finished|,
                                                    FirstReaching(s.stats.buckets, Target(count, 0.5)),
                                                    FirstReaching(s.stats.buckets, Target(count, 0.99)), |s.finished|))
  {
    hide Target, FirstReaching, Observe, CanObserve;
    var first := CountRead(s);
    var p50 := FirstReaching(s.stats.buckets, Target(s.stats.count, 0.5));
    var second := SecondScanAlone(s, s.stats.count, |s.finished|, p50, 0);
    assert Cumulative(s.stats.buckets, 0) == 0;
    ObserveConcat(Observed(s, NotStarted), first, second);
    events := first + second;
  }

  // ---------- A report that is ----------

  /** n recorders with one sample of 5 microseconds each: the first `done` have finished, the others up to `counted`
    stand before their last step, the rest have not begun. */
  function Crowd(n: nat, counted: nat, done: nat): System
    requires done <= counted <= n < TWO64
  {
    System(Stats(5 * counted % TWO64, counted, [done, 0, 0, 0, 0, 0, 0, 0]),
           seq(n, i => if done <= i < counted then Counted(5) else Idle),
           seq(counted, _ => 5), seq(done, _ => 5))
  }

  lemma OneMoreCounted(n: nat, counted: nat, r: Report) returns (events: seq<Event>)
    requires counted < n < TWO64
    ensures var o := Observed(Crowd(n, counted, 0), r);
      CanObserve(o, events) && Observe(o, events) == Observed(Crowd(n, counted + 1, 0), r)
  {
    hide Observe, CanObserve;
    var o := Observed(Crowd(n, counted, 0), r);
    var begin, tally := Recorder(Begin(counted, 5)), Recorder(Tally(counted));
    ObserveOne(o, begin);
    ObserveOne(Next(o, begin), tally);
    ObserveConcat(o, [begin], [tally]);
    AddMod(5 * counted, 5);
    var sys, target := Next(Next(o, begin), tally).sys, Crowd(n, counted + 1, 0);
    assert sys.recorders == target.recorders;
    assert sys.begun == target.begun;
    events := [begin] + [tally];
  }

  lemma OneMoreDone(n: nat, done: nat, r: Report) returns (events: seq<Event>)
    requires done < n < TWO64
    ensures var o := Observed(Crowd(n, n, done), r);
      CanObserve(o, events) && Observe(o, events) == Observed(Crowd(n, n, done + 1), r)
  {
    hide Observe, CanObserve;
    var o := Observed(Crowd(n, n, done), r);
    var finish := Recorder(Finish(done));
    ObserveOne(o, finish);
    var sys, target := Next(o, finish).sys, Crowd(n, n, done + 1);
    assert BucketOf(5) == 0;
    assert sys.recorders == target.recorders;
    assert sys.finished == target.finished;
    assert sys.stats.buckets == target.stats.buckets;
    events := [finish];
  }

  lemma {:induction false} AllCounted(n: nat, counted: nat) returns (events: seq<Event>)
    requires counted <= n < TWO64
    ensures CanObserve(Unread(n), events)
    ensures Observe(Unread(n), events) == Observed(Crowd(n, counted, 0), NotStarted)
  {
    hide Crowd;
    if counted == 0 {
      CrowdStarts(n);
      events := [];
    } else {
      var front := AllCounted(n, counted - 1);
      var last := OneMoreCounted(n, counted - 1, NotStarted);
      ObserveConcat(Unread(n), front, last);
      events := front + last;
    }
  }

  lemma CrowdStarts(n: nat)
    requires n < TWO64
    ensures Crowd(n, 0, 0) == Start(n)
  {
    assert Crowd(n, 0, 0).recorders == Start(n).recorders;
  }

  lemma {:induction false} SomeFinish(n: nat, done: nat, done': nat, r: Report) returns (events: seq<Event>)
    requires done <= done' <= n < TWO64
    ensures var o := Observed(Crowd(n, n, done), r);
      CanObserve(o, events) && Observe(o, events) == Observed(Crowd(n, n, done'), r)
    decreases done'
  {
    hide Crowd;
    var o := Observed(Crowd(n, n, done), r);
    if done == done' {
      events := [];
    } else {
      var front := SomeFinish(n, done, done' - 1, r);
      var last := OneMoreDone(n, done' - 1, r);
      ObserveConcat(o, front, last);
      events := front + last;
    }
  }

  lemma {:induction false} CrowdCumulative(done: U64, n: nat)
    requires n <= N
    ensures Cumulative([done, 0, 0, 0, 0, 0, 0, 0], n) == if n == 0 then 0 else done
  {
    if n > 0 {
      CrowdCumulative(done, n - 1);
    }
  }

  lemma NothingReaches(done: U64, target: nat)
    requires done < target
    ensures FirstReaching([done, 0, 0, 0, 0, 0, 0, 0], target) == N - 1
  {
    var buckets: seq<U64> := [done, 0, 0, 0, 0, 0, 0, 0];
    forall j | 0 <= j < N ensures !ReachesAt(buckets, target, j) {
      CrowdCumulative(done, j + 1);
    }
    FirstReachingIs(buckets, target, N - 1);
  }

  lemma TargetsOfMany(n: U64)
    requires n >= 2
    ensures 1 <= Target(n, 0.5) <= Target(n, 0.99) <= n
  {
  }

  /** The bound is sharp for every count from two on: with one finish more, some interleaving reports the last label for
    p50 and the first for p99. With two recorders a single finish between the scans does it. */
  lemma ReportCanInvert(n: U64) returns (events: seq<Event>)
    requires n >= 2
    ensures CanObserve(Unread(n), events)
    ensures var r := Observe(Unread(n), events).report;
      && r.Reported? && r.n == n && r.p50 == 7 && r.p99 == 0
      && r.to - r.from == Target(n, 0.99) - Target(n, 0.5) + 1
  {
    hide Observe, CanObserve, Target, FirstReaching;
    var early, late := Target(n, 0.5) - 1, Target(n, 0.99);
    TargetsOfMany(n);
    var counted := AllCounted(n, n);
    var some := SomeFinish(n, 0, early, NotStarted);
    ObserveConcat(Unread(n), counted, some);
    var s := Crowd(n, n, early);
    var scan := CountRead(s);
    NothingReaches(early, Target(n, 0.5));
    ObserveConcat(Unread(n), counted + some, scan);
    var half := Second(n, early, 7, 0, 0);
    var more := SomeFinish(n, early, late, half);
    ObserveConcat(Unread(n), counted + some + scan, more);
    var o := Observed(Crowd(n, n, late), half);
    ObserveOne(o, Load);
    ObserveConcat(Unread(n), counted + some + scan + more, [Load]);
    events := counted + some + scan + more + [Load];
  }
}
