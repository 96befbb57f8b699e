/** What a k-nearest scan must return, and how one candidate changes it. */
module TopK {
  import opened Ordering

  /** A scanned vector: its position in the index, its distance to the query, its label.

    The production searcher drops `idx`; the diagnostic search keeps it.
   */
  datatype Candidate = Candidate(idx: nat, dist: real, isFraud: bool)

  /** `kept` is a choice of the k nearest of `all` (all of them when there are fewer), however ties fall. */
  ghost predicate KNearest(kept: multiset<Candidate>, all: multiset<Candidate>, k: nat) {
    && kept <= all
    && |kept| == Min(k, |all|)
    && forall c, d :: c in kept && d in all - kept ==> c.dist <= d.dist
  }

  // ---------- One candidate at a time ----------

  /** The effect of offering c to the kept candidates: they grow while there are fewer than k; after that c takes the
    place of a farthest one when it is strictly nearer, and otherwise nothing changes. */
  ghost predicate Offered(kept: seq<Candidate>, c: Candidate, k: nat, next: seq<Candidate>) {
    if |kept| < k then multiset(next) == multiset(kept) + multiset{c}
    else if forall b :: b in kept ==> b.dist <= c.dist then next == kept
    else exists w :: w in kept && (forall b :: b in kept ==> b.dist <= w.dist)
                     && multiset(next) == multiset(kept) - multiset{w} + multiset{c}
  }

  lemma OfferedWhileFew(kept: seq<Candidate>, c: Candidate, k: nat, next: seq<Candidate>)
    requires |kept| < k && multiset(next) == multiset(kept) + multiset{c}
    ensures Offered(kept, c, k, next)
  {
  }

  lemma OfferedAndTaken(kept: seq<Candidate>, c: Candidate, k: nat, w: Candidate, next: seq<Candidate>)
    requires |kept| >= k && w in kept && (forall b :: b in multiset(kept) ==> b.dist <= w.dist) && c.dist < w.dist
    requires multiset(next) == multiset(kept) - multiset{w} + multiset{c}
    ensures Offered(kept, c, k, next)
  {
    assert forall b :: b in kept ==> b in multiset(kept);
  }

  lemma OfferedAndDropped(kept: seq<Candidate>, c: Candidate, k: nat)
    requires |kept| >= k && forall b :: b in multiset(kept) ==> b.dist <= c.dist
    ensures Offered(kept, c, k, kept)
  {
    assert forall b :: b in kept ==> b in multiset(kept);
  }

  lemma SameSize<T>(a: multiset<T>, b: multiset<T>)
    requires a <= b && |a| == |b|
    ensures a == b
  {
    assert b == a + (b - a);
    assert |b - a| == 0;
  }

  lemma SubsetOrExcess<T>(a: multiset<T>, b: multiset<T>)
    ensures a <= b || exists x :: x in a && a[x] > b[x]
  {
  }

  lemma KeepAll(kept: multiset<Candidate>, all: multiset<Candidate>, k: nat)
    requires KNearest(kept, all, k) && |all| <= k
    ensures kept == all
  {
    SameSize(kept, all);
  }

  lemma Grow(kept: multiset<Candidate>, all: multiset<Candidate>, k: nat, c: Candidate)
    requires KNearest(kept, all, k) && |kept| < k
    ensures KNearest(kept + multiset{c}, all + multiset{c}, k)
  {
    KeepAll(kept, all, k);
    assert (all + multiset{c}) - (kept + multiset{c}) == multiset{};
  }

  lemma Reject(kept: multiset<Candidate>, all: multiset<Candidate>, k: nat, c: Candidate)
    requires KNearest(kept, all, k) && |kept| == k
    requires forall b :: b in kept ==> b.dist <= c.dist
    ensures KNearest(kept, all + multiset{c}, k)
  {
    forall b, d | b in kept && d in all + multiset{c} - kept
      ensures b.dist <= d.dist
    {
      if d != c { assert d in all - kept; }
    }
  }

  lemma Replace(kept: multiset<Candidate>, all: multiset<Candidate>, k: nat, worst: Candidate, c: Candidate)
    requires KNearest(kept, all, k) && |kept| == k
    requires worst in kept && c.dist < worst.dist
    requires forall b :: b in kept ==> b.dist <= worst.dist
    ensures KNearest(kept - multiset{worst} + multiset{c}, all + multiset{c}, k)
  {
    var kept', all' := kept - multiset{worst} + multiset{c}, all + multiset{c};
    forall b, d | b in kept' && d in all' - kept'
      ensures b.dist <= d.dist
    {
      assert b == c || b in kept;
      assert d == worst || d in all - kept;
      assert b.dist <= worst.dist;
      if d != worst { assert worst.dist <= d.dist; }
    }
  }

  // ---------- The reference: sort everything, take the first k ----------

  function Dists(s: seq<Candidate>): (d: seq<real>)
    ensures |d| == |s|
  {
    seq(|s|, i requires 0 <= i < |s| => s[i].dist)
  }

  lemma DistsOfPermutation(s: seq<Candidate>, t: seq<Candidate>)
    requires multiset(s) == multiset(t)
    ensures multiset(Dists(s)) == multiset(Dists(t))
  {
    var f := (c: Candidate) => c.dist;
    MapOfPermutation(s, t, f);
    assert Dists(s) == MapSeq(s, f) && Dists(t) == MapSeq(t, f);
  }

  lemma SplitDists(kept: seq<Candidate>, all: seq<Candidate>) returns (rest: seq<Candidate>)
    requires multiset(kept) <= multiset(all)
    ensures multiset(rest) == multiset(all) - multiset(kept)
    ensures multiset(Dists(all)) == multiset(Dists(kept)) + multiset(Dists(rest))
    ensures |all| == |kept| + |rest|
  {
    rest := SeqOfMultiset(multiset(all) - multiset(kept));
    assert multiset(kept + rest) == multiset(all);
    DistsOfPermutation(kept + rest, all);
    assert Dists(kept + rest) == Dists(kept) + Dists(rest);
    assert |multiset(kept + rest)| == |multiset(all)|;
  }

  ghost predicate AllBelow(a: seq<real>, b: seq<real>) {
    forall i, j :: 0 <= i < |a| && 0 <= j < |b| ==> a[i] <= b[j]
  }

  lemma NearestFirst(kept: seq<Candidate>, rest: seq<Candidate>)
    ensures (forall c, d :: c in multiset(kept) && d in multiset(rest) ==> c.dist <= d.dist)
       <==> AllBelow(Sort(Dists(kept)), Sort(Dists(rest)))
  {
    var a, b := Sort(Dists(kept)), Sort(Dists(rest));
    if forall c, d :: c in multiset(kept) && d in multiset(rest) ==> c.dist <= d.dist {
      forall i, j | 0 <= i < |a| && 0 <= j < |b| ensures a[i] <= b[j] {
        var c := FromDist(kept, a[i]);
        var d := FromDist(rest, b[j]);
        assert c in multiset(kept) && d in multiset(rest);
      }
    }
    if AllBelow(a, b) {
      forall c, d | c in multiset(kept) && d in multiset(rest) ensures c.dist <= d.dist {
        var i := InDists(kept, c);
        var j := InDists(rest, d);
      }
    }
  }

  lemma PrefixIsSmallest(a: seq<real>, b: seq<real>, s: seq<real>)
    requires Sorted(a) && Sorted(b) && Sorted(s)
    requires multiset(s) == multiset(a) + multiset(b) && |s| == |a| + |b|
    ensures a == s[..|a|] <==> AllBelow(a, b)
  {
    if a == s[..|a|] {
      assert s == a + s[|a|..];
      assert multiset(s) == multiset(a) + multiset(s[|a|..]);
      assert multiset(b) == multiset(s) - multiset(a);
      SortedUnique(b, s[|a|..]);
    }
    if AllBelow(a, b) {
      SortedConcat(a, b);
      SortedUnique(a + b, s);
    }
  }

  lemma SortedConcat(a: seq<real>, b: seq<real>)
    requires Sorted(a) && Sorted(b) && AllBelow(a, b)
    ensures Sorted(a + b)
  {
  }

  /** A choice of candidates is a k-nearest choice exactly when its sorted distances
    are the first k sorted distances of the whole stream. */
  lemma KNearestIsSortedPrefix(kept: seq<Candidate>, all: seq<Candidate>, k: nat)
    requires multiset(kept) <= multiset(all)
    ensures KNearest(multiset(kept), multiset(all), k)
       <==> Sort(Dists(kept)) == Sort(Dists(all))[..Min(k, |all|)]
  {
    var rest := SplitDists(kept, all);
    SortSorts(Dists(kept));
    SortSorts(Dists(rest));
    SortSorts(Dists(all));
    NearestFirst(kept, rest);
    PrefixIsSmallest(Sort(Dists(kept)), Sort(Dists(rest)), Sort(Dists(all)));
  }

  lemma FromDist(s: seq<Candidate>, x: real) returns (c: Candidate)
    requires x in Sort(Dists(s))
    ensures c in s && c.dist == x
  {
    SortSorts(Dists(s));
    assert x in multiset(Dists(s));
    var i :| 0 <= i < |s| && Dists(s)[i] == x;
    c := s[i];
  }

  lemma InDists(s: seq<Candidate>, c: Candidate) returns (i: nat)
    requires c in multiset(s)
    ensures i < |Sort(Dists(s))| && Sort(Dists(s))[i] == c.dist
  {
    SortSorts(Dists(s));
    var j :| 0 <= j < |s| && s[j] == c;
    assert Dists(s)[j] == c.dist;
    assert c.dist in multiset(Sort(Dists(s)));
    i :| 0 <= i < |Sort(Dists(s))| && Sort(Dists(s))[i] == c.dist;
  }

  /** Any two k-nearest choices from the same stream have the same distances, whatever the ties. */
  lemma KNearestDistsAgree(a: seq<Candidate>, b: seq<Candidate>, all: seq<Candidate>, k: nat)
    requires KNearest(multiset(a), multiset(all), k) && KNearest(multiset(b), multiset(all), k)
    ensures Sort(Dists(a)) == Sort(Dists(b)) && multiset(Dists(a)) == multiset(Dists(b))
  {
    KNearestIsSortedPrefix(a, all, k);
    KNearestIsSortedPrefix(b, all, k);
    SortSorts(Dists(a));
    SortSorts(Dists(b));
  }

  /** k elements of the stream that beat all the others: the only possible answer. */
  ghost predicate Separated(best: multiset<Candidate>, all: multiset<Candidate>, k: nat) {
    && best <= all
    && |best| == Min(k, |all|)
    && forall c, d :: c in best && d in all - best ==> c.dist < d.dist
  }

  lemma SeparatedIsUnique(best: multiset<Candidate>, kept: multiset<Candidate>, all: multiset<Candidate>, k: nat)
    requires Separated(best, all, k) && KNearest(kept, all, k)
    ensures kept == best
  {
    SubsetOrExcess(kept, best);
    SubsetOrExcess(best, kept);
    assert forall d :: d in kept && kept[d] > best[d] ==> d in all - best;
    assert forall c :: c in best && best[c] > kept[c] ==> c in all - kept;
    if kept <= best {
      SameSize(kept, best);
    } else if best <= kept {
      SameSize(best, kept);
    } else {
      assert false;
    }
  }

  /** The k-th and the (k+1)-th smallest distance differ, or there are no more than k candidates. */
  ghost predicate GapAt(all: seq<Candidate>, k: nat) {
    k < |all| ==> k == 0 || Sort(Dists(all))[k - 1] < Sort(Dists(all))[k]
  }

  lemma SortedSuffix(s: seq<real>, m: nat, b: seq<real>)
    requires Sorted(s) && Sorted(b) && m <= |s|
    requires multiset(s) == multiset(s[..m]) + multiset(b)
    ensures b == s[m..]
  {
    assert s == s[..m] + s[m..];
    SortedSuffixIsSorted(s, m);
    assert multiset(b) == multiset(s) - multiset(s[..m]);
    assert multiset(s[m..]) == multiset(s) - multiset(s[..m]);
    SortedUnique(s[m..], b);
  }

  lemma SortedSuffixIsSorted(s: seq<real>, m: nat)
    requires Sorted(s) && m <= |s|
    ensures Sorted(s[m..])
  {
  }

  /** The candidates not kept, and how the sorted distances divide between the two. */
  lemma SortedSplit(a: seq<Candidate>, all: seq<Candidate>, k: nat) returns (rest: seq<Candidate>)
    requires KNearest(multiset(a), multiset(all), k)
    ensures multiset(rest) == multiset(all) - multiset(a)
    ensures |a| == Min(k, |all|) && |a| + |rest| == |all|
    ensures Sort(Dists(a)) == Sort(Dists(all))[..|a|]
    ensures Sort(Dists(rest)) == Sort(Dists(all))[|a|..]
  {
    hide Sort, KNearest;
    KNearestSize(a, all, k);
    rest := SplitDists(a, all);
    KNearestIsSortedPrefix(a, all, k);
    SortSorts(Dists(all));
    SortSorts(Dists(a));
    SortSorts(Dists(rest));
    var s := Sort(Dists(all));
    assert s[..|a|] == Sort(Dists(a));
    assert multiset(s) == multiset(s[..|a|]) + multiset(Sort(Dists(rest)));
    SortedSuffix(s, |a|, Sort(Dists(rest)));
  }

  lemma KNearestSize(a: seq<Candidate>, all: seq<Candidate>, k: nat)
    requires KNearest(multiset(a), multiset(all), k)
    ensures |a| == Min(k, |all|) && multiset(a) <= multiset(all)
  {
    assert |multiset(a)| == |a| && |multiset(all)| == |all|;
  }

  lemma GapSeparates(a: seq<Candidate>, all: seq<Candidate>, k: nat)
    requires KNearest(multiset(a), multiset(all), k) && GapAt(all, k)
    ensures Separated(multiset(a), multiset(all), k)
  {
    hide Sort;
    var s := Sort(Dists(all));
    var rest := SortedSplit(a, all, k);
    SortSorts(Dists(all));
    forall c, d | c in multiset(a) && d in multiset(all) - multiset(a) ensures c.dist < d.dist {
      var i := InDists(a, c);
      assert d in multiset(rest);
      var j := InDists(rest, d);
      assert s[i] == c.dist && s[|a| + j] == d.dist;
      assert s[i] <= s[k - 1] < s[k] <= s[|a| + j];
    }
  }

  /** Without a gap at k another choice is just as good. */
  lemma TieMakesAmbiguous(a: seq<Candidate>, all: seq<Candidate>, k: nat) returns (b: multiset<Candidate>)
    requires KNearest(multiset(a), multiset(all), k) && !GapAt(all, k) && Distinct(all)
    ensures KNearest(b, multiset(all), k) && b != multiset(a)
  {
    hide Sort;
    var s := Sort(Dists(all));
    var rest := SortedSplit(a, all, k);
    SortSorts(Dists(all));
    assert Sort(Dists(a))[k - 1] == s[k - 1] && Sort(Dists(rest))[0] == s[k];
    var c := FromDist(a, s[k - 1]);
    var d := FromDist(rest, s[k]);
    assert c in multiset(a) && d in multiset(rest);
    b := multiset(a) - multiset{c} + multiset{d};
    DistinctCounts(all);
    SwapTied(multiset(a), multiset(all), k, c, d);
  }

  /** Over candidates that are all different, the choice is unique exactly when there is a gap at k. */
  lemma UniqueIffGap(a: seq<Candidate>, all: seq<Candidate>, k: nat)
    requires KNearest(multiset(a), multiset(all), k) && Distinct(all)
    ensures GapAt(all, k) <==> forall b :: KNearest(b, multiset(all), k) ==> b == multiset(a)
  {
    if GapAt(all, k) {
      forall b | KNearest(b, multiset(all), k) ensures b == multiset(a) {
        GapSeparates(a, all, k);
        SeparatedIsUnique(multiset(a), b, multiset(all), k);
      }
    } else {
      var b := TieMakesAmbiguous(a, all, k);
    }
  }

  lemma SwapTied(a: multiset<Candidate>, all: multiset<Candidate>, k: nat, c: Candidate, d: Candidate)
    requires KNearest(a, all, k) && c in a && d in all - a && c.dist == d.dist && d !in a
    ensures KNearest(a - multiset{c} + multiset{d}, all, k)
    ensures a - multiset{c} + multiset{d} != a
  {
    var b := a - multiset{c} + multiset{d};
    assert b[d] == 1 && a[d] == 0;
    forall x, y | x in b && y in all - b ensures x.dist <= y.dist {
      assert x == d || x in a;
      assert y == c || y in all - a;
    }
  }

  /** More candidates can only bring the kept distances down, position by position. */
  lemma MoreCandidatesAreNoWorse(a: seq<Candidate>, all: seq<Candidate>, a': seq<Candidate>, all': seq<Candidate>,
                                 k: nat)
    requires multiset(all) <= multiset(all')
    requires KNearest(multiset(a), multiset(all), k) && KNearest(multiset(a'), multiset(all'), k)
    ensures |a| <= |a'|
    ensures forall i :: 0 <= i < |a| ==> Sort(Dists(a'))[i] <= Sort(Dists(a))[i]
  {
    hide Sort, KNearest;
    KNearestSize(a, all, k);
    KNearestSize(a', all', k);
    KNearestIsSortedPrefix(a, all, k);
    KNearestIsSortedPrefix(a', all', k);
    var extra := SplitDists(all, all');
    assert multiset(Dists(extra) + Dists(all)) == multiset(Dists(all'));
    SortDependsOnElements(Dists(extra) + Dists(all), Dists(all'));
    ExtendLowers(Dists(all), Dists(extra));
  }

  // ---------- Choices from streams without repetitions ----------

  lemma SmallCountsAreDistinct<T>(s: seq<T>)
    requires forall x :: multiset(s)[x] <= 1
    ensures Distinct(s)
  {
    forall i, j | 0 <= i < j < |s| ensures s[i] != s[j] {
      TwiceIn(s, i, j);
    }
  }

  lemma NearestOfDistinct(kept: seq<Candidate>, met: seq<Candidate>, k: nat)
    requires KNearest(multiset(kept), multiset(met), k) && forall c :: multiset(met)[c] <= 1
    ensures Distinct(kept) && |kept| <= k && forall c :: c in kept ==> c in met
    ensures forall c, d :: c in kept && d in met && d !in kept ==> c.dist <= d.dist
    ensures |kept| < k ==> forall c :: c in met ==> c in kept
  {
    assert |multiset(kept)| == |kept|;
    SmallCountsAreDistinct(kept);
    forall c | c in kept ensures c in met {
      assert c in multiset(kept);
    }
    forall c, d | c in kept && d in met && d !in kept ensures c.dist <= d.dist {
      assert c in multiset(kept) && d in multiset(met) - multiset(kept);
    }
    if |kept| < k {
      SameSize(multiset(kept), multiset(met));
      forall c | c in met ensures c in kept {
        assert c in multiset(met);
      }
    }
  }

  // ---------- Counting frauds ----------

  function FraudCount(s: seq<Candidate>): (n: nat)
    ensures n <= |s|
  {
    if s == [] then 0 else FraudCount(s[..|s| - 1]) + if s[|s| - 1].isFraud then 1 else 0
  }

  /** The positions that hold a fraud. */
  function Frauds(s: seq<Candidate>): set<nat> {
    set i | 0 <= i < |s| && s[i].isFraud
  }

  /** It is the number of positions that hold a fraud. */
  lemma {:induction false} FraudCountIsSize(s: seq<Candidate>)
    ensures FraudCount(s) == |set i | 0 <= i < |s| && s[i].isFraud|
  {
    if s == [] {
      assert Frauds(s) == {};
    } else {
      var n := |s| - 1;
      FraudCountIsSize(s[..n]);
      assert Frauds(s) == if s[n].isFraud then Frauds(s[..n]) + {n} else Frauds(s[..n]);
    }
  }

  lemma {:induction false} FraudCountOfConcat(s: seq<Candidate>, t: seq<Candidate>)
    ensures FraudCount(s + t) == FraudCount(s) + FraudCount(t)
  {
    if t == [] {
      assert s + t == s;
    } else {
      assert (s + t)[..|s + t| - 1] == s + t[..|t| - 1];
      FraudCountOfConcat(s, t[..|t| - 1]);
    }
  }

  lemma FraudCountMiddle(a: seq<Candidate>, x: Candidate, b: seq<Candidate>)
    ensures FraudCount(a + [x] + b) == FraudCount(a + b) + FraudCount([x])
  {
    FraudCountOfConcat(a, b);
    FraudCountOfConcat(a, [x]);
    FraudCountOfConcat(a + [x], b);
  }

  lemma {:induction false} FraudCountOfPermutation(s: seq<Candidate>, t: seq<Candidate>)
    requires multiset(s) == multiset(t)
    ensures FraudCount(s) == FraudCount(t)
  {
    hide FraudCount;
    SameLength(s, t);
    if s == [] {
      assert s == t;
    } else {
      var n := |s| - 1;
      DropLast(s);
      assert s[n] in multiset(t);
      var i := WhereIs(t, s[n]);
      RemoveOne(t, i);
      var a, b := t[..i], t[i + 1..];
      assert t == a + [t[i]] + b;
      FraudCountOfPermutation(s[..n], a + b);
      FraudCountMiddle(a, t[i], b);
      FraudCountOfConcat(s[..n], [s[n]]);
    }
  }
}
