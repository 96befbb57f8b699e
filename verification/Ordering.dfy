/** Sorted sequences, permutations, and the two library sorts the searcher calls.

  The contracts of the unstable sorts say nothing about elements with equal keys:
  whatever is proved from them holds for every order in which ties may come out.
 */
module Ordering {

  ghost predicate Sorted(s: seq<real>) {
    forall i, j :: 0 <= i < j < |s| ==> s[i] <= s[j]
  }

  ghost predicate SortedBy<T>(s: seq<T>, key: T -> real) {
    forall i, j :: 0 <= i < j < |s| ==> key(s[i]) <= key(s[j])
  }

  ghost predicate Distinct<T>(s: seq<T>) {
    forall i, j :: 0 <= i < j < |s| ==> s[i] != s[j]
  }

  function Min(a: nat, b: nat): nat {
    if a < b then a else b
  }

  // ---------- Reference sort ----------

  function Insert(x: real, s: seq<real>): (r: seq<real>)
    ensures |r| == |s| + 1
  {
    if s == [] || x <= s[0] then [x] + s else [s[0]] + Insert(x, s[1..])
  }

  function Sort(s: seq<real>): (r: seq<real>)
    ensures |r| == |s|
  {
    if s == [] then [] else Insert(s[0], Sort(s[1..]))
  }

  lemma ConsSorts(x: real, s: seq<real>)
    requires Sorted(s)
    requires forall y :: y in multiset(s) ==> x <= y
    ensures Sorted([x] + s)
  {
    forall j | 0 <= j < |s| ensures x <= s[j] {
      assert s[j] in multiset(s);
    }
  }

  lemma {:induction false} InsertElements(x: real, s: seq<real>)
    ensures multiset(Insert(x, s)) == multiset(s) + multiset{x}
  {
    if s == [] || x <= s[0] {
    } else {
      InsertElements(x, s[1..]);
      assert s == [s[0]] + s[1..];
    }
  }

  lemma {:induction false} InsertSorts(x: real, s: seq<real>)
    requires Sorted(s)
    ensures Sorted(Insert(x, s))
  {
    if s == [] || x <= s[0] {
    } else {
      InsertSorts(x, s[1..]);
      InsertElements(x, s[1..]);
      ConsSorts(s[0], Insert(x, s[1..]));
    }
  }

  lemma {:induction false} SortSorts(s: seq<real>)
    ensures Sorted(Sort(s)) && multiset(Sort(s)) == multiset(s)
  {
    if s == [] {
    } else {
      SortSorts(s[1..]);
      InsertSorts(s[0], Sort(s[1..]));
      InsertElements(s[0], Sort(s[1..]));
      assert s == [s[0]] + s[1..];
    }
  }

  lemma DropLast<T>(s: seq<T>)
    requires s != []
    ensures s == s[..|s| - 1] + [s[|s| - 1]]
    ensures multiset(s[..|s| - 1]) == multiset(s) - multiset{s[|s| - 1]}
  {
    assert s == s[..|s| - 1] + [s[|s| - 1]];
  }

  lemma SameLength<T>(a: seq<T>, b: seq<T>)
    requires multiset(a) == multiset(b)
    ensures |a| == |b|
  {
    assert |multiset(a)| == |multiset(b)|;
  }

  lemma LastIsLargest(s: seq<real>, x: real)
    requires Sorted(s) && s != [] && x in multiset(s)
    ensures x <= s[|s| - 1]
  {
    var i :| 0 <= i < |s| && s[i] == x;
  }

  lemma SameLast(a: seq<real>, b: seq<real>)
    requires Sorted(a) && Sorted(b) && multiset(a) == multiset(b) && a != [] && b != []
    ensures a[|a| - 1] == b[|b| - 1]
  {
    LastIsLargest(b, a[|a| - 1]);
    LastIsLargest(a, b[|b| - 1]);
  }

  lemma SortedPrefix(s: seq<real>, n: nat)
    requires Sorted(s) && n <= |s|
    ensures Sorted(s[..n])
  {
  }

  /** Two sorted sequences with the same elements are equal. */
  lemma {:induction false} SortedUnique(a: seq<real>, b: seq<real>)
    requires Sorted(a) && Sorted(b) && multiset(a) == multiset(b)
    ensures a == b
  {
    SameLength(a, b);
    if a != [] {
      var n := |a| - 1;
      SameLast(a, b);
      DropLast(a);
      DropLast(b);
      SortedPrefix(a, n);
      SortedPrefix(b, n);
      SortedUnique(a[..n], b[..n]);
    }
  }

  lemma SortDependsOnElements(a: seq<real>, b: seq<real>)
    requires multiset(a) == multiset(b)
    ensures Sort(a) == Sort(b)
  {
    SortSorts(a);
    SortSorts(b);
    SortedUnique(Sort(a), Sort(b));
  }

  /** One more element can only lower the sorted sequence, position by position. */
  lemma {:induction false} InsertLowers(x: real, s: seq<real>)
    requires Sorted(s)
    ensures forall i :: 0 <= i < |s| ==> Insert(x, s)[i] <= s[i]
  {
    if s == [] || x <= s[0] {
    } else {
      InsertLowers(x, s[1..]);
    }
  }

  /** More elements can only lower the sorted sequence, position by position. */
  lemma {:induction false} ExtendLowers(a: seq<real>, extra: seq<real>)
    ensures forall i :: 0 <= i < |Sort(a)| ==> Sort(extra + a)[i] <= Sort(a)[i]
  {
    if extra == [] {
      assert extra + a == a;
    } else {
      var t := extra[1..] + a;
      ExtendLowers(a, extra[1..]);
      assert extra + a == [extra[0]] + t;
      SortSorts(t);
      InsertLowers(extra[0], Sort(t));
    }
  }

  // ---------- Permutations ----------

  lemma {:induction false} SeqOfMultiset<T>(m: multiset<T>) returns (s: seq<T>)
    ensures multiset(s) == m
    decreases |m|
  {
    if |m| == 0 {
      s := [];
    } else {
      var x :| x in m;
      s := SeqOfMultiset(m - multiset{x});
      s := s + [x];
    }
  }

  /** Removing one occurrence of an element. */
  lemma RemoveOne<T>(s: seq<T>, i: nat)
    requires i < |s|
    ensures multiset(s[..i] + s[i + 1..]) == multiset(s) - multiset{s[i]}
  {
    assert s == s[..i] + [s[i]] + s[i + 1..];
  }

  /** A sequence without repetition has every element once. */
  lemma {:induction false} DistinctCounts<T>(s: seq<T>)
    ensures Distinct(s) <==> forall x :: x in multiset(s) ==> multiset(s)[x] == 1
  {
    if s != [] {
      var n := |s| - 1;
      var t, y := s[..n], s[n];
      assert s == t + [y];
      DistinctCounts(t);
      if Distinct(s) {
        assert y !in t;
        forall x | x in multiset(s) ensures multiset(s)[x] == 1 {
          if x != y { assert x in multiset(t); }
        }
      }
      if forall x :: x in multiset(s) ==> multiset(s)[x] == 1 {
        assert multiset(s)[y] == 1;
        assert y !in multiset(t);
        forall x | x in multiset(t) ensures multiset(t)[x] == 1 {
          assert x in multiset(s);
        }
      }
    }
  }

  lemma PermutationKeepsDistinct<T>(a: seq<T>, b: seq<T>)
    requires multiset(a) == multiset(b) && Distinct(a)
    ensures Distinct(b)
  {
    DistinctCounts(a);
    DistinctCounts(b);
  }

  lemma DistinctConcat<T>(a: seq<T>, b: seq<T>)
    requires Distinct(a) && Distinct(b) && forall x :: x in a ==> x !in b
    ensures Distinct(a + b)
  {
    forall i, j | 0 <= i < j < |a + b| ensures (a + b)[i] != (a + b)[j] {
      if i < |a| <= j {
        assert a[i] in a && b[j - |a|] in b;
      }
    }
  }

  /** Without repetition, the same elements make the same multiset. */
  lemma SameElements<T>(a: seq<T>, b: seq<T>)
    requires Distinct(a) && Distinct(b)
    requires forall x :: x in a <==> x in b
    ensures multiset(a) == multiset(b)
  {
    DistinctCounts(a);
    DistinctCounts(b);
    forall x ensures multiset(a)[x] == multiset(b)[x] {
      assert x in multiset(a) <==> x in a;
      assert x in multiset(b) <==> x in b;
    }
  }

  lemma TwiceIn<T>(s: seq<T>, i: nat, j: nat)
    requires i < j < |s|
    ensures s[i] == s[j] ==> multiset(s)[s[i]] >= 2
  {
    var a, b := multiset(s[..j]), multiset(s[j..]);
    assert s == s[..j] + s[j..];
    assert s[..j][i] in a && s[j..][0] in b;
    assert multiset(s)[s[j]] == a[s[j]] + b[s[j]];
  }

  lemma SubElements<T>(a: seq<T>, b: seq<T>)
    requires Distinct(a)
    requires forall x :: x in a ==> x in b
    ensures multiset(a) <= multiset(b)
  {
    DistinctCounts(a);
    forall x ensures multiset(a)[x] <= multiset(b)[x] {
      if x in multiset(a) {
        assert x in b;
        assert multiset(b)[x] >= 1;
      }
    }
  }

  // ---------- Reading a sequence at given places ----------

  /** `a` lists the elements of xs at the places s. */
  ghost predicate ReadsFrom<T>(xs: seq<T>, s: seq<nat>, a: seq<T>) {
    |s| == |a| && forall i :: 0 <= i < |s| ==> s[i] < |xs| && a[i] == xs[s[i]]
  }

  function Identity(n: nat): seq<nat> {
    seq(n, i requires 0 <= i < n => i)
  }

  /** A sequence that names every number below n exactly once. */
  ghost predicate IsPermutation(s: seq<nat>, n: nat) {
    multiset(s) == multiset(Identity(n))
  }

  lemma PermutationByMembership(s: seq<nat>, n: nat)
    requires Distinct(s) && forall i: nat :: i in s <==> i < n
    ensures IsPermutation(s, n) && |s| == n
  {
    var id := Identity(n);
    forall i: nat ensures i in id <==> i < n {
      if i < n { assert id[i] == i; }
    }
    SameElements(s, id);
    SameLength(s, id);
  }

  lemma Split<T>(s: seq<T>, i: nat)
    requires i < |s|
    ensures multiset(s) == multiset(s[..i] + s[i + 1..]) + multiset{s[i]}
  {
    assert s == s[..i] + [s[i]] + s[i + 1..];
  }

  lemma ReadsItself<T>(xs: seq<T>)
    ensures ReadsFrom(xs, Identity(|xs|), xs)
  {
  }

  lemma ReadsFromWithout<T>(xs: seq<T>, s: seq<nat>, a: seq<T>, i: nat)
    requires ReadsFrom(xs, s, a) && i < |s|
    ensures |a| == |s| && s[i] < |xs| && a[i] == xs[s[i]]
    ensures ReadsFrom(xs, s[..i] + s[i + 1..], a[..i] + a[i + 1..])
  {
  }

  /** Reading the same places in two orders gives the same elements. */
  lemma {:induction false} Rearranged<T>(xs: seq<T>, s: seq<nat>, t: seq<nat>, a: seq<T>, b: seq<T>)
    requires multiset(s) == multiset(t)
    requires ReadsFrom(xs, s, a) && ReadsFrom(xs, t, b)
    ensures multiset(a) == multiset(b)
  {
    hide ReadsFrom;
    SameReadLength(xs, s, a);
    SameReadLength(xs, t, b);
    SameLength(s, t);
    if s != [] {
      assert s[0] in multiset(s);
      var i := WhereIs(t, s[0]);
      var s', t', a', b' := s[..0] + s[1..], t[..i] + t[i + 1..], a[..0] + a[1..], b[..i] + b[i + 1..];
      assert multiset(s') == multiset(t') by {
        RemoveOne(s, 0);
        RemoveOne(t, i);
      }
      ReadsFromWithout(xs, s, a, 0);
      ReadsFromWithout(xs, t, b, i);
      Rearranged(xs, s', t', a', b');
      Split(a, 0);
      Split(b, i);
    }
  }

  lemma SameReadLength<T>(xs: seq<T>, s: seq<nat>, a: seq<T>)
    requires ReadsFrom(xs, s, a)
    ensures |s| == |a|
  {
  }

  lemma WhereIs<T>(t: seq<T>, x: T) returns (i: nat)
    requires x in multiset(t)
    ensures i < |t| && t[i] == x
  {
    i :| 0 <= i < |t| && t[i] == x;
  }

  function MapSeq<T, U>(s: seq<T>, f: T -> U): (r: seq<U>)
    ensures |r| == |s|
  {
    seq(|s|, i requires 0 <= i < |s| => f(s[i]))
  }

  lemma MapWithout<T, U>(s: seq<T>, f: T -> U, i: nat)
    requires i < |s|
    ensures MapSeq(s, f)[i] == f(s[i])
    ensures MapSeq(s[..i] + s[i + 1..], f) == MapSeq(s, f)[..i] + MapSeq(s, f)[i + 1..]
  {
  }

  /** Mapping a permutation gives a permutation. */
  lemma {:induction false} MapOfPermutation<T, U>(s: seq<T>, t: seq<T>, f: T -> U)
    requires multiset(s) == multiset(t)
    ensures multiset(MapSeq(s, f)) == multiset(MapSeq(t, f))
  {
    hide MapSeq;
    SameLength(s, t);
    if s != [] {
      assert s[0] in multiset(s);
      var i := WhereIs(t, s[0]);
      var s', t' := s[..0] + s[1..], t[..i] + t[i + 1..];
      assert multiset(s') == multiset(t') by {
        RemoveOne(s, 0);
        RemoveOne(t, i);
      }
      MapOfPermutation(s', t', f);
      MapSplit(s, f, 0);
      MapSplit(t, f, i);
    }
  }

  lemma MapSplit<T, U>(s: seq<T>, f: T -> U, i: nat)
    requires i < |s|
    ensures multiset(MapSeq(s, f)) == multiset(MapSeq(s[..i] + s[i + 1..], f)) + multiset{f(s[i])}
  {
    MapWithout(s, f, i);
    Split(MapSeq(s, f), i);
  }

  // ---------- The library sorts ----------

  lemma InsertAt<T>(r: seq<T>, p: nat, x: T, key: T -> real)
    requires SortedBy(r, key) && p <= |r|
    requires forall q :: 0 <= q < p ==> key(r[q]) <= key(x)
    requires p < |r| ==> key(x) <= key(r[p])
    ensures SortedBy(r[..p] + [x] + r[p..], key)
    ensures multiset(r[..p] + [x] + r[p..]) == multiset(r) + multiset{x}
  {
    assert r == r[..p] + r[p..];
  }

  method InsertSorted<T>(r: seq<T>, x: T, key: T -> real) returns (r': seq<T>)
    requires SortedBy(r, key)
    ensures SortedBy(r', key) && multiset(r') == multiset(r) + multiset{x} && |r'| == |r| + 1
  {
    var p := 0;
    while p < |r| && key(r[p]) <= key(x)
      invariant 0 <= p <= |r|
      invariant forall q :: 0 <= q < p ==> key(r[q]) <= key(x)
    {
      p := p + 1;
    }
    InsertAt(r, p, x, key);
    r' := r[..p] + [x] + r[p..];
  }

  /** `sort_unstable_by`: some order of the elements that is sorted by key. */
  method SortUnstableBy<T>(s: seq<T>, key: T -> real) returns (r: seq<T>)
    ensures multiset(r) == multiset(s) && |r| == |s|
    ensures SortedBy(r, key)
  {
    r := [];
    for i := 0 to |s|
      invariant multiset(r) == multiset(s[..i]) && |r| == i
      invariant SortedBy(r, key)
    {
      r := InsertSorted(r, s[i], key);
      assert s[..i + 1] == s[..i] + [s[i]];
    }
    assert s[..|s|] == s;
  }

  /** `select_nth_unstable_by`: nothing before position n has a larger key than any position from n on. */
  method SelectNthUnstableBy<T>(s: seq<T>, n: nat, key: T -> real) returns (r: seq<T>)
    requires n < |s|
    ensures multiset(r) == multiset(s) && |r| == |s|
    ensures forall i :: 0 <= i < n ==> key(r[i]) <= key(r[n])
    ensures forall i :: n < i < |r| ==> key(r[n]) <= key(r[i])
  {
    r := SortUnstableBy(s, key);
  }
}
