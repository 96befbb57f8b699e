/** The hand-written binary max-heap of candidates, and the buffer that turns into one when it fills up. */
module Heap {
  import opened TopK

  function Parent(j: nat): (p: nat)
    requires j >= 1
    ensures p < j && (j == 2 * p + 1 || j == 2 * p + 2)
  {
    (j - 1) / 2
  }

  /** Node j is not above its parent. */
  ghost predicate OrderedAt(h: seq<Candidate>, j: nat)
    requires 1 <= j < |h|
  {
    h[j].dist <= h[Parent(j)].dist
  }

  /** Every edge of the binary tree whose parent is at or after `lo` has the larger distance on top. */
  ghost predicate HeapFrom(h: seq<Candidate>, lo: nat) {
    forall j {:trigger OrderedAt(h, j)} :: 1 <= j < |h| && lo <= Parent(j) ==> OrderedAt(h, j)
  }

  ghost predicate IsMaxHeap(h: seq<Candidate>) {
    HeapFrom(h, 0)
  }

  lemma {:induction false} RootIsLargest(h: seq<Candidate>, j: nat)
    requires IsMaxHeap(h) && j < |h|
    ensures h[j].dist <= h[0].dist
  {
    if j > 0 {
      assert OrderedAt(h, j);
      RootIsLargest(h, Parent(j));
    }
  }

  lemma RootBoundsAll(h: seq<Candidate>)
    requires IsMaxHeap(h) && h != []
    ensures h[0] in multiset(h)
    ensures forall c :: c in multiset(h) ==> c.dist <= h[0].dist
  {
    forall c | c in multiset(h) ensures c.dist <= h[0].dist {
      var j :| 0 <= j < |h| && h[j] == c;
      RootIsLargest(h, j);
    }
  }

  lemma SwapKeepsMultiset(h: seq<Candidate>, h': seq<Candidate>, i: nat, j: nat)
    requires i < |h| && j < |h| && h' == h[i := h[j]][j := h[i]]
    ensures multiset(h') == multiset(h)
  {
  }

  /** The children of `i` already lie below the parent of `i`, as long as that parent is in range. */
  ghost predicate ChildrenBelowParent(h: seq<Candidate>, lo: nat, i: nat) {
    1 <= i < |h| && lo <= Parent(i) ==> ChildrenAtMost(h, i, h[Parent(i)].dist)
  }

  ghost predicate ChildrenAtMost(h: seq<Candidate>, i: nat, bound: real) {
    && (2 * i + 1 < |h| ==> h[2 * i + 1].dist <= bound)
    && (2 * i + 2 < |h| ==> h[2 * i + 2].dist <= bound)
  }

  ghost predicate HeapExceptAt(h: seq<Candidate>, lo: nat, i: nat) {
    forall j {:trigger OrderedAt(h, j)} :: 1 <= j < |h| && lo <= Parent(j) != i ==> OrderedAt(h, j)
  }

  lemma HeapEverywhere(h: seq<Candidate>, lo: nat, i: nat)
    requires HeapExceptAt(h, lo, i)
    requires i < |h| ==> ChildrenAtMost(h, i, h[i].dist)
    ensures HeapFrom(h, lo)
  {
  }

  /** One turn of the sift: swapping the hole with its larger child moves the only bad node down. */
  lemma SwapDown(h: seq<Candidate>, h': seq<Candidate>, lo: nat, i: nat, c: nat)
    requires lo <= i < c < |h| && Parent(c) == i
    requires HeapExceptAt(h, lo, i) && ChildrenBelowParent(h, lo, i)
    requires h[i].dist < h[c].dist && ChildrenAtMost(h, i, h[c].dist)
    requires h' == h[i := h[c]][c := h[i]]
    ensures HeapExceptAt(h', lo, c) && ChildrenBelowParent(h', lo, c)
    ensures multiset(h') == multiset(h)
  {
    SwapKeepsMultiset(h, h', i, c);
    forall j | 1 <= j < |h| && lo <= Parent(j) != c
      ensures OrderedAt(h', j)
    {
      if Parent(j) != i { assert OrderedAt(h, j); }
    }
    forall j | 1 <= j < |h| && Parent(j) == c ensures h'[j].dist <= h'[i].dist {
      assert OrderedAt(h, j);
    }
  }

  /** The choice inside the loop of `sift_down_max`: the node itself unless a child is strictly larger. */
  method LargestOfFamily(h: array<Candidate>, n: nat, i: nat) returns (largest: nat)
    requires n <= h.Length
    ensures largest == i ==> i < n ==> ChildrenAtMost(h[..n], i, h[i].dist)
    ensures largest != i ==> i < largest < n && Parent(largest) == i && h[i].dist < h[largest].dist
    ensures largest != i ==> ChildrenAtMost(h[..n], i, h[largest].dist)
  {
    largest := i;
    var l, r := 2 * i + 1, 2 * i + 2;
    if l < n && h[l].dist > h[largest].dist {
      largest := l;
    }
    if r < n && h[r].dist > h[largest].dist {
      largest := r;
    }
  }

  /** `sift_down_max`: repairs the heap order below `start` in the slice `h[..n]`. */
  method SiftDownMax(h: array<Candidate>, n: nat, start: nat)
    requires n <= h.Length
    requires HeapFrom(h[..n], start + 1)
    modifies h
    ensures HeapFrom(h[..n], start)
    ensures multiset(h[..n]) == old(multiset(h[..n]))
    ensures forall j :: 0 <= j < h.Length && (j < start || n <= j) ==> h[j] == old(h[j])
  {
    var i := start;
    while true
      invariant start <= i
      invariant HeapExceptAt(h[..n], start, i) && ChildrenBelowParent(h[..n], start, i)
      invariant multiset(h[..n]) == old(multiset(h[..n]))
      invariant forall j :: 0 <= j < h.Length && (j < start || n <= j) ==> h[j] == old(h[j])
      decreases n - i
    {
      ghost var was := h[..n];
      var largest := LargestOfFamily(h, n, i);
      if largest == i {
        HeapEverywhere(was, start, i);
        break;
      }
      h[i], h[largest] := h[largest], h[i];
      assert h[..n] == was[i := was[largest]][largest := was[i]];
      SwapDown(was, h[..n], start, i, largest);
      i := largest;
    }
  }

  /** `heapify_max`: any slice becomes a max-heap with the same elements. */
  method HeapifyMax(h: array<Candidate>, n: nat)
    requires n <= h.Length
    modifies h
    ensures IsMaxHeap(h[..n])
    ensures multiset(h[..n]) == old(multiset(h[..n]))
    ensures forall j :: n <= j < h.Length ==> h[j] == old(h[j])
  {
    for i := n / 2 downto 0
      invariant HeapFrom(h[..n], i)
      invariant multiset(h[..n]) == old(multiset(h[..n]))
      invariant forall j :: n <= j < h.Length ==> h[j] == old(h[j])
    {
      SiftDownMax(h, n, i);
    }
  }

  // ---------- The candidate buffer ----------

  /** What the scan keeps true after every vector: the k nearest so far, as a heap once there are k. */
  ghost predicate ScanState(kept: seq<Candidate>, scanned: multiset<Candidate>, k: nat) {
    && KNearest(multiset(kept), scanned, k)
    && (|kept| == k ==> IsMaxHeap(kept))
  }

  /** The vector of kept candidates: storage that grows, and the length in use. */
  class CandidateBuffer {
    var data: array<Candidate>
    var len: nat

    ghost predicate Valid()
      reads this
    {
      len <= data.Length
    }

    ghost function Contents(): seq<Candidate>
      requires Valid()
      reads this, data
    {
      data[..len]
    }

    constructor ()
      ensures Valid() && fresh(data) && Contents() == []
    {
      data := new Candidate[8](_ => Candidate(0, 0.0, false));
      len := 0;
    }

    method Clear()
      requires Valid()
      modifies this`len
      ensures Valid() && Contents() == []
    {
      len := 0;
    }

    method Push(c: Candidate)
      requires Valid()
      modifies this, data
      ensures Valid() && (data == old(data) || fresh(data))
      ensures Contents() == old(Contents()) + [c]
    {
      if len == data.Length {
        var was := data;
        var grown := new Candidate[2 * len + 1](i requires 0 <= i reads was => if i < was.Length then was[i] else c);
        assert grown[..len] == was[..len];
        data := grown;
      }
      data[len] := c;
      len := len + 1;
    }

    method Heapify()
      requires Valid()
      modifies data
      ensures IsMaxHeap(Contents()) && multiset(Contents()) == old(multiset(Contents()))
    {
      HeapifyMax(data, len);
    }

    method ReplaceRoot(c: Candidate)
      requires Valid() && len > 0 && IsMaxHeap(Contents())
      modifies data
      ensures IsMaxHeap(Contents())
      ensures multiset(Contents()) == old(multiset(Contents())) - multiset{old(data[0])} + multiset{c}
    {
      ghost var kept := Contents();
      data[0] := c;
      RootReplaced(kept, Contents(), c);
      SiftDownMax(data, len, 0);
    }

    method OfferWhileFilling(c: Candidate, k: nat, ghost scanned: multiset<Candidate>)
      requires Valid() && len < k && ScanState(Contents(), scanned, k)
      modifies this, data
      ensures Valid() && (data == old(data) || fresh(data))
      ensures ScanState(Contents(), scanned + multiset{c}, k)
      ensures Offered(old(Contents()), c, k, Contents())
    {
      hide Offered;
      assert |multiset(Contents())| == len;
      Grow(multiset(Contents()), scanned, k, c);
      ghost var kept := Contents();
      Push(c);
      assert multiset(Contents()) == multiset(kept) + multiset{c};
      if len == k {
        Heapify();
        assert |Contents()| == k;
      }
      OfferedWhileFew(kept, c, k, Contents());
    }

    method OfferWhenFull(c: Candidate, k: nat, ghost scanned: multiset<Candidate>)
      requires Valid() && k >= 1 && len == k && ScanState(Contents(), scanned, k)
      modifies data
      ensures ScanState(Contents(), scanned + multiset{c}, k)
      ensures Offered(old(Contents()), c, k, Contents())
    {
      hide Offered;
      ghost var kept := Contents();
      assert |multiset(kept)| == len && data[0] == kept[0];
      RootBoundsAll(kept);
      if c.dist < data[0].dist {
        Replace(multiset(kept), scanned, k, kept[0], c);
        ReplaceRoot(c);
        OfferedAndTaken(kept, c, k, kept[0], Contents());
      } else {
        Reject(multiset(kept), scanned, k, c);
        OfferedAndDropped(kept, c, k);
      }
    }

    /** The step of the scan loop: push, push and heapify, replace the root, or drop the candidate. */
    method Offer(c: Candidate, k: nat, ghost scanned: multiset<Candidate>)
      requires Valid() && k >= 1
      requires ScanState(Contents(), scanned, k)
      modifies this, data
      ensures Valid() && (data == old(data) || fresh(data))
      ensures ScanState(Contents(), scanned + multiset{c}, k)
      ensures Offered(old(Contents()), c, k, Contents())
    {
      hide Offered;
      if len < k {
        OfferWhileFilling(c, k, scanned);
      } else {
        assert |multiset(Contents())| == len;
        OfferWhenFull(c, k, scanned);
      }
    }
  }

  lemma RootReplaced(h: seq<Candidate>, h': seq<Candidate>, c: Candidate)
    requires h != [] && h' == h[0 := c] && IsMaxHeap(h)
    ensures multiset(h') == multiset(h) - multiset{h[0]} + multiset{c}
    ensures HeapFrom(h', 1)
  {
    forall j | 1 <= j < |h| && 1 <= Parent(j) ensures OrderedAt(h', j) {
      assert OrderedAt(h, j);
    }
  }
}
