/**
 * The min-heap of part numbers used by the multipart dispatcher
 * (`IntHeap` on top of Go's container/heap), and the binary search that
 * finds the first part number missing from a sorted list.
 */
module Heap {

  /** The element at `p` is no greater than its children (if any). */
  predicate ParentOk(a: seq<int>, p: int)
    requires 0 <= p < |a|
  {
    (2 * p + 1 < |a| ==> a[p] <= a[2 * p + 1]) &&
    (2 * p + 2 < |a| ==> a[p] <= a[2 * p + 2])
  }

  /** Every position from `k` on satisfies the heap order towards its children. */
  predicate HeapFrom(a: seq<int>, k: int) {
    forall p :: 0 <= k <= p < |a| ==> ParentOk(a, p)
  }

  predicate IsHeap(a: seq<int>) {
    HeapFrom(a, 0)
  }

  /** The root of a heap is no greater than the element at `k`. */
  lemma {:induction false} RootLe(a: seq<int>, k: int)
    requires IsHeap(a) && 0 <= k < |a|
    ensures a[0] <= a[k]
    decreases k
  {
    if k > 0 {
      var p := (k - 1) / 2;
      RootLe(a, p);
      assert ParentOk(a, p);
    }
  }

  /** The root of a non-empty heap is its minimum. */
  lemma HeapMinAtRoot(a: seq<int>)
    requires IsHeap(a) && |a| > 0
    ensures forall k :: 0 <= k < |a| ==> a[0] <= a[k]
  {
    forall k | 0 <= k < |a| {
      RootLe(a, k);
    }
  }

  /** Appending an element no smaller than every element keeps the heap order
      (the dispatcher pushes part numbers in increasing order with a plain append). */
  lemma PushLargestKeepsHeap(a: seq<int>, x: int)
    requires IsHeap(a)
    requires forall y :: y in a ==> y <= x
    ensures IsHeap(a + [x])
  {
    var b := a + [x];
    forall p | 0 <= p < |b|
      ensures ParentOk(b, p)
    {
      if 2 * p + 1 < |a| {
        assert ParentOk(a, p);
      }
      if 2 * p + 1 == |a| || 2 * p + 2 == |a| {
        assert b[p] in a;
      }
    }
  }

  /** Removes the element at `i` by moving the last element into its place. */
  function SwapRemove(s: seq<int>, i: int): (r: seq<int>)
    requires 0 <= i < |s|
    ensures |r| == |s| - 1
  {
    s[i := s[|s| - 1]][..|s| - 1]
  }

  lemma SwapRemoveFacts(s: seq<int>, i: int)
    requires 0 <= i < |s|
    ensures SwapRemove(s, i)[..i] == s[..i]
    ensures multiset(SwapRemove(s, i)) + multiset{s[i]} == multiset(s)
  {
    var r := SwapRemove(s, i);
    var n := |s|;
    if i < n - 1 {
      assert r == s[..i] + [s[n - 1]] + s[i + 1..n - 1];
      assert s == s[..i] + [s[i]] + s[i + 1..n - 1] + [s[n - 1]];
    } else {
      assert s == r + [s[i]];
    }
  }

  class IntHeap {
    var h: seq<int>

    /** NewHeap: wraps the slice and establishes the heap order. */
    constructor (s: seq<int>)
      ensures IsHeap(h)
      ensures multiset(h) == multiset(s)
    {
      h := s;
      new;
      Init();
    }

    function Len(): int
      reads this
    {
      |h|
    }

    /** The method the dispatcher calls directly: a plain append, no sift-up. */
    method Push(x: int)
      modifies this
      ensures h == old(h) + [x]
    {
      h := h + [x];
    }

    /** Removes and returns the last element; an empty heap is an index panic in Go. */
    method Pop() returns (x: int)
      requires |h| > 0
      modifies this
      ensures x == old(h)[|old(h)| - 1]
      ensures h == old(h)[..|old(h)| - 1]
      ensures multiset(h) + multiset{x} == old(multiset(h))
    {
      x := h[|h| - 1];
      h := h[..|h| - 1];
      assert old(h) == h + [x];
    }

    /** The minimum of a non-empty heap; 0 for an empty one. */
    method Peek() returns (r: int)
      requires IsHeap(h)
      ensures |h| == 0 ==> r == 0
      ensures |h| > 0 ==> r in h && forall y :: y in h ==> r <= y
    {
      if |h| == 0 {
        return 0;
      }
      HeapMinAtRoot(h);
      r := h[0];
    }

    /** Removes every occurrence of `x`, then restores the heap order. */
    method Remove(x: int)
      modifies this
      ensures IsHeap(h)
      ensures multiset(h) == old(multiset(h))[x := 0]
      ensures forall y :: y in h <==> y in old(h) && y != x
    {
      var i := 0;
      while i < |h|
        invariant 0 <= i <= |h|
        invariant x !in h[..i]
        invariant multiset(h)[x := 0] == old(multiset(h))[x := 0]
        decreases |h| - i
      {
        if h[i] == x {
          ghost var before := h;
          h := SwapRemove(h, i);
          SwapRemoveFacts(before, i);
        } else {
          assert h[..i + 1] == h[..i] + [h[i]];
          i := i + 1;
        }
      }
      assert h[..i] == h;
      Init();
      forall y
        ensures y in h <==> y in old(h) && y != x
      {
        assert multiset(h)[y] == old(multiset(h))[x := 0][y];
        assert y in h <==> multiset(h)[y] > 0;
        assert y in old(h) <==> old(multiset(h))[y] > 0;
      }
    }

    /** heap.Init: sift down every internal node, from the last one to the root. */
    method Init()
      modifies this
      ensures IsHeap(h)
      ensures multiset(h) == old(multiset(h))
    {
      var n := |h|;
      var i := n / 2 - 1;
      while i >= 0
        invariant -1 <= i < |h| && |h| == n
        invariant HeapFrom(h, i + 1)
        invariant multiset(h) == old(multiset(h))
      {
        Down(i);
        i := i - 1;
      }
    }

    /** heap.down: moves the element at `i0` towards the leaves until both children are no smaller. */
    method Down(i0: int)
      requires 0 <= i0 < |h|
      requires HeapFrom(h, i0 + 1)
      modifies this
      ensures HeapFrom(h, i0)
      ensures multiset(h) == old(multiset(h))
      ensures |h| == |old(h)|
    {
      var n := |h|;
      var i := i0;
      ghost var par := -1;
      while true
        invariant |h| == n
        invariant SiftInv(h, i0, i, par)
        invariant multiset(h) == old(multiset(h))
        decreases n - i
      {
        var j1 := 2 * i + 1;
        if j1 >= n {
          SiftDone(h, i0, i, par);
          break;
        }
        var j := j1;
        var j2 := j1 + 1;
        if j2 < n && h[j2] < h[j1] {
          j := j2;
        }
        if !(h[j] < h[i]) {
          SiftDone(h, i0, i, par);
          break;
        }
        SiftStep(h, i0, i, j, par);
        SwapPermutes(h, i, j);
        var x, y := h[i], h[j];
        h := h[i := y][j := x];
        par := i;
        i := j;
      }
    }
  }

  /** Everything below `par` (the parent of `i`) also bounds the children of `i`. */
  predicate GrandOk(a: seq<int>, par: int, i: int)
    requires 0 <= par < |a| && 0 <= i
  {
    (2 * i + 1 < |a| ==> a[par] <= a[2 * i + 1]) && (2 * i + 2 < |a| ==> a[par] <= a[2 * i + 2])
  }

  /** The state of a sift-down from `i0` that has reached `i` (coming from `par`). */
  predicate SiftInv(a: seq<int>, i0: int, i: int, par: int) {
    0 <= i0 <= i < |a| &&
    (forall p :: i0 <= p < |a| && p != i ==> ParentOk(a, p)) &&
    (i == i0 <==> par == -1) &&
    (i > i0 ==> i0 <= par < i && (i == 2 * par + 1 || i == 2 * par + 2) && GrandOk(a, par, i))
  }

  lemma SiftStep(a: seq<int>, i0: int, i: int, j: int, par: int)
    requires SiftInv(a, i0, i, par)
    requires j == 2 * i + 1 || j == 2 * i + 2
    requires j < |a| && a[j] < a[i]
    requires 2 * i + 2 < |a| ==> a[j] <= a[2 * i + 1] && a[j] <= a[2 * i + 2]
    ensures SiftInv(a[i := a[j]][j := a[i]], i0, j, i)
  {
    var b := a[i := a[j]][j := a[i]];
    assert ParentOk(a, j);
    forall p | i0 <= p < |b| && p != j
      ensures ParentOk(b, p)
    {
      if p != i {
        assert ParentOk(a, p);
      }
    }
  }

  /** A sift-down stops where the element is in order with its children: the heap order then
      holds from `i0` on. */
  lemma SiftDone(a: seq<int>, i0: int, i: int, par: int)
    requires SiftInv(a, i0, i, par) && ParentOk(a, i)
    ensures HeapFrom(a, i0)
  {
  }

  /** Exchanging two elements keeps the multiset. */
  lemma SwapPermutes(a: seq<int>, i: int, j: int)
    requires 0 <= i < |a| && 0 <= j < |a|
    ensures multiset(a[i := a[j]][j := a[i]]) == multiset(a)
  {
  }

  predicate StrictlyIncreasingPositive(arr: seq<int>) {
    (forall k :: 0 <= k < |arr| ==> arr[k] >= 1) &&
    (forall j, k :: 0 <= j < k < |arr| ==> arr[j] < arr[k])
  }

  /** In a strictly increasing list of positive numbers, the k-th element is at least k + 1,
      and equality at k forces equality at every earlier index. */
  lemma {:induction false} IncreasingPositiveBounds(arr: seq<int>, k: int)
    requires StrictlyIncreasingPositive(arr) && 0 <= k < |arr|
    ensures arr[k] >= k + 1
    ensures arr[k] == k + 1 ==> forall j :: 0 <= j <= k ==> arr[j] == j + 1
    decreases k
  {
    if k > 0 {
      IncreasingPositiveBounds(arr, k - 1);
    }
  }

  /** `r - 1` is a position where `arr[k] == k + 1` holds just before and fails at (or the end). */
  predicate MissingBoundary(arr: seq<int>, r: int) {
    1 <= r <= |arr| + 1 &&
    (r == 1 || arr[r - 2] == r - 1) &&
    (r == |arr| + 1 || arr[r - 1] != r)
  }

  /**
   * FindMinMissingInteger: binary search for the boundary where `arr[k] == k + 1` stops holding.
   * On any input the result marks such a boundary; on a strictly increasing list of positive
   * numbers it is exactly the smallest positive integer absent from the list.
   */
  method FindMinMissingInteger(arr: seq<int>) returns (r: int)
    ensures MissingBoundary(arr, r)
    ensures StrictlyIncreasingPositive(arr) ==>
      r !in arr && forall v :: 1 <= v < r ==> v in arr
  {
    var left, right := 0, |arr|;
    while left < right
      invariant 0 <= left <= right <= |arr|
      invariant left == 0 || arr[left - 1] == left
      invariant right == |arr| || arr[right] != right + 1
    {
      var mid := (left + right) / 2;
      if arr[mid] == mid + 1 {
        left := mid + 1;
      } else {
        right := mid;
      }
    }
    r := left + 1;
    if StrictlyIncreasingPositive(arr) {
      if left > 0 {
        IncreasingPositiveBounds(arr, left - 1);
      }
      forall v | 1 <= v < r
        ensures v in arr
      {
        assert arr[v - 1] == v;
      }
      if left < |arr| {
        IncreasingPositiveBounds(arr, left);
        forall k | left < k < |arr|
          ensures arr[k] != r
        {
          assert arr[left] < arr[k];
        }
      }
    }
  }
}
