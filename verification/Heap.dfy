/** The binary heaps behind the transaction lists: push, pop, remove and heapify by sifting. */
module Heap {

  /** A strict weak order: ties are allowed. */
  ghost predicate WeakOrder<T(!new)>(less: (T, T) -> bool) {
    && (forall a, b :: less(a, b) ==> !less(b, a))
    && (forall a, b, c :: !less(a, b) && !less(b, c) ==> !less(a, c))
  }

  function Parent(i: int): int {
    (i - 1) / 2
  }

  /** Element `i` is not less than element `p`. */
  ghost predicate Fits<T>(less: (T, T) -> bool, h: seq<T>, i: nat, p: nat)
    requires i < |h| && p < |h|
  {
    !less(h[i], h[p])
  }

  ghost predicate FitsParent<T>(less: (T, T) -> bool, h: seq<T>, i: nat)
    requires 0 < i < |h|
  {
    Fits(less, h, i, Parent(i))
  }

  /** No element is less than its parent. */
  ghost predicate IsHeap<T>(less: (T, T) -> bool, h: seq<T>) {
    forall i :: 0 < i < |h| ==> FitsParent(less, h, i)
  }

  /** A heap except that `h[k]` may be less than its parent. */
  ghost predicate UpHeap<T>(less: (T, T) -> bool, h: seq<T>, k: nat)
    requires k < |h|
  {
    && (forall i :: 0 < i < |h| && i != k ==> FitsParent(less, h, i))
    && (0 < k ==> forall i :: 0 < i < |h| && Parent(i) == k ==> Fits(less, h, i, Parent(k)))
  }

  /** A heap below index `lo`, except that `h[k]` may exceed its children. */
  ghost predicate DownHeap<T>(less: (T, T) -> bool, h: seq<T>, lo: nat, k: nat) {
    && (forall i :: 0 < i < |h| && lo <= Parent(i) != k ==> FitsParent(less, h, i))
    && (0 < k < |h| && lo <= Parent(k) ==> forall i :: 0 < i < |h| && Parent(i) == k ==> Fits(less, h, i, Parent(k)))
  }

  ghost predicate HeapFrom<T>(less: (T, T) -> bool, h: seq<T>, lo: nat) {
    forall i :: 0 < i < |h| && lo <= Parent(i) ==> FitsParent(less, h, i)
  }

  /** The first element of a heap is least. */
  lemma {:induction false} RootIsLeast<T(!new)>(less: (T, T) -> bool, h: seq<T>, i: nat)
    requires WeakOrder(less) && IsHeap(less, h) && i < |h|
    ensures !less(h[i], h[0])
  {
    if i > 0 {
      RootIsLeast(less, h, Parent(i));
      assert FitsParent(less, h, i);
    }
  }

  function Swap<T>(h: seq<T>, i: nat, j: nat): (r: seq<T>)
    requires i < |h| && j < |h|
    ensures |r| == |h| && multiset(r) == multiset(h)
  {
    h[i := h[j]][j := h[i]]
  }

  /** heap.up */
  method Up<T(!new)>(less: (T, T) -> bool, h0: seq<T>, j0: nat) returns (h: seq<T>)
    requires WeakOrder(less) && j0 < |h0| && UpHeap(less, h0, j0)
    ensures IsHeap(less, h) && multiset(h) == multiset(h0) && |h| == |h0|
  {
    h := h0;
    var j := j0;
    while j > 0
      invariant 0 <= j < |h| == |h0| && UpHeap(less, h, j) && multiset(h) == multiset(h0)
    {
      var i := Parent(j);
      if !less(h[j], h[i]) {
        assert FitsParent(less, h, j);
        return;
      }
      UpStep(less, h, j);
      h := Swap(h, i, j);
      j := i;
    }
  }

  lemma UpStep<T(!new)>(less: (T, T) -> bool, h: seq<T>, j: nat)
    requires WeakOrder(less) && 0 < j < |h| && UpHeap(less, h, j) && less(h[j], h[Parent(j)])
    ensures UpHeap(less, Swap(h, Parent(j), j), Parent(j))
  {
    var p := Parent(j);
    var g := Swap(h, p, j);
    forall i | 0 < i < |g| && i != p
      ensures FitsParent(less, g, i)
    {
      if Parent(i) == j {
        assert Fits(less, h, i, p);
      } else if i != j {
        assert FitsParent(less, h, i);
      }
    }
    forall i | 0 < i < |g| && Parent(i) == p && 0 < p
      ensures Fits(less, g, i, Parent(p))
    {
      assert FitsParent(less, h, p);
      if i != j {
        assert FitsParent(less, h, i);
      }
    }
  }

  /** heap.down over the whole slice; tells whether the element moved. */
  method Down<T(!new)>(less: (T, T) -> bool, h0: seq<T>, lo: nat, i0: nat) returns (h: seq<T>, moved: bool)
    requires WeakOrder(less) && lo <= i0 < |h0| && DownHeap(less, h0, lo, i0)
    ensures HeapFrom(less, h, lo) && multiset(h) == multiset(h0) && |h| == |h0|
    ensures !moved ==> h == h0
  {
    h, moved := h0, false;
    var i := i0;
    while 2 * i + 1 < |h|
      invariant lo <= i0 <= i < |h| == |h0| && DownHeap(less, h, lo, i) && multiset(h) == multiset(h0)
      invariant !moved ==> h == h0
      decreases |h| - i
    {
      var j := 2 * i + 1;
      if j + 1 < |h| && less(h[j + 1], h[j]) {
        j := j + 1;
      }
      LesserChild(less, h, i, j);
      if !less(h[j], h[i]) {
        DownDone(less, h, lo, i, j);
        return;
      }
      DownStep(less, h, lo, i, j);
      h := Swap(h, i, j);
      i, moved := j, true;
    }
  }

  /** `j` is the least child of `i`. */
  ghost predicate Least<T>(less: (T, T) -> bool, h: seq<T>, i: nat, j: nat) {
    0 < j < |h| && Parent(j) == i && forall c :: 0 < c < |h| && Parent(c) == i ==> Fits(less, h, c, j)
  }

  lemma LesserChild<T(!new)>(less: (T, T) -> bool, h: seq<T>, i: nat, j: nat)
    requires WeakOrder(less) && 2 * i + 1 < |h|
    requires j == if 2 * i + 2 < |h| && less(h[2 * i + 2], h[2 * i + 1]) then 2 * i + 2 else 2 * i + 1
    ensures Least(less, h, i, j)
  {
    forall c | 0 < c < |h| && Parent(c) == i
      ensures Fits(less, h, c, j)
    {
      assert c == 2 * i + 1 || c == 2 * i + 2;
    }
  }

  lemma DownDone<T(!new)>(less: (T, T) -> bool, h: seq<T>, lo: nat, i: nat, j: nat)
    requires WeakOrder(less) && i < |h| && DownHeap(less, h, lo, i) && Least(less, h, i, j) && !less(h[j], h[i])
    ensures HeapFrom(less, h, lo)
  {
    forall c | 0 < c < |h| && lo <= Parent(c)
      ensures FitsParent(less, h, c)
    {
      if Parent(c) == i {
        assert Fits(less, h, c, j);
      }
    }
  }

  lemma DownStep<T(!new)>(less: (T, T) -> bool, h: seq<T>, lo: nat, i: nat, j: nat)
    requires WeakOrder(less) && lo <= i < |h| && DownHeap(less, h, lo, i) && Least(less, h, i, j) && less(h[j], h[i])
    ensures DownHeap(less, Swap(h, i, j), lo, j)
  {
    var g := Swap(h, i, j);
    forall c | 0 < c < |g| && lo <= Parent(c) != j
      ensures FitsParent(less, g, c)
    {
      if Parent(c) == i {
        assert Fits(less, h, c, j);
      } else if c == i {
        assert Fits(less, h, j, Parent(i));
      } else {
        assert FitsParent(less, h, c);
      }
    }
    forall c | 0 < c < |g| && Parent(c) == j
      ensures Fits(less, g, c, Parent(j))
    {
      assert FitsParent(less, h, c);
    }
  }

  /** heap.Push */
  method Push<T(!new)>(less: (T, T) -> bool, h0: seq<T>, x: T) returns (h: seq<T>)
    requires WeakOrder(less) && IsHeap(less, h0)
    ensures IsHeap(less, h) && multiset(h) == multiset(h0) + multiset{x} && |h| == |h0| + 1
  {
    h := h0 + [x];
    forall i | 0 < i < |h0|
      ensures FitsParent(less, h, i)
    {
      assert FitsParent(less, h0, i);
    }
    h := Up(less, h, |h0|);
  }

  /** heap.Remove; heap.Pop is the removal of element 0. The last element takes the free place and
      sinks, or, if it is less than the parent there, rises. */
  method Remove<T(!new)>(less: (T, T) -> bool, h0: seq<T>, i: nat) returns (h: seq<T>)
    requires WeakOrder(less) && IsHeap(less, h0) && i < |h0|
    ensures IsHeap(less, h) && multiset(h) == multiset(h0) - multiset{h0[i]} && |h| == |h0| - 1
  {
    TakeLast(h0, i);
    h := WithoutAt(h0, i);
    if i < |h| {
      if i == 0 || !less(h[i], h[Parent(i)]) {
        Sinks(less, h0, i);
        var moved;
        h, moved := Down(less, h, 0, i);
      } else {
        Rises(less, h0, i);
        h := Up(less, h, i);
      }
    } else {
      ShorterHeap(less, h0);
    }
  }

  /** The last element moved into place `i`. */
  function WithoutAt<T>(h: seq<T>, i: nat): (r: seq<T>)
    requires i < |h|
    ensures |r| == |h| - 1
  {
    h[i := h[|h| - 1]][..|h| - 1]
  }

  lemma TakeLast<T>(h: seq<T>, i: nat)
    requires i < |h|
    ensures multiset(WithoutAt(h, i)) == multiset(h) - multiset{h[i]}
  {
    var n := |h| - 1;
    if i < n {
      assert h == h[..i] + [h[i]] + h[i + 1..n] + [h[n]];
      assert WithoutAt(h, i) == h[..i] + [h[n]] + h[i + 1..n];
    } else {
      assert h == h[..n] + [h[n]];
      assert WithoutAt(h, i) == h[..n];
    }
  }

  lemma ShorterHeap<T>(less: (T, T) -> bool, h: seq<T>)
    requires IsHeap(less, h) && 0 < |h|
    ensures IsHeap(less, WithoutAt(h, |h| - 1))
  {
    var g := WithoutAt(h, |h| - 1);
    forall k | 0 < k < |g|
      ensures FitsParent(less, g, k)
    {
      assert FitsParent(less, h, k);
    }
  }

  lemma Sinks<T(!new)>(less: (T, T) -> bool, h: seq<T>, i: nat)
    requires WeakOrder(less) && IsHeap(less, h) && i < |h| - 1
    requires i == 0 || !less(h[|h| - 1], h[Parent(i)])
    ensures DownHeap(less, WithoutAt(h, i), 0, i)
  {
    var g := WithoutAt(h, i);
    forall c | 0 < c < |g| && Parent(c) != i
      ensures FitsParent(less, g, c)
    {
      assert FitsParent(less, h, c);
    }
    OldChildrenFit(less, h, i);
  }

  lemma Rises<T(!new)>(less: (T, T) -> bool, h: seq<T>, i: nat)
    requires WeakOrder(less) && IsHeap(less, h) && 0 < i < |h| - 1 && less(h[|h| - 1], h[Parent(i)])
    ensures UpHeap(less, WithoutAt(h, i), i)
  {
    var g := WithoutAt(h, i);
    OldChildrenFit(less, h, i);
    forall c | 0 < c < |g| && c != i
      ensures FitsParent(less, g, c)
    {
      assert FitsParent(less, h, c);
      if Parent(c) == i {
        assert Fits(less, g, c, Parent(i));
      }
    }
  }

  /** The children of the removed element fit below its parent. */
  lemma OldChildrenFit<T(!new)>(less: (T, T) -> bool, h: seq<T>, i: nat)
    requires WeakOrder(less) && IsHeap(less, h) && i < |h| - 1
    ensures 0 < i ==> forall c :: 0 < c < |h| - 1 && Parent(c) == i ==> Fits(less, WithoutAt(h, i), c, Parent(i))
  {
    if 0 < i {
      assert FitsParent(less, h, i);
      forall c | 0 < c < |h| - 1 && Parent(c) == i
        ensures Fits(less, WithoutAt(h, i), c, Parent(i))
      {
        assert FitsParent(less, h, c);
      }
    }
  }

  /** heap.Init */
  method Init<T(!new)>(less: (T, T) -> bool, h0: seq<T>) returns (h: seq<T>)
    requires WeakOrder(less)
    ensures IsHeap(less, h) && multiset(h) == multiset(h0) && |h| == |h0|
  {
    h := h0;
    var i := |h| / 2;
    while i > 0
      invariant 0 <= i <= |h| == |h0| && HeapFrom(less, h, i) && multiset(h) == multiset(h0)
    {
      i := i - 1;
      assert DownHeap(less, h, i, i);
      var moved;
      h, moved := Down(less, h, i, i);
    }
  }
}
