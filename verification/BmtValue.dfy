/** The value every node of the tree has to produce, and its agreement with the reference hash. */
module BmtValue {
  import opened BmtReference
  import opened BmtShape

  /** Data split into leaves of two segments each; the last one may be short, but is empty only
      when there is no data at all. */
  ghost predicate IsSplit(size: nat, leaves: seq<Bytes>) {
    && 0 < size && 0 < |leaves|
    && (forall j :: 0 <= j < |leaves| - 1 ==> |leaves[j]| == 2 * size)
    && |leaves[|leaves| - 1]| <= 2 * size
    && (|leaves| > 1 ==> 0 < |leaves[|leaves| - 1]|)
  }

  function Flatten(leaves: seq<Bytes>): Bytes {
    if leaves == [] then [] else Flatten(leaves[..|leaves| - 1]) + leaves[|leaves| - 1]
  }

  /** The width of a node at height `h`, in bytes. */
  function Width(size: nat, h: nat): nat {
    if h == 0 then 2 * size else 2 * Width(size, h - 1)
  }

  /** The value a leaf sends up: a lone segment is passed on raw. */
  function LeafValue(hash: Bytes -> Bytes, size: nat, leaf: Bytes): Bytes {
    if |leaf| > size then hash(leaf) else leaf
  }

  /** The value of node `k` at height `h`: a node without a right subtree passes its left value on. */
  function NodeValue(hash: Bytes -> Bytes, size: nat, leaves: seq<Bytes>, h: nat, k: nat): Bytes
    requires 0 < |leaves| && k <= Anc(|leaves| - 1, h)
  {
    if h == 0 then LeafValue(hash, size, leaves[k])
    else if 2 * k + 1 <= Anc(|leaves| - 1, h - 1) then
      hash(NodeValue(hash, size, leaves, h - 1, 2 * k) + NodeValue(hash, size, leaves, h - 1, 2 * k + 1))
    else
      NodeValue(hash, size, leaves, h - 1, 2 * k)
  }

  /** The value of the whole tree: a single leaf is always hashed. */
  function TreeValue(hash: Bytes -> Bytes, size: nat, leaves: seq<Bytes>): Bytes
    requires 0 < |leaves|
  {
    if |leaves| == 1 then hash(leaves[0])
    else
      RootHeightIsFirst(|leaves| - 1, RootHeight(|leaves| - 1));
      NodeValue(hash, size, leaves, RootHeight(|leaves| - 1), 0)
  }

  lemma {:induction false} WidthIsSpan(size: nat, h: nat)
    requires 0 < size
    ensures IsSpan(size, Width(size, h)) && 2 * size <= Width(size, h)
  {
    if h > 0 {
      WidthIsSpan(size, h - 1);
      assert Width(size, h) / 2 == Width(size, h - 1);
    }
  }

  lemma {:induction false} FlattenFull(size: nat, leaves: seq<Bytes>)
    requires forall j :: 0 <= j < |leaves| ==> |leaves[j]| == 2 * size
    ensures |Flatten(leaves)| == |leaves| * (2 * size)
  {
    if leaves != [] {
      var n := |leaves| - 1;
      FlattenFull(size, leaves[..n]);
      Successor(n, 2 * size);
    }
  }

  lemma Successor(n: nat, w: nat)
    ensures (n + 1) * w == n * w + w
  {
  }

  lemma FlattenLength(size: nat, leaves: seq<Bytes>)
    requires IsSplit(size, leaves)
    ensures |Flatten(leaves)| == (|leaves| - 1) * (2 * size) + |leaves[|leaves| - 1]|
  {
    FlattenFull(size, leaves[..|leaves| - 1]);
  }

  /** Where the leaves lie in the data. */
  lemma {:induction false} FlattenAt(size: nat, leaves: seq<Bytes>, j: nat)
    requires j < |leaves|
    requires forall i :: 0 <= i < |leaves| - 1 ==> |leaves[i]| == 2 * size
    ensures j * (2 * size) + |leaves[j]| <= |Flatten(leaves)|
    ensures leaves[j] == Flatten(leaves)[j * (2 * size) .. j * (2 * size) + |leaves[j]|]
  {
    var n := |leaves| - 1;
    var pre := leaves[..n];
    if j < n {
      FlattenAt(size, pre, j);
      assert leaves[j] == pre[j];
      var lo := j * (2 * size);
      assert Flatten(leaves)[lo .. lo + |leaves[j]|] == Flatten(pre)[lo .. lo + |leaves[j]|];
    } else {
      FlattenFull(size, pre);
    }
  }

  /** Node `k` at height `h` has data exactly when it lies left of or on the last leaf's path. */
  lemma {:induction false} Extent(size: nat, leaves: seq<Bytes>, h: nat)
    requires IsSplit(size, leaves) && 1 < |leaves|
    ensures Anc(|leaves| - 1, h) * Width(size, h) < |Flatten(leaves)|
    ensures |Flatten(leaves)| <= (Anc(|leaves| - 1, h) + 1) * Width(size, h)
  {
    if h == 0 {
      FlattenLength(size, leaves);
      Successor(|leaves| - 1, 2 * size);
    } else {
      Extent(size, leaves, h - 1);
      HalveExtent(Anc(|leaves| - 1, h - 1), Width(size, h - 1), |Flatten(leaves)|);
    }
  }

  lemma HalveExtent(a: nat, w: nat, n: nat)
    requires a * w < n <= (a + 1) * w
    ensures (a / 2) * (2 * w) < n <= (a / 2 + 1) * (2 * w)
  {
    assert (a / 2) * (2 * w) == (2 * (a / 2)) * w;
    assert (a / 2 + 1) * (2 * w) == (2 * (a / 2) + 2) * w;
    MulMonotone(w, 2 * (a / 2), a);
    MulMonotone(w, a + 1, 2 * (a / 2) + 2);
  }

  /** The bytes of `data` in [lo, lo + w), as far as they exist. */
  function Window(data: Bytes, lo: nat, w: nat): Bytes
    requires lo <= |data|
  {
    if |data| <= lo + w then data[lo..] else data[lo..lo + w]
  }

  /** The part of the data below node `k` at height `h`. */
  function Slice(size: nat, data: Bytes, h: nat, k: nat): Bytes
    requires k * Width(size, h) <= |data|
  {
    Window(data, k * Width(size, h), Width(size, h))
  }

  /** Every node's value is the reference hash of the data below it; a lone segment stays raw. */
  lemma {:induction false} NodeIsReference(hash: Bytes -> Bytes, size: nat, leaves: seq<Bytes>, h: nat, k: nat, s: nat)
    requires IsSplit(size, leaves) && 1 < |leaves| && k <= Anc(|leaves| - 1, h)
    requires k * Width(size, h) < |Flatten(leaves)|
    requires IsSpan(size, s) && |Slice(size, Flatten(leaves), h, k)| <= 2 * s
    ensures var d := Slice(size, Flatten(leaves), h, k);
      NodeValue(hash, size, leaves, h, k) == if |d| <= size then d else RefHash(hash, size, d, s)
    decreases h
  {
    var data := Flatten(leaves);
    var d := Slice(size, data, h, k);
    if h == 0 {
      LeafSlice(size, leaves, k);
      assert d + [] == d;
    } else {
      var w := Width(size, h - 1);
      Children(size, leaves, h, k);
      if 2 * k + 1 <= Anc(|leaves| - 1, h - 1) {
        NodeIsReference(hash, size, leaves, h - 1, 2 * k, w);
        NodeIsReference(hash, size, leaves, h - 1, 2 * k + 1, w);
        RefHashSpan(hash, size, d, s, w);
      } else {
        NodeIsReference(hash, size, leaves, h - 1, 2 * k, s);
      }
    }
  }

  lemma LeafSlice(size: nat, leaves: seq<Bytes>, k: nat)
    requires IsSplit(size, leaves) && k < |leaves|
    requires k * Width(size, 0) <= |Flatten(leaves)|
    ensures Slice(size, Flatten(leaves), 0, k) == leaves[k]
  {
    FlattenLength(size, leaves);
    FlattenAt(size, leaves, k);
  }

  /** A node's data is its left child's followed by its right child's. */
  lemma Children(size: nat, leaves: seq<Bytes>, h: nat, k: nat)
    requires IsSplit(size, leaves) && 1 < |leaves| && 0 < h && k <= Anc(|leaves| - 1, h)
    requires k * Width(size, h) < |Flatten(leaves)|
    ensures (2 * k) * Width(size, h - 1) < |Flatten(leaves)|
    ensures IsSpan(size, Width(size, h - 1)) && size < Width(size, h - 1)
    ensures var data, w := Flatten(leaves), Width(size, h - 1);
      var d, left := Slice(size, data, h, k), Slice(size, data, h - 1, 2 * k);
      if 2 * k + 1 <= Anc(|leaves| - 1, h - 1) then
        && (2 * k + 1) * w < |data|
        && var right := Slice(size, data, h - 1, 2 * k + 1);
        && |left| == w && 0 < |right| <= w && |d| == |left| + |right|
        && d[..w] == left && d[w..] == right
      else
        d == left
  {
    ChildExtent(size, leaves, h, k);
    WindowSplit(Flatten(leaves), k * Width(size, h), Width(size, h - 1));
  }

  /** The right child has data exactly when it lies left of or on the last leaf's path. */
  lemma ChildExtent(size: nat, leaves: seq<Bytes>, h: nat, k: nat)
    requires IsSplit(size, leaves) && 1 < |leaves| && 0 < h
    ensures IsSpan(size, Width(size, h - 1)) && size < Width(size, h - 1)
    ensures (2 * k) * Width(size, h - 1) == k * Width(size, h)
    ensures (2 * k + 1) * Width(size, h - 1) == k * Width(size, h) + Width(size, h - 1)
    ensures 2 * k + 1 <= Anc(|leaves| - 1, h - 1) <==>
      k * Width(size, h) + Width(size, h - 1) < |Flatten(leaves)|
  {
    var a, w := Anc(|leaves| - 1, h - 1), Width(size, h - 1);
    WidthIsSpan(size, h - 1);
    Extent(size, leaves, h - 1);
    Offsets(k, w);
    Beyond(a, 2 * k + 1, w, |Flatten(leaves)|);
  }

  lemma Beyond(a: nat, m: nat, w: nat, n: nat)
    requires a * w < n <= (a + 1) * w
    ensures m <= a <==> m * w < n
  {
    if m <= a {
      MulMonotone(w, m, a);
    } else {
      MulMonotone(w, a + 1, m);
    }
  }

  lemma Offsets(k: nat, w: nat)
    ensures (2 * k) * w == k * (2 * w) && (2 * k + 1) * w == k * (2 * w) + w
  {
  }

  lemma WindowSplit(data: Bytes, lo: nat, w: nat)
    requires lo < |data| && 0 < w
    ensures lo + w < |data| ==>
      && |Window(data, lo, w)| == w && 0 < |Window(data, lo + w, w)| <= w
      && |Window(data, lo, 2 * w)| == w + |Window(data, lo + w, w)|
      && Window(data, lo, 2 * w)[..w] == Window(data, lo, w)
      && Window(data, lo, 2 * w)[w..] == Window(data, lo + w, w)
    ensures |data| <= lo + w ==> Window(data, lo, 2 * w) == Window(data, lo, w)
  {
  }

  /** The whole tree computes the reference hash of the data, for every segment count. */
  lemma TreeIsReference(hash: Bytes -> Bytes, size: nat, leaves: seq<Bytes>, s: nat)
    requires IsSplit(size, leaves)
    requires IsSpan(size, s) && |Flatten(leaves)| <= 2 * s
    ensures TreeValue(hash, size, leaves) == RefHash(hash, size, Flatten(leaves), s)
  {
    var data := Flatten(leaves);
    FlattenLength(size, leaves);
    if |leaves| == 1 {
      assert leaves[..0] == [];
      assert data == leaves[0];
      assert data + [] == data;
    } else {
      var r := RootHeight(|leaves| - 1);
      RootHeightIsFirst(|leaves| - 1, r);
      Extent(size, leaves, r);
      Extent(size, leaves, 0);
      assert Slice(size, data, r, 0) == data;
      MulMonotone(2 * size, 1, |leaves| - 1);
      NodeIsReference(hash, size, leaves, r, 0, s);
    }
  }
}
