/** Index arithmetic of the binary Merkle tree: leaf `j` sits at height 0, and the node it reaches
    after `h` parent links is number `Anc(j, h)` on its level. */
module BmtShape {

  /** The ancestor of leaf `j` at height `h`; `prevlevel[i/2]` is the parent of node `i`. */
  function Anc(j: nat, h: nat): nat {
    if h == 0 then j else Anc(j, h - 1) / 2
  }

  /** The number of the last leaf of a tree of the given depth. */
  function Ones(depth: nat): nat {
    if depth == 0 then 0 else 2 * Ones(depth - 1) + 1
  }

  /** The height at which the path from leaf `j` first meets a node with index 0. */
  function RootHeight(j: nat): nat {
    if j == 0 then 0 else 1 + RootHeight(j / 2)
  }

  lemma {:induction false} AncHalf(j: nat, h: nat)
    ensures Anc(j / 2, h) == Anc(j, h + 1)
  {
    if h > 0 {
      AncHalf(j, h - 1);
    }
  }

  lemma {:induction false} AncMonotone(i: nat, j: nat, h: nat)
    requires i <= j
    ensures Anc(i, h) <= Anc(j, h)
  {
    if h > 0 {
      AncMonotone(i, j, h - 1);
    }
  }

  /** The path from leaf `j` meets index 0 at `RootHeight(j)` and not below it. */
  lemma {:induction false} RootHeightIsFirst(j: nat, h: nat)
    ensures Anc(j, h) == 0 <==> RootHeight(j) <= h
  {
    if j == 0 {
      if h > 0 { RootHeightIsFirst(0, h - 1); }
    } else if h > 0 {
      AncHalf(j, h - 1);
      RootHeightIsFirst(j / 2, h - 1);
    }
  }

  lemma {:induction false} AncOnes(depth: nat, h: nat)
    requires h <= depth
    ensures Anc(Ones(depth), h) == Ones(depth - h)
  {
    if h > 0 {
      AncHalf(Ones(depth), h - 1);
      AncOnes(depth - 1, h - 1);
    }
  }

  /** Every leaf of a tree of the given depth meets index 0 no higher than the tree root. */
  lemma RootHeightInTree(j: nat, depth: nat)
    requires j <= Ones(depth)
    ensures RootHeight(j) <= depth
    ensures Anc(j, depth) == 0
  {
    AncMonotone(j, Ones(depth), depth);
    AncOnes(depth, depth);
    RootHeightIsFirst(j, depth);
  }
}
