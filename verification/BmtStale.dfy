/** What a negative counter does at any node of any tree: the first to arrive there does not wait. */
module BmtStale {
  import opened BmtReference
  import opened BmtShape
  import opened BmtValue
  import opened BmtMachine
  import opened BmtInvariant
  import opened BmtSteps
  import opened BmtHasher

  /** The node lies in the subtree of node `k` at height `h`, above its leaves. */
  predicate Under(q: Pos, h: nat, k: nat) {
    0 < q.h <= h && Anc(q.k, h - q.h) == k
  }

  /** The leaves below the node are launched, and nothing else has happened there. */
  ghost predicate Waiting(c: Chunk, st: State, h: nat, k: nat) {
    && c.Valid() && h < c.depth && k < Anc(c.Last(), h) && |st.runners| == |c.leaves| && !st.main.Panicked?
    && (forall q :: q in st.tree <==> InTree(c.depth, q))
    && (forall j: nat :: j < |c.leaves| && Anc(j, h) == k ==>
          st.runners[j] == Leaf(c.leaves[j], c.depth) && !st.tree[Pos(0, j)].root)
    && (forall q :: Under(q, h, k) && q in st.tree ==> Quiet(st.tree[q]))
  }

  predicate Quiet(n: Node) {
    !n.unbalanced && !n.root && 0 <= n.state <= MAX_INT32 && n.state % 2 == 0
  }

  /** Nothing has happened outside the subtree. */
  ghost predicate Elsewhere(st: State, st': State, h: nat, k: nat) {
    && st'.main == st.main && |st'.runners| == |st.runners| && st'.tree.Keys == st.tree.Keys
    && (forall j: nat :: j < |st.runners| && Anc(j, h) != k ==> st'.runners[j] == st.runners[j])
    && (forall q :: q in st.tree && !Under(q, h, k) ==> st'.tree[q] == st.tree[q])
  }

  /** A goroutine of the subtree is about to store the subtree's value one level up. */
  ghost predicate Climbed(c: Chunk, st: State, h: nat, k: nat, j: nat)
    requires c.Valid()
  {
    && j < |st.runners| == |c.leaves| && Anc(j, h) == k <= Anc(c.Last(), h) && st.runners[j].At?
    && st.runners[j] ==
      At(h + 1, k % 2 == 0, Store, NodeValue(c.hash, c.size, c.leaves, h, k), st.runners[j].i, c.depth)
  }

  lemma {:induction false} Joined(c: Chunk, st: State, first: seq<Actor>, second: seq<Actor>)
    requires Legal(c, st, first) && Legal(c, Exec(c, st, first), second)
    ensures Legal(c, st, first + second) && Exec(c, st, first + second) == Exec(c, Exec(c, st, first), second)
    decreases |first|
  {
    if first == [] {
      assert first + second == second;
    } else {
      Joined(c, Next(c, st, first[0]), first[1..], second);
      assert (first + second)[1..] == first[1..] + second;
    }
  }

  lemma ReachesOn(c: Chunk, a: State, b: State, d: State)
    requires Reaches(c, a, b) && Reaches(c, b, d)
    ensures Reaches(c, a, d)
  {
    var first :| Legal(c, a, first) && Exec(c, a, first) == b;
    var second :| Legal(c, b, second) && Exec(c, b, second) == d;
    Joined(c, a, first, second);
    assert Legal(c, a, first + second) && Exec(c, a, first + second) == d;
  }

  /** A goroutine that is at a node can always take its next step. */
  ghost predicate Moves(c: Chunk, st: State, j: nat) {
    !st.main.Panicked? && 0 < |c.leaves| == |st.runners| && j < |st.runners|
  }

  lemma OneStep(c: Chunk, st: State, j: nat, st': State)
    requires Enabled(c, st, Goroutine(j)) && st' == Next(c, st, Goroutine(j))
    ensures Reaches(c, st, st')
  {
    Arrived(c, st');
    Step(c, st, Goroutine(j), st');
  }

  /** A full leaf is hashed and goes to its parent. */
  lemma LeafClimbs(c: Chunk, st: State, j: nat) returns (st': State)
    requires Moves(c, st, j) && st.runners[j] == Leaf(c.leaves[j], c.depth)
    requires Pos(0, j) in st.tree && !st.tree[Pos(0, j)].root
    ensures Reaches(c, st, st')
    ensures st' == st.(runners := st.runners[j := At(1, j % 2 == 0, Store, c.hash(c.leaves[j]), j, c.depth)])
  {
    var mid := Next(c, st, Goroutine(j));
    st' := Next(c, mid, Goroutine(j));
    assert st'.runners == st.runners[j := st'.runners[j]];
    Arrived(c, st');
    Step(c, mid, Goroutine(j), st');
    Step(c, st, Goroutine(j), st');
  }

  /** The value is stored, and the node is found to have two children. */
  lemma Stored(c: Chunk, st: State, j: nat) returns (st': State)
    requires Moves(c, st, j) && st.runners[j].At? && st.runners[j].pc == Store
    requires var p := Pos(st.runners[j].h, Anc(j, st.runners[j].h)); p in st.tree && !st.tree[p].unbalanced
    ensures Reaches(c, st, st')
    ensures var r := st.runners[j]; var p := Pos(r.h, Anc(j, r.h)); var n := st.tree[p];
      st' == st.(tree := st.tree[p := if r.isLeft then n.(left := r.s) else n.(right := r.s)],
                 runners := st.runners[j := r.(pc := Toggle)])
  {
    var mid := Next(c, st, Goroutine(j));
    st' := Next(c, mid, Goroutine(j));
    assert st'.runners == st.runners[j := st'.runners[j]];
    Arrived(c, st');
    Step(c, mid, Goroutine(j), st');
    Step(c, st, Goroutine(j), st');
  }

  /** The first arrival at a node whose counter is not negative waits. */
  lemma ArrivesFirst(c: Chunk, st: State, j: nat) returns (st': State)
    requires Moves(c, st, j) && st.runners[j].At? && st.runners[j].pc == Store && st.runners[j].isLeft
    requires var p := Pos(st.runners[j].h, Anc(j, st.runners[j].h)); p in st.tree && Quiet(st.tree[p])
    ensures Reaches(c, st, st')
    ensures var r := st.runners[j]; var p := Pos(r.h, Anc(j, r.h)); var n := st.tree[p];
      st' == st.(tree := st.tree[p := n.(left := r.s, state := n.state + 1)], runners := st.runners[j := Returned(r.h)])
  {
    hide Reaches;
    var r := st.runners[j];
    var p := Pos(r.h, Anc(j, r.h));
    var mid := Stored(c, st, j);
    ToggleAlternates(st.tree[p].state);
    st' := Next(c, mid, Goroutine(j));
    assert st'.tree == st.tree[p := st'.tree[p]] && st'.runners == st.runners[j := st'.runners[j]];
    OneStep(c, mid, j, st');
    ReachesOn(c, st, mid, st');
  }

  /** After the toggle the goroutine hashes what it finds. */
  lemma Combines(c: Chunk, st: State, j: nat) returns (st': State)
    requires Moves(c, st, j) && st.runners[j].At? && st.runners[j].pc == Toggle
    requires var p := Pos(st.runners[j].h, Anc(j, st.runners[j].h));
      p in st.tree && !st.tree[p].unbalanced && !Waits(st.tree[p].state)
    ensures Reaches(c, st, st')
    ensures var r := st.runners[j]; var p := Pos(r.h, Anc(j, r.h)); var n := st.tree[p];
      st' == st.(tree := st.tree[p := n.(state := Increment(n.state))],
                 runners := st.runners[j := r.(pc := Root, s := c.hash(n.left + n.right))])
  {
    var mid := Next(c, st, Goroutine(j));
    st' := Next(c, mid, Goroutine(j));
    assert st'.runners == st.runners[j := st'.runners[j]];
    Arrived(c, st');
    Step(c, mid, Goroutine(j), st');
    Step(c, st, Goroutine(j), st');
  }

  /** The second arrival hashes both values and goes on. */
  lemma ArrivesSecond(c: Chunk, st: State, j: nat) returns (st': State)
    requires Moves(c, st, j) && st.runners[j].At? && st.runners[j].pc == Store && !st.runners[j].isLeft
    requires var p := Pos(st.runners[j].h, Anc(j, st.runners[j].h));
      p in st.tree && Quiet(st.tree[p].(state := st.tree[p].state - 1))
    ensures Reaches(c, st, st')
    ensures var r := st.runners[j]; var p := Pos(r.h, Anc(j, r.h)); var n := st.tree[p];
      st' == st.(tree := st.tree[p := n.(right := r.s, state := Increment(n.state))],
                 runners := st.runners[j := At(r.h + 1, p.k % 2 == 0, Store, c.hash(n.left + r.s), r.i + 1, r.d)])
  {
    hide Reaches;
    var r := st.runners[j];
    var p := Pos(r.h, Anc(j, r.h));
    var n := st.tree[p];
    ToggleAlternates(n.state - 1);
    var one := Stored(c, st, j);
    var two := Combines(c, one, j);
    st' := Next(c, two, Goroutine(j));
    assert st'.tree == st.tree[p := st'.tree[p]] && st'.runners == st.runners[j := st'.runners[j]];
    OneStep(c, two, j, st');
    ReachesOn(c, st, one, two);
    ReachesOn(c, st, two, st');
  }

  /** What holds for a subtree holds for its halves. */
  lemma Halves(c: Chunk, st: State, h: nat, k: nat, side: nat)
    requires Waiting(c, st, h, k) && 0 < h && side < 2
    ensures Waiting(c, st, h - 1, 2 * k + side)
  {
    forall j: nat | j < |c.leaves| && Anc(j, h - 1) == 2 * k + side
      ensures Anc(j, h) == k
    {
    }
    forall q | Under(q, h - 1, 2 * k + side)
      ensures Under(q, h, k)
    {
    }
  }

  lemma StillWaiting(c: Chunk, st: State, st': State, h: nat, k: nat, p: Pos, j: nat)
    requires Waiting(c, st, h, k) && !Under(p, h, k) && p in st.tree && 0 < p.h && j < |st.runners| && Anc(j, h) != k
    requires p in st'.tree && |st'.runners| == |st.runners|
    requires st' == st.(tree := st.tree[p := st'.tree[p]], runners := st.runners[j := st'.runners[j]])
    ensures Waiting(c, st', h, k)
  {
    forall i: nat | i < |c.leaves| && Anc(i, h) == k
      ensures st'.runners[i] == Leaf(c.leaves[i], c.depth) && Pos(0, i) in st'.tree && !st'.tree[Pos(0, i)].root
    {
      PathInTree(c, i, 0);
    }
  }

  /** Waiting in one half is not disturbed by what happens in the other. */
  lemma OtherHalf(c: Chunk, st: State, st': State, h: nat, k: nat, k': nat)
    requires Waiting(c, st, h, k') && Elsewhere(st, st', h, k) && k != k'
    ensures Waiting(c, st', h, k')
  {
    forall i: nat | i < |c.leaves| && Anc(i, h) == k'
      ensures st'.runners[i] == Leaf(c.leaves[i], c.depth) && Pos(0, i) in st'.tree && !st'.tree[Pos(0, i)].root
    {
      PathInTree(c, i, 0);
    }
  }

  lemma HalfElsewhere(st: State, st': State, h: nat, k: nat, side: nat)
    requires 0 < h && side < 2 && Elsewhere(st, st', h - 1, 2 * k + side)
    ensures Elsewhere(st, st', h, k)
  {
    forall j: nat | Anc(j, h) != k
      ensures Anc(j, h - 1) != 2 * k + side
    {
    }
    forall q | !Under(q, h, k)
      ensures !Under(q, h - 1, 2 * k + side)
    {
    }
  }

  lemma OwnElsewhere(st: State, st': State, h: nat, k: nat, j: nat)
    requires 0 < h && Pos(h, k) in st.tree && Pos(h, k) in st'.tree
    requires j < |st.runners| == |st'.runners| && Anc(j, h) == k
    requires var p := Pos(h, k);
      st' == st.(tree := st.tree[p := st'.tree[p]], runners := st.runners[j := st'.runners[j]])
    ensures Elsewhere(st, st', h, k)
  {
  }

  lemma ElsewhereOn(a: State, b: State, d: State, h: nat, k: nat)
    requires Elsewhere(a, b, h, k) && Elsewhere(b, d, h, k)
    ensures Elsewhere(a, d, h, k)
  {
  }

  lemma SameNode(st: State, st': State, h: nat, k: nat, q: Pos)
    requires Elsewhere(st, st', h, k) && q in st.tree && h < q.h
    ensures q in st'.tree && st'.tree[q] == st.tree[q] && st'.main == st.main && |st'.runners| == |st.runners|
  {
  }

  lemma QuietNode(c: Chunk, st: State, h: nat, k: nat)
    requires Waiting(c, st, h, k) && 0 < h
    ensures Pos(h, k) in st.tree && Quiet(st.tree[Pos(h, k)])
    ensures !st.main.Panicked? && 0 < |c.leaves| == |st.runners|
    ensures 2 * k + 1 < Anc(c.Last(), h - 1)
    ensures NodeValue(c.hash, c.size, c.leaves, h, k) ==
      c.hash(NodeValue(c.hash, c.size, c.leaves, h - 1, 2 * k) + NodeValue(c.hash, c.size, c.leaves, h - 1, 2 * k + 1))
  {
    PathInTree(c, c.Last(), h);
    assert Under(Pos(h, k), h, k);
  }

  /** A subtree of full leaves can be worked off without anything else moving. */
  lemma {:induction false} Climb(c: Chunk, st: State, h: nat, k: nat) returns (st': State, j: nat)
    requires c.Valid() && Waiting(c, st, h, k)
    ensures Reaches(c, st, st') && Elsewhere(st, st', h, k) && Climbed(c, st', h, k, j)
    decreases h
  {
    hide Waiting, Elsewhere, Reaches, NodeValue, Climbed, LeftDone, Anc, IsSplit;
    if h == 0 {
      st', j := ClimbLeaf(c, st, k);
    } else {
      Halves(c, st, h, k, 0);
      Halves(c, st, h, k, 1);
      var one, left := Climb(c, st, h - 1, 2 * k);
      OtherHalf(c, st, one, h - 1, 2 * k, 2 * k + 1);
      var two := FirstHalf(c, st, one, h, k, left);
      var three;
      three, j := Climb(c, two, h - 1, 2 * k + 1);
      st' := SecondHalf(c, st, two, three, h, k, j);
    }
  }

  lemma ClimbLeaf(c: Chunk, st: State, k: nat) returns (st': State, j: nat)
    requires Waiting(c, st, 0, k)
    ensures Reaches(c, st, st') && Elsewhere(st, st', 0, k) && Climbed(c, st', 0, k, j)
  {
    j := k;
    PathInTree(c, k, 0);
    st' := LeafClimbs(c, st, k);
  }

  /** The left child's value is at the node, and its goroutine has toggled. */
  ghost predicate LeftDone(c: Chunk, st: State, st': State, h: nat, k: nat) {
    && c.Valid() && 0 < h && 2 * k <= Anc(c.Last(), h - 1) && Pos(h, k) in st.tree && Pos(h, k) in st'.tree
    && var n, left := st.tree[Pos(h, k)], NodeValue(c.hash, c.size, c.leaves, h - 1, 2 * k);
      st'.tree[Pos(h, k)] == n.(left := left, state := n.state + 1)
  }

  lemma FirstHalf(c: Chunk, st: State, one: State, h: nat, k: nat, left: nat) returns (two: State)
    requires c.Valid() && Waiting(c, st, h, k) && 0 < h && Reaches(c, st, one) && Elsewhere(st, one, h - 1, 2 * k)
    requires Climbed(c, one, h - 1, 2 * k, left) && Waiting(c, one, h - 1, 2 * k + 1)
    ensures Reaches(c, st, two) && Elsewhere(st, two, h, k) && Waiting(c, two, h - 1, 2 * k + 1)
    ensures LeftDone(c, st, two, h, k)
  {
    hide Waiting, Elsewhere, Reaches, NodeValue;
    QuietNode(c, st, h, k);
    SameNode(st, one, h - 1, 2 * k, Pos(h, k));
    two := ArrivesFirst(c, one, left);
    ReachesOn(c, st, one, two);
    StillWaiting(c, one, two, h - 1, 2 * k + 1, Pos(h, k), left);
    OwnElsewhere(one, two, h, k, left);
    HalfElsewhere(st, one, h, k, 0);
    ElsewhereOn(st, one, two, h, k);
  }

  lemma SecondHalf(c: Chunk, st: State, two: State, three: State, h: nat, k: nat, j: nat) returns (st': State)
    requires c.Valid() && Waiting(c, st, h, k) && 0 < h && Reaches(c, st, two) && Elsewhere(st, two, h, k)
    requires LeftDone(c, st, two, h, k)
    requires Reaches(c, two, three) && Elsewhere(two, three, h - 1, 2 * k + 1)
    requires Climbed(c, three, h - 1, 2 * k + 1, j)
    ensures Reaches(c, st, st') && Elsewhere(st, st', h, k) && Climbed(c, st', h, k, j)
  {
    hide Waiting, Elsewhere, Reaches, NodeValue;
    QuietNode(c, st, h, k);
    SameMain(st, two, h, k);
    SameNode(two, three, h - 1, 2 * k + 1, Pos(h, k));
    st' := ArrivesSecond(c, three, j);
    ReachesOn(c, st, two, three);
    ReachesOn(c, st, three, st');
    OwnElsewhere(three, st', h, k, j);
    HalfElsewhere(two, three, h, k, 1);
    ElsewhereOn(st, two, three, h, k);
    ElsewhereOn(st, three, st', h, k);
  }

  lemma SameMain(st: State, st': State, h: nat, k: nat)
    requires Elsewhere(st, st', h, k)
    ensures st'.main == st.main && |st'.runners| == |st.runners|
  {
  }

  /** The first leaf below a node. */
  function First(h: nat, k: nat): nat {
    if h == 0 then k else First(h - 1, 2 * k)
  }

  lemma {:induction false} FirstLeaf(j: nat, h: nat, k: nat)
    ensures k <= Anc(j, h) <==> First(h, k) <= j
  {
    if h > 0 {
      FirstLeaf(j, h - 1, 2 * k);
    }
  }

  /** The first `n` leaves are launched. */
  function Launched(c: Chunk, tree0: Tree, n: nat): State {
    State(tree0, seq(|c.leaves|, i => if 0 <= i < n && i < |c.leaves| then Spawn(c, i, c.leaves[i], c.depth) else Idle),
          Launching(n))
  }

  lemma {:induction false} Launches(c: Chunk, tree0: Tree, n: nat, st: State)
    requires c.Valid() && n <= c.Last() && Reaches(c, Launched(c, tree0, n), st)
    ensures Reaches(c, Initial(c, tree0), st)
  {
    hide Reaches;
    if n == 0 {
      assert Launched(c, tree0, 0).runners == Initial(c, tree0).runners;
    } else {
      var before := Launched(c, tree0, n - 1);
      assert Next(c, before, MainThread).runners == Launched(c, tree0, n).runners;
      Step(c, before, MainThread, st);
      Launches(c, tree0, n - 1, st);
    }
  }

  /** A clean tree, except that node `p`, which has data below both children, has a negative counter. */
  ghost predicate Worn(c: Chunk, tree0: Tree, p: Pos) {
    && c.Valid() && Balanced(c, p.h, p.k) && p.h <= c.depth
    && (forall q :: q in tree0 <==> InTree(c.depth, q))
    && (forall q :: q in tree0 ==> !tree0[q].unbalanced && (tree0[q].root <==> q.h == c.depth))
    && (forall q :: q in tree0 && q != p ==> 0 <= tree0[q].state <= MAX_INT32 && tree0[q].state % 2 == 0)
    && p in tree0 && MIN_INT32 <= tree0[p].state < 0 && tree0[p].state % 2 == 0
  }

  /** A goroutine has hashed its own value with what an earlier chunk left at the right of the node, while no
      leaf below the right child has been launched. */
  ghost predicate UsesStale(c: Chunk, tree0: Tree, p: Pos, st: State, j: nat)
    requires Worn(c, tree0, p)
  {
    && j < |st.runners| == |c.leaves| && Anc(j, p.h - 1) == 2 * p.k && st.runners[j].At?
    && st.runners[j].h == p.h && st.runners[j].pc == Root
    && st.runners[j].s == c.hash(NodeValue(c.hash, c.size, c.leaves, p.h - 1, 2 * p.k) + tree0[p].right)
    && forall i: nat :: i < |c.leaves| && Anc(i, p.h - 1) == 2 * p.k + 1 ==> st.runners[i] == Idle
  }

  /** The leaves below the left child are all full, and can be launched before those of the right child. */
  lemma LeftLaunched(c: Chunk, tree0: Tree, p: Pos)
    requires Worn(c, tree0, p)
    ensures var n := First(p.h - 1, 2 * p.k + 1); n <= c.Last()
    ensures var st := Launched(c, tree0, First(p.h - 1, 2 * p.k + 1));
      && Waiting(c, st, p.h - 1, 2 * p.k)
      && forall i: nat :: i < |c.leaves| && Anc(i, p.h - 1) == 2 * p.k + 1 ==> st.runners[i] == Idle
  {
    var h, k := p.h - 1, 2 * p.k;
    var n := First(h, k + 1);
    FirstLeaf(c.Last(), h, k + 1);
    var st := Launched(c, tree0, n);
    forall i: nat | i < |c.leaves|
      ensures Anc(i, h) == k ==> st.runners[i] == Leaf(c.leaves[i], c.depth) && !st.tree[Pos(0, i)].root
      ensures Anc(i, h) == k + 1 ==> st.runners[i] == Idle
    {
      FirstLeaf(i, h, k + 1);
      PathInTree(c, i, 0);
    }
    forall q | Under(q, h, k) && q in st.tree
      ensures Quiet(st.tree[q])
    {
    }
  }

  /** The goroutine of the left child finds the counter negative and goes on. */
  lemma PassesNegative(c: Chunk, one: State, p: Pos, j: nat, n: Node) returns (st: State)
    requires c.Valid() && 0 < p.h && Climbed(c, one, p.h - 1, 2 * p.k, j) && !one.main.Panicked?
    requires p in one.tree && one.tree[p] == n && !n.unbalanced && MIN_INT32 <= n.state < 0 && n.state % 2 == 0
    ensures Reaches(c, one, st) && |st.runners| == |one.runners| && st.runners[j].At?
    ensures st.runners[j].h == p.h && st.runners[j].pc == Root
    ensures st.runners[j].s == c.hash(NodeValue(c.hash, c.size, c.leaves, p.h - 1, 2 * p.k) + n.right)
    ensures forall i: nat :: i < |st.runners| && i != j ==> st.runners[i] == one.runners[i]
  {
    hide Reaches, NodeValue, IsSplit;
    var two := Stored(c, one, j);
    ToggleAlternates(n.state);
    st := Combines(c, two, j);
    ReachesOn(c, one, two, st);
  }

  lemma StillIdle(c: Chunk, st: State, st': State, h: nat, k: nat)
    requires Elsewhere(st, st', h, k) && |st.runners| == |c.leaves|
    requires forall i: nat :: i < |c.leaves| && Anc(i, h) == k + 1 ==> st.runners[i] == Idle
    ensures forall i: nat :: i < |c.leaves| && Anc(i, h) == k + 1 ==> st'.runners[i] == Idle
  {
  }

  /** At every node with data below both children, a negative counter lets the first arrival use a stale value. */
  lemma NegativeUsesStale(c: Chunk, tree0: Tree, p: Pos) returns (st: State, j: nat)
    requires Worn(c, tree0, p)
    ensures Reaches(c, Initial(c, tree0), st) && UsesStale(c, tree0, p, st, j)
  {
    hide Reaches, Waiting, NodeValue, Elsewhere, IsSplit, First;
    var start := Launched(c, tree0, First(p.h - 1, 2 * p.k + 1));
    LeftLaunched(c, tree0, p);
    var one;
    one, j := Climb(c, start, p.h - 1, 2 * p.k);
    SameNode(start, one, p.h - 1, 2 * p.k, p);
    StillIdle(c, start, one, p.h - 1, 2 * p.k);
    st := PassesNegative(c, one, p, j, tree0[p]);
    ReachesOn(c, start, one, st);
    Launches(c, tree0, First(p.h - 1, 2 * p.k + 1), st);
  }
}
