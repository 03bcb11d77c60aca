/** What every interleaving of the hasher's goroutines keeps. */
module BmtInvariant {
  import opened BmtReference
  import opened BmtShape
  import opened BmtValue
  import opened BmtMachine

  /** How many levels a goroutine has got past: it owns the value of its node at every lower height. */
  function Pass(r: Runner): nat {
    match r
    case Idle => 0
    case Leaf(_, _) => 0
    case LeafRoot(_, _) => 1
    case At(h, _, pc, _, _, _) => if pc == Combine || pc == Root then h + 1 else h
    case Sending(h, _) => h + 1
    case Sent(h) => h + 1
    case Returned(h) => h
  }

  predicate Toggled(r: Runner, h: nat) {
    Pass(r) > h || r == Returned(h)
  }

  function Top(c: Chunk): nat
    requires 0 < |c.leaves|
  {
    RootHeight(c.Last())
  }

  /** Node `k` at height `h` > 0 has data below both children. */
  predicate Balanced(c: Chunk, h: nat, k: nat)
    requires 0 < |c.leaves|
  {
    0 < h && 2 * k + 1 <= Anc(c.Last(), h - 1)
  }

  /** The last leaf's path enters its node at height `h` from the left. */
  predicate FromLeft(c: Chunk, h: nat)
    requires 0 < |c.leaves|
  {
    h == 0 || Anc(c.Last(), h - 1) % 2 == 0
  }

  /** The height at which finalise starts. */
  function Start(c: Chunk): nat
    requires 0 < |c.leaves|
  {
    if |c.leaves[c.Last()]| > c.size && c.Last() > 0 && c.depth > 0 then 1 else 0
  }

  predicate Finalised(main: Main, h: nat, phase: nat) {
    match main
    case Launching(_) => false
    case Finalising(g, _, _, ph) => h < g || (h == g && phase <= ph)
    case _ => true
  }

  predicate RootSet(main: Main) {
    main.Ready? || main.Waiting? || main.Received?
  }

  /** The value goroutine `j` carries into its node at height `h`. */
  ghost function Carried(c: Chunk, j: nat, h: nat): Bytes
    requires c.Valid() && j <= c.Last()
  {
    if h == 0 then c.leaves[j]
    else
      AncMonotone(j, c.Last(), h - 1);
      NodeValue(c.hash, c.size, c.leaves, h - 1, Anc(j, h - 1))
  }

  ghost function Produced(c: Chunk, j: nat, h: nat): Bytes
    requires c.Valid() && j <= c.Last()
  {
    if c.Last() == 0 then c.hash(c.leaves[0]) else Carried(c, j, h + 1)
  }

  ghost predicate Control(c: Chunk, st: State)
    requires c.Valid()
  {
    var last := c.Last();
    && |st.runners| == |c.leaves|
    && (forall p :: p in st.tree <==> InTree(c.depth, p))
    && (match st.main
        case Launching(n) => n <= last && forall j :: 0 <= j <= last ==> (st.runners[j].Idle? <==> n <= j)
        case Finalising(h, isLeft, d, phase) =>
          Start(c) <= h <= Top(c) && isLeft == FromLeft(c, h) && phase <= 2 && d == h - Start(c)
        case Ready(d) => d == Top(c) - Start(c)
        case Waiting => !st.runners[last].Idle?
        case Received(value) =>
          && value == TreeValue(c.hash, c.size, c.leaves)
          && exists j :: 0 <= j <= last && st.runners[j] == Sent(Top(c))
        case Released(_) => false
        case Panicked => false)
    && (!st.main.Launching? ==> forall j :: 0 <= j < last ==> !st.runners[j].Idle?)
    && (st.main.Finalising? || st.main.Ready? ==> st.runners[last].Idle?)
    && (forall j :: 0 <= j <= last && st.runners[j].Sent? ==> st.main.Received?)
  }

  ghost predicate LocalOk(c: Chunk, j: nat, r: Runner)
    requires c.Valid() && j <= c.Last()
  {
    match r
    case Idle => true
    case Leaf(s, d) => |s| > c.size && c.depth > 0 && s == c.leaves[j] && (c.Last() > 0 ==> j > 0 || d > 0)
    case LeafRoot(s, d) =>
      |c.leaves[j]| > c.size && c.depth > 0 && s == c.hash(c.leaves[j]) && (c.Last() > 0 ==> j > 0 || d > 0)
    case At(h, isLeft, pc, s, i, d) =>
      && h <= Top(c)
      && (h == 0 ==> j == c.Last() && (|c.leaves[j]| <= c.size || c.depth == 0))
      && isLeft == (h == 0 || Anc(j, h - 1) % 2 == 0)
      && ((i == 0 && d == 0) <==> c.Last() == 0)
      && (pc == Store || pc == Test || pc == Toggle ==> s == Carried(c, j, h))
      && (pc == Toggle ==> Balanced(c, h, Anc(j, h)))
      && (pc == Root ==> s == Produced(c, j, h))
    case Sending(h, s) => h == Top(c) && s == TreeValue(c.hash, c.size, c.leaves)
    case Sent(h) => h == Top(c)
    case Returned(h) => Balanced(c, h, Anc(j, h)) && h <= Top(c)
  }

  ghost predicate Locals(c: Chunk, runners: seq<Runner>)
    requires c.Valid() && |runners| == |c.leaves|
  {
    forall j :: 0 <= j <= c.Last() ==> LocalOk(c, j, runners[j])
  }

  /** Whoever owns a node's value is the only one still alive below that node. */
  ghost predicate Exclusive(c: Chunk, runners: seq<Runner>)
    requires c.Valid() && |runners| == |c.leaves|
  {
    forall i, j, h: nat {:trigger Anc(i, h), Anc(j, h)} ::
      0 <= i <= c.Last() && 0 <= j <= c.Last() && i != j && h < Pass(runners[j]) && Anc(i, h) == Anc(j, h) ==>
        runners[i].Returned? && runners[i].h <= h
  }

  ghost predicate Untouched(c: Chunk, runners: seq<Runner>, h: nat, k: nat)
    requires c.Valid() && |runners| == |c.leaves|
  {
    forall j :: 0 <= j <= c.Last() && Anc(j, h) == k ==> !Toggled(runners[j], h)
  }

  ghost predicate OneWaits(c: Chunk, runners: seq<Runner>, h: nat, k: nat)
    requires c.Valid() && |runners| == |c.leaves|
  {
    exists w :: 0 <= w <= c.Last() && Anc(w, h) == k && runners[w] == Returned(h) &&
      forall j :: 0 <= j <= c.Last() && Anc(j, h) == k && Toggled(runners[j], h) ==> j == w
  }

  ghost predicate OnePassed(c: Chunk, runners: seq<Runner>, h: nat, k: nat)
    requires c.Valid() && |runners| == |c.leaves|
  {
    exists j :: 0 <= j <= c.Last() && Anc(j, h) == k && Pass(runners[j]) > h
  }

  /** The toggle of a node tells exactly how many of its two goroutines have arrived. */
  ghost predicate NodeOk(c: Chunk, s0: int, n: Node, runners: seq<Runner>, p: Pos)
    requires c.Valid() && |runners| == |c.leaves|
  {
    if p.h <= Top(c) && Balanced(c, p.h, p.k) then
      || (n.state == s0 && Untouched(c, runners, p.h, p.k))
      || (n.state == Increment(s0) && OneWaits(c, runners, p.h, p.k))
      || (n.state == Increment(Increment(s0)) && OnePassed(c, runners, p.h, p.k)
          && n.left == NodeValue(c.hash, c.size, c.leaves, p.h - 1, 2 * p.k)
          && n.right == NodeValue(c.hash, c.size, c.leaves, p.h - 1, 2 * p.k + 1))
    else
      n.state == s0
  }

  ghost predicate Nodes(c: Chunk, tree0: Tree, st: State)
    requires c.Valid() && |st.runners| == |c.leaves|
  {
    forall p :: p in st.tree ==> p in tree0 && NodeOk(c, tree0[p].state, st.tree[p], st.runners, p)
  }

  /** A goroutine that has stored its value finds it unchanged while it is at the node or waits there. */
  ghost predicate Deposited(c: Chunk, tree: Tree, j: nat, r: Runner)
    requires c.Valid() && j <= c.Last()
  {
    (r.At? && r.pc != Store) || r.Returned? ==>
      var p := Pos(r.h, Anc(j, r.h));
      p in tree &&
      (if r.h == 0 || Anc(j, r.h - 1) % 2 == 0 then tree[p].left else tree[p].right) == Carried(c, j, r.h)
  }

  ghost predicate Deposits(c: Chunk, st: State)
    requires c.Valid() && |st.runners| == |c.leaves|
  {
    forall j :: 0 <= j <= c.Last() ==> Deposited(c, st.tree, j, st.runners[j])
  }

  /** The flags that finalise sets, as far as it has got. */
  ghost predicate FlagsOk(c: Chunk, main: Main, n: Node, p: Pos)
    requires c.Valid()
  {
    var onPath := Start(c) <= p.h <= Top(c) && p.k == Anc(c.Last(), p.h) && FromLeft(c, p.h);
    && (n.unbalanced <==> onPath && Finalised(main, p.h, 1))
    && (n.root <==> p.h == c.depth || (p == Pos(Top(c), 0) && RootSet(main)))
    && (onPath && Finalised(main, p.h, 2) ==> n.right == [])
  }

  ghost predicate Flags(c: Chunk, st: State)
    requires c.Valid()
  {
    forall p :: p in st.tree ==> FlagsOk(c, st.main, st.tree[p], p)
  }

  ghost predicate Inv(c: Chunk, tree0: Tree, st: State) {
    && c.Valid()
    && Control(c, st) && Locals(c, st.runners) && Exclusive(c, st.runners)
    && Nodes(c, tree0, st) && Deposits(c, st) && Flags(c, st)
  }

  lemma InitialInv(c: Chunk, tree0: Tree)
    requires c.Valid() && Clean(c.depth, tree0)
    ensures Inv(c, tree0, Initial(c, tree0))
  {
  }
}
