/** The concurrent half of the fast Hasher, as a state machine: the caller's thread (Write's launches,
    finalise, Sum) interleaved with one goroutine per leaf (writeSegment and run). */
module BmtMachine {
  import opened BmtReference
  import opened BmtShape
  import opened BmtValue

  const MIN_INT32: int := -0x8000_0000
  const MAX_INT32: int := 0x7fff_ffff

  datatype Node = Node(left: Bytes, right: Bytes, state: int, unbalanced: bool, root: bool)

  /** Node number `k` at height `h`; the code's level is depth minus height. */
  datatype Pos = Pos(h: nat, k: nat)

  type Tree = map<Pos, Node>

  predicate InTree(depth: nat, p: Pos) {
    p.h <= depth && p.k <= Ones(depth - p.h)
  }

  /** One hash computation: the leaves that Write cut, and the tree used for it. */
  datatype Chunk = Chunk(hash: Bytes -> Bytes, size: nat, depth: nat, leaves: seq<Bytes>) {
    ghost predicate Valid() {
      IsSplit(size, leaves) && |leaves| - 1 <= Ones(depth)
    }

    function Last(): nat
      requires 0 < |leaves|
    {
      |leaves| - 1
    }
  }

  /** atomic.AddInt32(&n.state, 1) wraps around. */
  function Increment(state: int): int {
    if state == MAX_INT32 then MIN_INT32 else state + 1
  }

  /** Go's `% 2` truncates towards zero. */
  function Rem2(x: int): int {
    if x >= 0 then x % 2 else -((-x) % 2)
  }

  /** Node.toggle: whether the caller is the one that has to wait. */
  predicate Waits(state: int) {
    Rem2(Increment(state)) == 1
  }

  datatype Pc = Store | Test | Toggle | Combine | Root

  /** A goroutine, identified by the leaf it was started for. `h` is the height of its current node;
      a goroutine that is gone keeps the height at which it ended. */
  datatype Runner =
    | Idle
    | Leaf(s: Bytes, d: nat)
    | LeafRoot(s: Bytes, d: nat)
    | At(h: nat, isLeft: bool, pc: Pc, s: Bytes, i: nat, d: nat)
    | Sending(h: nat, s: Bytes)
    | Sent(h: nat)
    | Returned(h: nat)

  datatype Main =
    | Launching(n: nat)
    | Finalising(h: nat, isLeft: bool, d: nat, phase: nat)
    | Ready(d: nat)
    | Waiting
    | Received(value: Bytes)
    | Released(value: Bytes)
    | Panicked

  datatype State = State(tree: Tree, runners: seq<Runner>, main: Main)

  datatype Actor = MainThread | Goroutine(j: nat)

  function Initial(c: Chunk, tree: Tree): State {
    State(tree, seq(|c.leaves|, _ => Idle), Launching(0))
  }

  /** writeSegment: a leaf with both segments hashes them first, unless the tree is a single node. */
  function Spawn(c: Chunk, j: nat, s: Bytes, d: nat): Runner {
    if |s| > c.size && c.depth > 0 then Leaf(s, d) else At(0, true, Store, s, 2 * j, d)
  }

  predicate Enabled(c: Chunk, st: State, a: Actor) {
    !st.main.Panicked? && 0 < |c.leaves| == |st.runners| &&
    match a
    case MainThread =>
      (match st.main
       case Launching(n) => n <= c.Last()
       case Finalising(_, _, _, _) => true
       case Ready(_) => true
       case Received(_) => true
       case _ => false)
    case Goroutine(j) =>
      j < |st.runners| &&
      match st.runners[j]
      case Leaf(_, _) => true
      case LeafRoot(_, _) => true
      case At(_, _, _, _, _, _) => true
      case Sending(_, _) => st.main.Waiting?
      case _ => false
  }

  function Next(c: Chunk, st: State, a: Actor): State
    requires Enabled(c, st, a)
  {
    match a
    case MainThread => MainStep(c, st)
    case Goroutine(j) =>
      if st.runners[j].At? then RunStep(c, st, j) else LeafStep(c, st, j)
  }

  function MainStep(c: Chunk, st: State): State
    requires Enabled(c, st, MainThread)
  {
    var last := c.Last();
    match st.main
    case Launching(n) =>
      if n < last then
        st.(runners := st.runners[n := Spawn(c, n, c.leaves[n], c.depth)], main := Launching(n + 1))
      else if |c.leaves[last]| > c.size && last > 0 && c.depth > 0 then
        st.(main := Finalising(1, last % 2 == 0, 0, 0))
      else
        st.(main := Finalising(0, true, 0, 0))
    case Finalising(h, isLeft, d, phase) =>
      var p := Pos(h, Anc(last, h));
      if p !in st.tree then st.(main := Panicked)
      else if phase == 0 then
        st.(tree := st.tree[p := st.tree[p].(unbalanced := isLeft)], main := Finalising(h, isLeft, d, 1))
      else if phase == 1 then
        st.(tree := st.tree[p := st.tree[p].(right := [])], main := Finalising(h, isLeft, d, 2))
      else if p.k == 0 then
        st.(tree := st.tree[p := st.tree[p].(root := true)], main := Ready(d))
      else
        st.(main := Finalising(h + 1, p.k % 2 == 0, d + 1, 0))
    case Ready(d) =>
      st.(runners := st.runners[last := Spawn(c, last, c.leaves[last], d)], main := Waiting)
    case Received(value) =>
      st.(tree := ReleasePath(c.depth, st.tree, last, 0), main := Released(value))
    case _ => st
  }

  /** releaseTree: clear the flags on the path from the last leaf to the tree root. */
  function ReleasePath(depth: nat, tree: Tree, last: nat, h: nat): Tree
    decreases depth + 1 - h
  {
    var p := Pos(h, Anc(last, h));
    if h > depth || p !in tree then tree
    else
      var node := tree[p].(unbalanced := false);
      ReleasePath(depth, tree[p := if h < depth then node.(root := false) else node], last, h + 1)
  }

  /** The goroutine of writeSegment before it enters run, and the rendezvous on the result channel. */
  function LeafStep(c: Chunk, st: State, j: nat): State
    requires Enabled(c, st, Goroutine(j)) && !st.runners[j].At?
  {
    match st.runners[j]
    case Leaf(s, d) => st.(runners := st.runners[j := LeafRoot(c.hash(s), d)])
    case LeafRoot(s, d) =>
      if Pos(0, j) !in st.tree then st.(main := Panicked)
      else if st.tree[Pos(0, j)].root then st.(runners := st.runners[j := Sending(0, s)])
      else st.(runners := st.runners[j := At(1, j % 2 == 0, Store, s, j, d)])
    case Sending(h, s) => st.(runners := st.runners[j := Sent(h)], main := Received(s))
    case _ => st
  }

  /** One step of the loop in run. */
  function RunStep(c: Chunk, st: State, j: nat): State
    requires Enabled(c, st, Goroutine(j)) && st.runners[j].At?
  {
    var At(h, isLeft, pc, s, i, d) := st.runners[j];
    var p := Pos(h, Anc(j, h));
    if p !in st.tree then st.(main := Panicked) else
    var n := st.tree[p];
    match pc
    case Store =>
      var n' := if isLeft then n.(left := s) else n.(right := s);
      st.(tree := st.tree[p := n'], runners := st.runners[j := At(h, isLeft, Test, s, i, d)])
    case Test =>
      st.(runners := st.runners[j := At(h, isLeft, if n.unbalanced then Combine else Toggle, s, i, d)])
    case Toggle =>
      st.(tree := st.tree[p := n.(state := Increment(n.state))],
          runners := st.runners[j := if Waits(n.state) then Returned(h) else At(h, isLeft, Combine, s, i, d)])
    case Combine =>
      var both := n.left + n.right;
      var s' := if !n.unbalanced || !isLeft || (i == 0 && d == 0) then c.hash(both) else both;
      st.(runners := st.runners[j := At(h, isLeft, Root, s', i, d)])
    case Root =>
      st.(runners := st.runners[j :=
        if n.root then Sending(h, s) else At(h + 1, p.k % 2 == 0, Store, s, i + 1, d)])
  }

  /** A schedule is any sequence of enabled steps. */
  ghost predicate Legal(c: Chunk, st: State, schedule: seq<Actor>)
    decreases |schedule|
  {
    schedule == [] ||
    (Enabled(c, st, schedule[0]) && Legal(c, Next(c, st, schedule[0]), schedule[1..]))
  }

  ghost function Exec(c: Chunk, st: State, schedule: seq<Actor>): State
    requires Legal(c, st, schedule)
    decreases |schedule|
  {
    if schedule == [] then st else Exec(c, Next(c, st, schedule[0]), schedule[1..])
  }

  /** A tree between two chunks: flags cleared, toggles even. */
  ghost predicate Clean(depth: nat, tree: Tree) {
    && (forall p :: p in tree <==> InTree(depth, p))
    && (forall p :: p in tree ==>
          !tree[p].unbalanced && (tree[p].root <==> p.h == depth) && tree[p].state % 2 == 0)
  }

  /** Toggles that have not wrapped around yet. */
  ghost predicate Fresh(tree: Tree) {
    forall p :: p in tree ==> 0 <= tree[p].state <= MAX_INT32
  }
}
