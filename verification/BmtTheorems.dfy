/** The fast Hasher computes the reference hash: in every interleaving, for every chunk, again and again. */
module BmtTheorems {
  import opened BmtReference
  import opened BmtShape
  import opened BmtValue
  import opened BmtMachine
  import opened BmtInvariant
  import opened BmtSteps
  import opened BmtRunSteps

  /** The chunk is hashed and the tree handed back. */
  ghost predicate Finished(c: Chunk, tree0: Tree, st: State) {
    && c.Valid() && |st.runners| == |c.leaves|
    && st.main == Released(TreeValue(c.hash, c.size, c.leaves))
    && (exists j :: 0 <= j <= c.Last() && OnlySender(c, st, j))
    && Clean(c.depth, st.tree)
    && ToggledTwice(tree0, st.tree)
  }

  /** Every node was toggled twice or not at all. */
  ghost predicate ToggledTwice(before: Tree, after: Tree) {
    forall p :: p in after ==> p in before && TwiceOrNever(before[p].state, after[p].state)
  }

  /** Goroutine `j` handed over the result, and every other one has returned. */
  ghost predicate OnlySender(c: Chunk, st: State, j: nat)
    requires |st.runners| == |c.leaves|
  {
    j < |c.leaves| && st.runners[j].Sent? && forall i :: 0 <= i < |c.leaves| && i != j ==> st.runners[i].Returned?
  }

  predicate TwiceOrNever(before: int, after: int) {
    after == before || after == Increment(Increment(before))
  }

  ghost predicate Reachable(c: Chunk, tree0: Tree, st: State) {
    Inv(c, tree0, st) || Finished(c, tree0, st)
  }

  /** After the result is received nobody else is running. */
  lemma AllDone(c: Chunk, tree0: Tree, st: State)
    requires Inv(c, tree0, st) && st.main.Received?
    ensures exists j :: 0 <= j <= c.Last() && OnlySender(c, st, j)
  {
    var j :| 0 <= j <= c.Last() && st.runners[j] == Sent(Top(c));
    RootHeightIsFirst(c.Last(), Top(c));
    AncMonotone(j, c.Last(), Top(c));
    forall i | 0 <= i <= c.Last() && i != j
      ensures st.runners[i].Returned?
    {
      AncMonotone(i, c.Last(), Top(c));
      assert Anc(i, Top(c)) == Anc(j, Top(c));
    }
    assert OnlySender(c, st, j);
  }

  /** releaseTree clears exactly the flags on the path and nothing else. */
  lemma {:induction false} ReleaseClears(depth: nat, tree: Tree, last: nat, h: nat, p: Pos)
    requires last <= Ones(depth) && (forall q :: q in tree <==> InTree(depth, q)) && p in tree
    ensures var tree' := ReleasePath(depth, tree, last, h);
      && tree'.Keys == tree.Keys && p in tree'
      && tree'[p].state == tree[p].state
      && (if h <= p.h && p.k == Anc(last, p.h) then
            !tree'[p].unbalanced && tree'[p].root == (p.h == depth && tree[p].root)
          else tree'[p] == tree[p])
    decreases depth + 1 - h
  {
    var q := Pos(h, Anc(last, h));
    if h <= depth {
      AncMonotone(last, Ones(depth), h);
      AncOnes(depth, h);
      var node := tree[q].(unbalanced := false);
      var tree1 := tree[q := if h < depth then node.(root := false) else node];
      assert forall r :: r in tree1 <==> r in tree;
      ReleaseClears(depth, tree1, last, h + 1, p);
      assert tree1.Keys == tree.Keys;
    }
  }

  lemma ReleaseNode(c: Chunk, tree0: Tree, st: State, p: Pos)
    requires Inv(c, tree0, st) && Clean(c.depth, tree0) && Fresh(tree0) && st.main.Received? && p in st.tree
    ensures p in tree0
    ensures TwiceOrNever(tree0[p].state, st.tree[p].state)
    ensures st.tree[p].unbalanced ==> p.k == Anc(c.Last(), p.h)
    ensures st.tree[p].root ==> p.h == c.depth || p.k == Anc(c.Last(), p.h)
    ensures p.h == c.depth ==> st.tree[p].root
  {
    assert FlagsOk(c, st.main, st.tree[p], p);
    RootHeightIsFirst(c.Last(), Top(c));
    NotWaiting(c, tree0, st, p);
  }

  /** Nobody is left waiting at any node. */
  lemma NotWaiting(c: Chunk, tree0: Tree, st: State, p: Pos)
    requires Inv(c, tree0, st) && st.main.Received? && p in st.tree
    ensures p in tree0
    ensures TwiceOrNever(tree0[p].state, st.tree[p].state)
  {
    assert NodeOk(c, tree0[p].state, st.tree[p], st.runners, p);
    if p.h <= Top(c) && Balanced(c, p.h, p.k) {
      AllDone(c, tree0, st);
      SubtreePassed(c, tree0, st, p.h, p.k);
    }
  }

  ghost predicate Active(st: State, j: nat)
    requires j < |st.runners|
  {
    var r := st.runners[j];
    r.Leaf? || r.LeafRoot? || r.At? || r.Sending?
  }

  /** All goroutines are started, and the nodes account for them. */
  ghost predicate Started(c: Chunk, tree0: Tree, st: State) {
    && c.Valid() && |st.runners| == |c.leaves| && Locals(c, st.runners) && Nodes(c, tree0, st)
    && (forall p :: p in st.tree <==> InTree(c.depth, p))
    && (forall j :: 0 <= j <= c.Last() ==> !st.runners[j].Idle?)
  }

  /** Goroutine `j` is still running, or has got past height `h`. */
  ghost predicate Alive(st: State, j: nat, h: nat)
    requires j < |st.runners|
  {
    Active(st, j) || Pass(st.runners[j]) > h
  }

  /** Below every node with data, somebody is still running or somebody has got past the node. */
  lemma {:induction false} SubtreeAlive(c: Chunk, tree0: Tree, st: State, h: nat, k: nat) returns (j: nat)
    requires Started(c, tree0, st)
    requires h <= Top(c) && k <= Anc(c.Last(), h)
    ensures j <= c.Last() && Anc(j, h) == k
    ensures Alive(st, j, h)
  {
    if h == 0 {
      j := k;
      assert LocalOk(c, j, st.runners[j]);
    } else {
      j := SubtreeAlive(c, tree0, st, h - 1, 2 * k);
      if !Alive(st, j, h) {
        Stopped(c, tree0, st, j, h);
        var i := SubtreeAlive(c, tree0, st, h - 1, 2 * k + 1);
        j := SiblingAlive(c, tree0, st, h, k, j, i);
      }
    }
  }

  lemma SiblingAlive(c: Chunk, tree0: Tree, st: State, h: nat, k: nat, j: nat, i: nat) returns (w: nat)
    requires Started(c, tree0, st) && 0 < h <= Top(c) && Balanced(c, h, k)
    requires i <= c.Last() && j <= c.Last() && i != j && Anc(i, h) == Anc(j, h) == k
    requires st.runners[j] == Returned(h) && Alive(st, i, h - 1)
    ensures w <= c.Last() && Anc(w, h) == k && Alive(st, w, h)
  {
    w := i;
    if !Alive(st, i, h) {
      Stopped(c, tree0, st, i, h);
      w := BothToggled(c, tree0, st, h, k, j, i);
    }
  }

  /** A goroutine that stopped below the top waits at a node with two children. */
  lemma Stopped(c: Chunk, tree0: Tree, st: State, j: nat, h: nat)
    requires Started(c, tree0, st) && j <= c.Last() && 0 < h <= Top(c)
    requires Alive(st, j, h - 1) && !Alive(st, j, h)
    ensures st.runners[j] == Returned(h) && Balanced(c, h, Anc(j, h))
  {
    assert LocalOk(c, j, st.runners[j]);
  }

  lemma BothToggled(c: Chunk, tree0: Tree, st: State, h: nat, k: nat, i: nat, j: nat) returns (w: nat)
    requires Started(c, tree0, st) && 0 < h <= Top(c) && Balanced(c, h, k)
    requires i <= c.Last() && j <= c.Last() && i != j && Anc(i, h) == Anc(j, h) == k
    requires st.runners[i] == Returned(h) && st.runners[j] == Returned(h)
    ensures w <= c.Last() && Anc(w, h) == k && Pass(st.runners[w]) > h
  {
    var p := Pos(h, k);
    Shape(c, i, h);
    assert NodeOk(c, tree0[p].state, st.tree[p], st.runners, p);
    w :| 0 <= w <= c.Last() && Anc(w, h) == k && Pass(st.runners[w]) > h;
  }

  lemma SubtreePassed(c: Chunk, tree0: Tree, st: State, h: nat, k: nat)
    requires Inv(c, tree0, st) && st.main.Received? && h <= Top(c) && k <= Anc(c.Last(), h)
    ensures OnePassed(c, st.runners, h, k)
  {
    AllDone(c, tree0, st);
    var j := SubtreeAlive(c, tree0, st, h, k);
    assert Pass(st.runners[j]) > h;
  }

  lemma ReleaseTree(c: Chunk, tree0: Tree, st: State)
    requires Inv(c, tree0, st) && Clean(c.depth, tree0) && Fresh(tree0) && st.main.Received?
    ensures var tree' := ReleasePath(c.depth, st.tree, c.Last(), 0);
      Clean(c.depth, tree') && ToggledTwice(tree0, tree')
  {
    RootHeightInTree(c.Last(), c.depth);
    ReleaseClears(c.depth, st.tree, c.Last(), 0, Pos(c.depth, 0));
    var tree' := ReleasePath(c.depth, st.tree, c.Last(), 0);
    forall p | p in st.tree
      ensures p in tree0 && p in tree' && Handed(c, tree0[p], tree'[p], p)
    {
      ReleasedNode(c, tree0, st, p);
    }
    assert forall p :: p in tree' <==> p in st.tree.Keys;
  }

  lemma ReleaseStep(c: Chunk, tree0: Tree, st: State)
    requires Inv(c, tree0, st) && Clean(c.depth, tree0) && Fresh(tree0) && st.main.Received?
    ensures Finished(c, tree0, Next(c, st, MainThread))
  {
    AllDone(c, tree0, st);
    var j :| 0 <= j <= c.Last() && OnlySender(c, st, j);
    assert OnlySender(c, Next(c, st, MainThread), j);
    ReleaseTree(c, tree0, st);
  }

  predicate Handed(c: Chunk, before: Node, after: Node, p: Pos) {
    && TwiceOrNever(before.state, after.state) && after.state % 2 == 0
    && !after.unbalanced && (after.root <==> p.h == c.depth)
  }

  lemma ReleasedNode(c: Chunk, tree0: Tree, st: State, p: Pos)
    requires Inv(c, tree0, st) && Clean(c.depth, tree0) && Fresh(tree0) && st.main.Received? && p in st.tree
    ensures var tree' := ReleasePath(c.depth, st.tree, c.Last(), 0);
      p in tree0 && p in tree' && Handed(c, tree0[p], tree'[p], p)
  {
    ReleaseClears(c.depth, st.tree, c.Last(), 0, p);
    ReleaseNode(c, tree0, st, p);
    ToggleAlternates(tree0[p].state);
  }

  lemma RunnerInv(c: Chunk, tree0: Tree, st: State, j: nat)
    requires Inv(c, tree0, st) && Clean(c.depth, tree0) && Fresh(tree0) && Enabled(c, st, Goroutine(j))
    ensures Inv(c, tree0, Next(c, st, Goroutine(j)))
  {
    match st.runners[j]
    case Leaf(_, _) => LeafHashStep(c, tree0, st, j);
    case LeafRoot(_, _) => LeafRootStep(c, tree0, st, j);
    case Sending(_, _) => ReceiveStep(c, tree0, st, j);
    case At(_, _, pc, _, _, _) =>
      match pc
      case Store => StoreStep(c, tree0, st, j);
      case Test => TestStep(c, tree0, st, j);
      case Toggle => ToggleStep(c, tree0, st, j);
      case Combine => CombineStep(c, tree0, st, j);
      case Root => RootStep(c, tree0, st, j);
  }

  lemma MainInv(c: Chunk, tree0: Tree, st: State)
    requires Inv(c, tree0, st) && Clean(c.depth, tree0) && Fresh(tree0) && Enabled(c, st, MainThread)
    ensures Reachable(c, tree0, Next(c, st, MainThread))
  {
    match st.main
    case Launching(n) =>
      if n < c.Last() { LaunchStep(c, tree0, st); } else { BeginSum(c, tree0, st); }
    case Finalising(_, _, _, _) => FinaliseStep(c, tree0, st);
    case Ready(_) => ReadyStep(c, tree0, st);
    case Received(_) => ReleaseStep(c, tree0, st);
  }

  lemma NothingAfterRelease(c: Chunk, tree0: Tree, st: State, a: Actor)
    requires Finished(c, tree0, st)
    ensures !Enabled(c, st, a)
  {
    var j :| 0 <= j <= c.Last() && OnlySender(c, st, j);
  }

  /** Every state of every run satisfies the invariant, or the chunk is done. */
  lemma {:induction false} RunInv(c: Chunk, tree0: Tree, st: State, schedule: seq<Actor>)
    requires Reachable(c, tree0, st) && Clean(c.depth, tree0) && Fresh(tree0) && Legal(c, st, schedule)
    ensures Reachable(c, tree0, Exec(c, st, schedule))
    decreases |schedule|
  {
    if schedule != [] {
      if Finished(c, tree0, st) {
        NothingAfterRelease(c, tree0, st, schedule[0]);
      }
      match schedule[0] {
        case MainThread => MainInv(c, tree0, st);
        case Goroutine(j) => RunnerInv(c, tree0, st, j);
      }
      RunInv(c, tree0, Next(c, st, schedule[0]), schedule[1..]);
    }
  }

  /** In every interleaving of every chunk the hasher never dereferences a missing node, at most one
      value is ever sent, the value Sum receives is the reference hash of the written bytes, and the
      tree it hands back is clean. */
  lemma HasherRefinesReference(c: Chunk, tree0: Tree, schedule: seq<Actor>, s: nat)
    requires c.Valid() && Clean(c.depth, tree0) && Fresh(tree0)
    requires Legal(c, Initial(c, tree0), schedule)
    requires IsSpan(c.size, s) && |Flatten(c.leaves)| <= 2 * s
    ensures var st := Exec(c, Initial(c, tree0), schedule);
      && !st.main.Panicked?
      && (forall i: nat, j: nat ::
            i < |st.runners| && j < |st.runners| && st.runners[i].Sent? && st.runners[j].Sent? ==> i == j)
      && (st.main.Received? || st.main.Released? ==> st.main.value == RefHash(c.hash, c.size, Flatten(c.leaves), s))
      && (st.main.Released? ==> Clean(c.depth, st.tree) && ToggledTwice(tree0, st.tree))
  {
    InitialInv(c, tree0);
    RunInv(c, tree0, Initial(c, tree0), schedule);
    TreeIsReference(c.hash, c.size, c.leaves, s);
    var st := Exec(c, Initial(c, tree0), schedule);
    if st.main.Received? {
      AllDone(c, tree0, st);
      var j :| 0 <= j <= c.Last() && OnlySender(c, st, j);
    } else if st.main.Released? {
      var j :| 0 <= j <= c.Last() && OnlySender(c, st, j);
    }
  }

  /** No interleaving gets stuck before the tree is handed back. */
  lemma NoDeadlock(c: Chunk, tree0: Tree, schedule: seq<Actor>)
    requires c.Valid() && Clean(c.depth, tree0) && Fresh(tree0)
    requires Legal(c, Initial(c, tree0), schedule)
    ensures var st := Exec(c, Initial(c, tree0), schedule);
      st.main.Released? || exists a :: Enabled(c, st, a)
  {
    InitialInv(c, tree0);
    RunInv(c, tree0, Initial(c, tree0), schedule);
    var st := Exec(c, Initial(c, tree0), schedule);
    if !st.main.Released? && !Enabled(c, st, MainThread) {
      RootHeightIsFirst(c.Last(), Top(c));
      var j := SubtreeAlive(c, tree0, st, Top(c), 0);
      assert LocalOk(c, j, st.runners[j]);
      assert Enabled(c, st, Goroutine(j));
    }
  }

  function RunnerRank(depth: nat, r: Runner): int {
    match r
    case Idle => 5 * depth + 12
    case Leaf(_, _) => 5 * depth + 8
    case LeafRoot(_, _) => 5 * depth + 7
    case At(h, _, pc, _, _, _) =>
      5 * (depth + 1 - h) +
      (match pc case Store => 6 case Test => 5 case Toggle => 4 case Combine => 3 case Root => 2)
    case Sending(_, _) => 1
    case Sent(_) => 0
    case Returned(_) => 0
  }

  function MainRank(c: Chunk, m: Main): int {
    match m
    case Launching(n) => 3 * c.depth + 8 + |c.leaves| - n
    case Finalising(h, _, _, phase) => 3 * (c.depth - h) + 7 - phase
    case Ready(_) => 3
    case Waiting => 2
    case Received(_) => 1
    case Released(_) => 0
    case Panicked => 0
  }

  function RunnersRank(depth: nat, runners: seq<Runner>): int {
    if runners == [] then 0
    else RunnersRank(depth, runners[..|runners| - 1]) + RunnerRank(depth, runners[|runners| - 1])
  }

  function Rank(c: Chunk, st: State): int {
    MainRank(c, st.main) + RunnersRank(c.depth, st.runners)
  }

  lemma {:induction false} RunnersRankUpdate(depth: nat, runners: seq<Runner>, j: nat, r: Runner)
    requires j < |runners|
    ensures RunnersRank(depth, runners[j := r]) ==
      RunnersRank(depth, runners) - RunnerRank(depth, runners[j]) + RunnerRank(depth, r)
  {
    var n := |runners| - 1;
    if j < n {
      RunnersRankUpdate(depth, runners[..n], j, r);
      assert runners[j := r][..n] == runners[..n][j := r];
    } else {
      assert runners[j := r][..n] == runners[..n];
    }
  }

  lemma {:induction false} RunnersRankBound(c: Chunk, runners: seq<Runner>)
    requires forall j :: 0 <= j < |runners| ==> runners[j].At? ==> runners[j].h <= c.depth
    ensures 0 <= RunnersRank(c.depth, runners)
  {
    if runners != [] {
      RunnersRankBound(c, runners[..|runners| - 1]);
    }
  }

  lemma RankBound(c: Chunk, tree0: Tree, st: State)
    requires Reachable(c, tree0, st)
    ensures 0 <= Rank(c, st)
  {
    RootHeightInTree(c.Last(), c.depth);
    if Inv(c, tree0, st) {
      assert forall j :: 0 <= j <= c.Last() ==> LocalOk(c, j, st.runners[j]);
    } else {
      var j :| 0 <= j <= c.Last() && OnlySender(c, st, j);
    }
    RunnersRankBound(c, st.runners);
  }

  lemma MainDecreases(c: Chunk, st: State)
    requires c.Valid() && Control(c, st) && Enabled(c, st, MainThread) && !MainStep(c, st).main.Panicked?
    ensures Rank(c, MainStep(c, st)) < Rank(c, st)
  {
    RootHeightInTree(c.Last(), c.depth);
    var st' := MainStep(c, st);
    match st.main {
      case Launching(n) =>
        if n < c.Last() {
          RunnersRankUpdate(c.depth, st.runners, n, st'.runners[n]);
        }
      case Finalising(_, _, _, _) =>
      case Ready(_) =>
        RunnersRankUpdate(c.depth, st.runners, c.Last(), st'.runners[c.Last()]);
      case Received(_) =>
    }
  }

  lemma RunnerDecreases(c: Chunk, st: State, j: nat)
    requires Enabled(c, st, Goroutine(j)) && !Next(c, st, Goroutine(j)).main.Panicked?
    requires st.runners[j].At? ==> st.runners[j].h <= c.depth
    ensures Rank(c, Next(c, st, Goroutine(j))) < Rank(c, st)
  {
    RunnersRankUpdate(c.depth, st.runners, j, Next(c, st, Goroutine(j)).runners[j]);
  }

  /** Every step brings the run closer to its end. */
  lemma StepDecreases(c: Chunk, tree0: Tree, st: State, a: Actor)
    requires Inv(c, tree0, st) && Enabled(c, st, a) && Reachable(c, tree0, Next(c, st, a))
    ensures Rank(c, Next(c, st, a)) < Rank(c, st)
  {
    match a
    case MainThread => MainDecreases(c, st);
    case Goroutine(j) =>
      RootHeightInTree(c.Last(), c.depth);
      assert LocalOk(c, j, st.runners[j]);
      RunnerDecreases(c, st, j);
  }

  /** No run goes on forever: the length of every schedule is bounded by the size of the chunk. */
  lemma {:induction false} RunsAreFinite(c: Chunk, tree0: Tree, st: State, schedule: seq<Actor>)
    requires Reachable(c, tree0, st) && Clean(c.depth, tree0) && Fresh(tree0) && Legal(c, st, schedule)
    ensures |schedule| <= Rank(c, st)
    decreases |schedule|
  {
    if schedule == [] {
      RankBound(c, tree0, st);
    } else {
      if Finished(c, tree0, st) {
        NothingAfterRelease(c, tree0, st, schedule[0]);
      }
      RunInv(c, tree0, st, schedule[..1]);
      assert Exec(c, st, schedule[..1]) == Next(c, st, schedule[0]);
      StepDecreases(c, tree0, st, schedule[0]);
      RunsAreFinite(c, tree0, Next(c, st, schedule[0]), schedule[1..]);
    }
  }

  /** A chunk and the interleaving in which it is hashed. */
  datatype Job = Job(leaves: seq<Bytes>, schedule: seq<Actor>)

  /** One tree hashing one chunk after the other, each in an interleaving of its own. */
  ghost predicate Session(c: Chunk, tree: Tree, jobs: seq<Job>)
    decreases |jobs|
  {
    jobs == [] ||
    (var c0 := c.(leaves := jobs[0].leaves);
     && c0.Valid() && Legal(c0, Initial(c0, tree), jobs[0].schedule)
     && var st := Exec(c0, Initial(c0, tree), jobs[0].schedule);
     && st.main.Released? && Session(c, st.tree, jobs[1..]))
  }

  ghost function Result(c: Chunk, tree: Tree, jobs: seq<Job>, i: nat): Bytes
    requires Session(c, tree, jobs) && i < |jobs|
    decreases |jobs|
  {
    var c0 := c.(leaves := jobs[0].leaves);
    var st := Exec(c0, Initial(c0, tree), jobs[0].schedule);
    if i == 0 then st.main.value else Result(c, st.tree, jobs[1..], i - 1)
  }

  ghost predicate TogglesBelow(tree: Tree, bound: int) {
    forall p :: p in tree ==> 0 <= tree[p].state <= bound
  }

  /** Reusing one tree, every chunk's hash is the reference hash of its own bytes, whatever was hashed
      before and in whatever order the goroutines ran, as long as no toggle has wrapped around. */
  lemma {:induction false} ReuseIsIndependent(c: Chunk, tree: Tree, jobs: seq<Job>, i: nat, s: nat)
    requires Session(c, tree, jobs) && i < |jobs|
    requires Clean(c.depth, tree) && TogglesBelow(tree, MAX_INT32 + 1 - 2 * |jobs|)
    requires IsSpan(c.size, s) && |Flatten(jobs[i].leaves)| <= 2 * s
    ensures Result(c, tree, jobs, i) == RefHash(c.hash, c.size, Flatten(jobs[i].leaves), s)
    decreases |jobs|
  {
    var c0 := c.(leaves := jobs[0].leaves);
    var st := Exec(c0, Initial(c0, tree), jobs[0].schedule);
    if i == 0 {
      HasherRefinesReference(c0, tree, jobs[0].schedule, s);
    } else {
      InitialInv(c0, tree);
      RunInv(c0, tree, Initial(c0, tree), jobs[0].schedule);
      assert Finished(c0, tree, st);
      ReuseIsIndependent(c, st.tree, jobs[1..], i - 1, s);
    }
  }
}
