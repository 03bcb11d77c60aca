/** Every step of the hasher keeps the invariant. */
module BmtSteps {
  import opened BmtReference
  import opened BmtShape
  import opened BmtMachine
  import opened BmtInvariant

  /** Two toggles of an even, non-negative counter: the first arrival waits, the second goes on, and
      this is exactly when the counter is not negative. */
  lemma ToggleAlternates(s: int)
    requires MIN_INT32 <= s <= MAX_INT32 && s % 2 == 0
    ensures Waits(s) <==> 0 <= s
    ensures !Waits(Increment(s))
    ensures Increment(Increment(s)) % 2 == 0
    ensures s != Increment(s) && Increment(s) != Increment(Increment(s)) && s != Increment(Increment(s))
  {
  }

  lemma PathInTree(c: Chunk, j: nat, h: nat)
    requires c.Valid() && j <= c.Last() && h <= c.depth
    ensures InTree(c.depth, Pos(h, Anc(j, h)))
    ensures Top(c) <= c.depth && Anc(j, h) <= Anc(c.Last(), h)
  {
    AncMonotone(j, c.Last(), h);
    AncMonotone(c.Last(), Ones(c.depth), h);
    AncOnes(c.depth, h);
    RootHeightInTree(c.Last(), c.depth);
  }

  lemma BeginSum(c: Chunk, tree0: Tree, st: State)
    requires Inv(c, tree0, st) && st.main.Launching? && st.main.n == c.Last()
    ensures Inv(c, tree0, Next(c, st, MainThread))
  {
    RootHeightInTree(c.Last(), c.depth);
  }

  /** Before finalise is over, nobody has got past a node on the last leaf's path. */
  lemma PathIsClosed(c: Chunk, tree0: Tree, st: State, h: nat)
    requires Inv(c, tree0, st) && st.runners[c.Last()].Idle?
    ensures forall j :: 0 <= j <= c.Last() && Anc(j, h) == Anc(c.Last(), h) ==> Pass(st.runners[j]) <= h
  {
  }

  lemma FinaliseNodes(c: Chunk, tree0: Tree, st: State)
    requires Inv(c, tree0, st) && st.main.Finalising?
    ensures Nodes(c, tree0, MainStep(c, st))
  {
    PathInTree(c, c.Last(), 0);
    PathInTree(c, c.Last(), st.main.h);
    PathIsClosed(c, tree0, st, st.main.h);
    var st' := MainStep(c, st);
    forall p | p in st'.tree
      ensures p in tree0 && NodeOk(c, tree0[p].state, st'.tree[p], st'.runners, p)
    {
      assert NodeOk(c, tree0[p].state, st.tree[p], st.runners, p);
    }
  }

  /** Nobody has stored a right value on the last leaf's path before finalise is over. */
  lemma NoRightDeposit(c: Chunk, tree0: Tree, st: State, j: nat)
    requires Inv(c, tree0, st) && st.runners[c.Last()].Idle? && j <= c.Last()
    requires st.runners[j].At? || st.runners[j].Returned?
    requires 0 < st.runners[j].h && Anc(j, st.runners[j].h - 1) % 2 == 1
    ensures Anc(j, st.runners[j].h) != Anc(c.Last(), st.runners[j].h)
  {
    var h := st.runners[j].h;
    PathIsClosed(c, tree0, st, h - 1);
    AncMonotone(j, c.Last(), h - 1);
  }

  /** Storing at node `p` keeps what goroutine `i` has deposited elsewhere or on the other side. */
  lemma StoreKeeps(c: Chunk, tree: Tree, p: Pos, n: Node, i: nat, q: Runner)
    requires c.Valid() && i <= c.Last() && p in tree && Deposited(c, tree, i, q)
    requires (q.At? || q.Returned?) && p == Pos(q.h, Anc(i, q.h)) ==>
      if q.h == 0 || Anc(i, q.h - 1) % 2 == 0 then n.left == tree[p].left else n.right == tree[p].right
    ensures Deposited(c, tree[p := n], i, q)
  {
  }

  lemma FinaliseDeposits(c: Chunk, tree0: Tree, st: State)
    requires Inv(c, tree0, st) && st.main.Finalising?
    ensures Deposits(c, MainStep(c, st))
  {
    var st' := MainStep(c, st);
    var p := Pos(st.main.h, Anc(c.Last(), st.main.h));
    PathInTree(c, c.Last(), 0);
    PathInTree(c, c.Last(), st.main.h);
    forall j | 0 <= j <= c.Last()
      ensures Deposited(c, st'.tree, j, st'.runners[j])
    {
      var r := st.runners[j];
      assert Deposited(c, st.tree, j, r);
      if (r.At? || r.Returned?) && 0 < r.h && Anc(j, r.h - 1) % 2 == 1 {
        NoRightDeposit(c, tree0, st, j);
      }
      StoreKeeps(c, st.tree, p, st'.tree[p], j, r);
    }
  }

  lemma FinaliseFlags(c: Chunk, tree0: Tree, st: State)
    requires Inv(c, tree0, st) && st.main.Finalising?
    ensures Flags(c, MainStep(c, st))
  {
    var h := st.main.h;
    PathInTree(c, c.Last(), 0);
    PathInTree(c, c.Last(), h);
    RootHeightIsFirst(c.Last(), h);
    var st' := MainStep(c, st);
    forall p | p in st'.tree
      ensures FlagsOk(c, st'.main, st'.tree[p], p)
    {
      assert FlagsOk(c, st.main, st.tree[p], p);
    }
  }

  lemma FinaliseControl(c: Chunk, st: State)
    requires c.Valid() && Control(c, st) && st.main.Finalising?
    ensures Control(c, MainStep(c, st))
  {
    PathInTree(c, c.Last(), 0);
    PathInTree(c, c.Last(), st.main.h);
    RootHeightIsFirst(c.Last(), st.main.h);
  }

  lemma FinaliseStep(c: Chunk, tree0: Tree, st: State)
    requires Inv(c, tree0, st) && st.main.Finalising?
    ensures Inv(c, tree0, Next(c, st, MainThread))
  {
    FinaliseControl(c, st);
    FinaliseNodes(c, tree0, st);
    FinaliseDeposits(c, tree0, st);
    FinaliseFlags(c, tree0, st);
  }

  /** Everyone else below node Anc(j, h) has returned. */
  ghost predicate Alone(c: Chunk, st: State, j: nat, h: nat)
    requires c.Valid() && |st.runners| == |c.leaves| && j <= c.Last()
  {
    forall i :: 0 <= i <= c.Last() && i != j && Anc(i, h) == Anc(j, h) ==>
      st.runners[i].Returned? && st.runners[i].h <= h
  }

  /** Goroutine `j` goes on to `r` without toggling; where it gets past a node, it is alone there. */
  ghost predicate MovesOn(c: Chunk, st: State, j: nat, r: Runner, st': State) {
    && c.Valid() && |st.runners| == |c.leaves| && j <= c.Last()
    && st' == st.(runners := st.runners[j := r], main := st'.main)
    && !st.runners[j].Returned? && !r.Returned?
    && var h := Pass(st.runners[j]);
      Pass(r) == h || (Pass(r) == h + 1 && Alone(c, st, j, h) && !Balanced(c, h, Anc(j, h)))
  }

  lemma MoveExclusive(c: Chunk, st: State, j: nat, r: Runner, st': State)
    requires MovesOn(c, st, j, r, st') && Exclusive(c, st.runners)
    ensures Exclusive(c, st'.runners)
  {
  }

  /** A node's account only depends on who has toggled at it. */
  lemma NodeFrame(c: Chunk, s0: int, n: Node, runners: seq<Runner>, j: nat, r: Runner, p: Pos)
    requires c.Valid() && |runners| == |c.leaves| && j <= c.Last() && !runners[j].Returned?
    requires Anc(j, p.h) == p.k && Balanced(c, p.h, p.k) ==>
      r != Returned(p.h) && (Pass(r) > p.h <==> Pass(runners[j]) > p.h)
    requires NodeOk(c, s0, n, runners, p)
    ensures NodeOk(c, s0, n, runners[j := r], p)
  {
    if p.h <= Top(c) && Balanced(c, p.h, p.k) {
      if OneWaits(c, runners, p.h, p.k) {
        var w :| 0 <= w <= c.Last() && Anc(w, p.h) == p.k && runners[w] == Returned(p.h) &&
          forall i :: 0 <= i <= c.Last() && Anc(i, p.h) == p.k && Toggled(runners[i], p.h) ==> i == w;
        assert runners[j := r][w] == Returned(p.h);
        assert OneWaits(c, runners[j := r], p.h, p.k);
      }
      if OnePassed(c, runners, p.h, p.k) {
        var i :| 0 <= i <= c.Last() && Anc(i, p.h) == p.k && Pass(runners[i]) > p.h;
        assert Pass(runners[j := r][i]) > p.h;
        assert OnePassed(c, runners[j := r], p.h, p.k);
      }
    }
  }

  lemma MoveRunner(c: Chunk, tree0: Tree, st: State, j: nat, r: Runner, st': State)
    requires MovesOn(c, st, j, r, st') && Exclusive(c, st.runners) && Nodes(c, tree0, st)
    ensures Exclusive(c, st'.runners) && Nodes(c, tree0, st')
  {
    MoveExclusive(c, st, j, r, st');
    forall p | p in st'.tree
      ensures p in tree0 && NodeOk(c, tree0[p].state, st'.tree[p], st'.runners, p)
    {
      NodeFrame(c, tree0[p].state, st.tree[p], st.runners, j, r, p);
    }
  }

  lemma LaunchStep(c: Chunk, tree0: Tree, st: State)
    requires Inv(c, tree0, st) && st.main.Launching? && st.main.n < c.Last()
    ensures Inv(c, tree0, Next(c, st, MainThread))
  {
    var n := st.main.n;
    RootHeightInTree(c.Last(), c.depth);
    SpawnLocal(c, n, c.depth);
    MoveRunner(c, tree0, st, n, Spawn(c, n, c.leaves[n], c.depth), Next(c, st, MainThread));
  }

  lemma ReadyStep(c: Chunk, tree0: Tree, st: State)
    requires Inv(c, tree0, st) && st.main.Ready?
    ensures Inv(c, tree0, Next(c, st, MainThread))
  {
    var last := c.Last();
    RootHeightInTree(last, c.depth);
    SpawnLocal(c, last, st.main.d);
    MoveRunner(c, tree0, st, last, Spawn(c, last, c.leaves[last], st.main.d), Next(c, st, MainThread));
  }

  lemma SpawnLocal(c: Chunk, j: nat, d: nat)
    requires c.Valid() && j <= c.Last()
    requires if j < c.Last() then d == c.depth else d == Top(c) - Start(c)
    ensures LocalOk(c, j, Spawn(c, j, c.leaves[j], d))
  {
    RootHeightInTree(c.Last(), c.depth);
  }

  lemma LeafHashStep(c: Chunk, tree0: Tree, st: State, j: nat)
    requires Inv(c, tree0, st) && Enabled(c, st, Goroutine(j)) && st.runners[j].Leaf?
    ensures Inv(c, tree0, Next(c, st, Goroutine(j)))
  {
    var st' := Next(c, st, Goroutine(j));
    MoveRunner(c, tree0, st, j, st'.runners[j], st');
    ControlMove(c, st, st', j);
  }

  /** A goroutine that neither starts nor hands over the result leaves the caller's thread alone. */
  lemma ControlMove(c: Chunk, st: State, st': State, j: nat)
    requires c.Valid() && Control(c, st) && j <= c.Last() && |st'.runners| == |st.runners|
    requires st'.main == st.main && st'.tree.Keys == st.tree.Keys
    requires st'.runners == st.runners[j := st'.runners[j]]
    requires !st.runners[j].Sent? && !st.runners[j].Idle? && !st'.runners[j].Sent? && !st'.runners[j].Idle?
    ensures Control(c, st')
  {
    assert forall p :: p in st'.tree <==> p in st.tree.Keys;
    if st.main.Received? {
      var i :| 0 <= i <= c.Last() && st.runners[i] == Sent(Top(c));
      assert st'.runners[i] == Sent(Top(c));
    }
  }

  lemma LeafRootStep(c: Chunk, tree0: Tree, st: State, j: nat)
    requires Inv(c, tree0, st) && Enabled(c, st, Goroutine(j)) && st.runners[j].LeafRoot?
    ensures Inv(c, tree0, Next(c, st, Goroutine(j)))
  {
    PathInTree(c, j, 0);
    RootHeightIsFirst(c.Last(), 0);
    var st' := Next(c, st, Goroutine(j));
    assert FlagsOk(c, st.main, st.tree[Pos(0, j)], Pos(0, j));
    MoveRunner(c, tree0, st, j, st'.runners[j], st');
    ControlMove(c, st, st', j);
  }

  lemma ReceiveStep(c: Chunk, tree0: Tree, st: State, j: nat)
    requires Inv(c, tree0, st) && Enabled(c, st, Goroutine(j)) && st.runners[j].Sending?
    ensures Inv(c, tree0, Next(c, st, Goroutine(j)))
  {
    var st' := Next(c, st, Goroutine(j));
    MoveRunner(c, tree0, st, j, st'.runners[j], st');
    assert st'.runners[j] == Sent(Top(c));
  }
}
