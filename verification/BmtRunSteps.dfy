/** The steps of the loop in run keep the invariant. */
module BmtRunSteps {
  import opened BmtReference
  import opened BmtShape
  import opened BmtValue
  import opened BmtMachine
  import opened BmtInvariant
  import opened BmtSteps

  ghost predicate Running(c: Chunk, tree0: Tree, st: State, j: nat, pc: Pc) {
    Inv(c, tree0, st) && Enabled(c, st, Goroutine(j)) && st.runners[j].At? && st.runners[j].pc == pc
  }

  /** A node with one child below it lies on the last leaf's path, which enters it from the left. */
  lemma Shape(c: Chunk, j: nat, h: nat)
    requires c.Valid() && j <= c.Last() && h <= Top(c)
    ensures InTree(c.depth, Pos(h, Anc(j, h)))
    ensures 0 < h && !Balanced(c, h, Anc(j, h)) ==>
      FromLeft(c, h) && Anc(j, h) == Anc(c.Last(), h) && Anc(j, h - 1) == Anc(c.Last(), h - 1) == 2 * Anc(j, h)
    ensures Balanced(c, h, Anc(j, h)) && Anc(j, h) == Anc(c.Last(), h) ==> !FromLeft(c, h)
  {
    PathInTree(c, j, 0);
    PathInTree(c, j, h);
    if 0 < h {
      AncMonotone(j, c.Last(), h - 1);
    }
  }

  /** At a node with one child, the flag is already set when a goroutine gets there. */
  lemma ReadsUnbalanced(c: Chunk, tree0: Tree, st: State, j: nat)
    requires Inv(c, tree0, st) && j <= c.Last() && st.runners[j].At?
    ensures var h := st.runners[j].h; var p := Pos(h, Anc(j, h));
      && p in st.tree
      && (st.tree[p].unbalanced <==> !Balanced(c, h, Anc(j, h)))
      && (st.tree[p].unbalanced ==> st.tree[p].right == [] && st.runners[j].isLeft)
  {
    var h := st.runners[j].h;
    var p := Pos(h, Anc(j, h));
    Shape(c, j, h);
    assert FlagsOk(c, st.main, st.tree[p], p);
    assert LocalOk(c, j, st.runners[j]);
    if !Balanced(c, h, Anc(j, h)) {
      if 0 < h && j != c.Last() {
        assert Anc(j, h - 1) == Anc(c.Last(), h - 1);
        assert st.runners[c.Last()].Returned?;
      }
    }
  }

  /** A goroutine that changes only itself, without toggling, keeps the invariant. */
  lemma MoveInv(c: Chunk, tree0: Tree, st: State, j: nat, r: Runner, st': State)
    requires Inv(c, tree0, st) && j <= c.Last() && st' == st.(runners := st.runners[j := r])
    requires MovesOn(c, st, j, r, st') && LocalOk(c, j, r) && Deposited(c, st.tree, j, r)
    requires !st.runners[j].Sent? && !st.runners[j].Idle? && !r.Sent? && !r.Idle?
    ensures Inv(c, tree0, st')
  {
    MoveRunner(c, tree0, st, j, r, st');
    ControlMove(c, st, st', j);
  }

  lemma IsAlone(c: Chunk, tree0: Tree, st: State, j: nat, h: nat)
    requires Inv(c, tree0, st) && j <= c.Last() && h < Pass(st.runners[j])
    ensures Alone(c, st, j, h)
  {
  }

  /** Below a node with one child there is nobody but the goroutine that has reached it. */
  lemma OnlyChild(c: Chunk, st: State, j: nat, h: nat)
    requires c.Valid() && |st.runners| == |c.leaves| && j <= c.Last() && h <= Top(c)
    requires !Balanced(c, h, Anc(j, h)) && (0 < h ==> Alone(c, st, j, h - 1))
    ensures Alone(c, st, j, h)
  {
    forall i | 0 <= i <= c.Last() && i != j && Anc(i, h) == Anc(j, h)
      ensures st.runners[i].Returned? && st.runners[i].h <= h
    {
      Shape(c, i, h);
      Shape(c, j, h);
    }
  }

  lemma TestReads(c: Chunk, tree0: Tree, st: State, j: nat)
    requires Running(c, tree0, st, j, Test)
    ensures var h := st.runners[j].h; var p := Pos(h, Anc(j, h));
      && p in st.tree && (st.tree[p].unbalanced <==> !Balanced(c, h, p.k))
      && LocalOk(c, j, st.runners[j]) && Deposited(c, st.tree, j, st.runners[j])
      && (st.tree[p].unbalanced ==> Alone(c, st, j, h))
  {
    var h := st.runners[j].h;
    ReadsUnbalanced(c, tree0, st, j);
    if !Balanced(c, h, Anc(j, h)) {
      if 0 < h {
        IsAlone(c, tree0, st, j, h - 1);
      }
      OnlyChild(c, st, j, h);
    }
  }

  lemma TestStep(c: Chunk, tree0: Tree, st: State, j: nat)
    requires Running(c, tree0, st, j, Test)
    ensures Inv(c, tree0, Next(c, st, Goroutine(j)))
  {
    TestReads(c, tree0, st, j);
    var st' := Next(c, st, Goroutine(j));
    MoveInv(c, tree0, st, j, st'.runners[j], st');
  }

  /** Goroutine `j` is the only one that can store this side of its node. */
  lemma SideIsFree(c: Chunk, tree0: Tree, st: State, i: nat, j: nat)
    requires Inv(c, tree0, st) && i <= c.Last() && j <= c.Last() && i != j
    requires st.runners[j].At? && 0 < st.runners[j].h
    requires st.runners[i].At? || st.runners[i].Returned?
    requires st.runners[i].h == st.runners[j].h && Anc(i, st.runners[i].h) == Anc(j, st.runners[i].h)
    ensures Anc(i, st.runners[i].h - 1) % 2 != Anc(j, st.runners[i].h - 1) % 2
  {
    IsAlone(c, tree0, st, j, st.runners[j].h - 1);
  }

  lemma StoreDeposits(c: Chunk, tree0: Tree, st: State, j: nat)
    requires Running(c, tree0, st, j, Store)
    ensures Deposits(c, Next(c, st, Goroutine(j)))
  {
    var st' := Next(c, st, Goroutine(j));
    var r := st.runners[j];
    ReadsUnbalanced(c, tree0, st, j);
    assert LocalOk(c, j, r);
    assert Deposited(c, st'.tree, j, st'.runners[j]);
    forall i | 0 <= i <= c.Last() && i != j
      ensures Deposited(c, st'.tree, i, st'.runners[i])
    {
      StoreKeepsOther(c, tree0, st, j, i);
    }
  }

  lemma StoreKeepsOther(c: Chunk, tree0: Tree, st: State, j: nat, i: nat)
    requires Running(c, tree0, st, j, Store) && i <= c.Last() && i != j
    ensures Deposited(c, Next(c, st, Goroutine(j)).tree, i, st.runners[i])
  {
    hide Nodes, Flags, Exclusive, NodeValue;
    hide Anc;
    var st' := Next(c, st, Goroutine(j));
    var r, q := st.runners[j], st.runners[i];
    var p := Pos(r.h, Anc(j, r.h));
    ReadsUnbalanced(c, tree0, st, j);
    assert LocalOk(c, j, r) && LocalOk(c, i, q);
    if (q.At? || q.Returned?) && p == Pos(q.h, Anc(i, q.h)) && 0 < r.h {
      SideIsFree(c, tree0, st, i, j);
    }
    assert Deposited(c, st.tree, i, q);
    StoreKeeps(c, st.tree, p, st'.tree[p], i, q);
  }

  lemma StoreNodes(c: Chunk, tree0: Tree, st: State, j: nat)
    requires Running(c, tree0, st, j, Store)
    ensures Exclusive(c, Next(c, st, Goroutine(j)).runners)
    ensures Nodes(c, tree0, Next(c, st, Goroutine(j)))
  {
    ReadsUnbalanced(c, tree0, st, j);
    var st' := Next(c, st, Goroutine(j));
    var mid := st.(runners := st'.runners);
    MoveRunner(c, tree0, st, j, st'.runners[j], mid);
    var h := st.runners[j].h;
    forall q | q in st'.tree
      ensures q in tree0 && NodeOk(c, tree0[q].state, st'.tree[q], st'.runners, q)
    {
      assert NodeOk(c, tree0[q].state, st.tree[q], st'.runners, q);
      if q == Pos(h, Anc(j, h)) {
        assert !OnePassed(c, st'.runners, h, Anc(j, h));
      }
    }
  }

  lemma StoreStep(c: Chunk, tree0: Tree, st: State, j: nat)
    requires Running(c, tree0, st, j, Store)
    ensures Inv(c, tree0, Next(c, st, Goroutine(j)))
  {
    hide Nodes, Flags, Exclusive, Deposits, Anc, NodeValue;
    ReadsUnbalanced(c, tree0, st, j);
    var st' := Next(c, st, Goroutine(j));
    StoreDeposits(c, tree0, st, j);
    StoreNodes(c, tree0, st, j);
    StoreFlags(c, tree0, st, j);
    ControlMove(c, st, st', j);
    assert LocalOk(c, j, st.runners[j]);
  }

  lemma StoreFlags(c: Chunk, tree0: Tree, st: State, j: nat)
    requires Running(c, tree0, st, j, Store)
    ensures Flags(c, Next(c, st, Goroutine(j)))
  {
    ReadsUnbalanced(c, tree0, st, j);
    var st' := Next(c, st, Goroutine(j));
    Shape(c, j, st.runners[j].h);
    forall q | q in st'.tree
      ensures FlagsOk(c, st'.main, st'.tree[q], q)
    {
      assert FlagsOk(c, st.main, st.tree[q], q);
    }
  }

  /** Both halves of the node are the values of its children. */
  ghost predicate BothThere(c: Chunk, n: Node, p: Pos)
    requires c.Valid()
  {
    && Balanced(c, p.h, p.k)
    && n.left == NodeValue(c.hash, c.size, c.leaves, p.h - 1, 2 * p.k)
    && n.right == NodeValue(c.hash, c.size, c.leaves, p.h - 1, 2 * p.k + 1)
  }

  /** A goroutine that has got past a balanced node finds both values there. */
  lemma BothStored(c: Chunk, s0: int, n: Node, runners: seq<Runner>, j: nat, p: Pos)
    requires c.Valid() && |runners| == |c.leaves| && NodeOk(c, s0, n, runners, p)
    requires j <= c.Last() && Pass(runners[j]) > p.h && Anc(j, p.h) == p.k
    requires Balanced(c, p.h, p.k) && p.h <= Top(c)
    ensures BothThere(c, n, p)
  {
    assert Toggled(runners[j], p.h);
  }

  /** What a goroutine about to combine finds: its own value alone, or both. */
  ghost predicate Readable(c: Chunk, n: Node, j: nat, r: Runner)
    requires c.Valid() && j <= c.Last() && r.At?
  {
    && (n.unbalanced <==> !Balanced(c, r.h, Anc(j, r.h)))
    && (n.unbalanced ==> r.isLeft && n.right == [] && n.left == Carried(c, j, r.h))
    && (!n.unbalanced ==> BothThere(c, n, Pos(r.h, Anc(j, r.h))))
  }

  /** What a goroutine computes from the values it finds. */
  lemma CombineLocal(c: Chunk, n: Node, j: nat, r: Runner, s: Bytes)
    requires c.Valid() && j <= c.Last() && r.At? && r.pc == Combine && LocalOk(c, j, r)
    requires s == if !n.unbalanced || !r.isLeft || (r.i == 0 && r.d == 0) then c.hash(n.left + n.right)
      else n.left + n.right
    requires Readable(c, n, j, r)
    ensures s == Produced(c, j, r.h)
  {
    RootHeightIsFirst(c.Last(), r.h);
    AncMonotone(j, c.Last(), r.h);
    if n.unbalanced {
      assert n.left + n.right == n.left;
      Shape(c, j, r.h);
    }
  }

  /** What a goroutine about to combine finds at its node. */
  lemma CombineReads(c: Chunk, tree0: Tree, st: State, j: nat)
    requires Running(c, tree0, st, j, Combine)
    ensures var r := st.runners[j]; var p := Pos(r.h, Anc(j, r.h));
      p in st.tree && LocalOk(c, j, r) && Readable(c, st.tree[p], j, r)
  {
    hide Exclusive, Flags, NodeOk, BothThere, NodeValue, Anc;
    var r := st.runners[j];
    var p := Pos(r.h, Anc(j, r.h));
    ReadsUnbalanced(c, tree0, st, j);
    assert LocalOk(c, j, r) && Deposited(c, st.tree, j, r);
    if Balanced(c, r.h, Anc(j, r.h)) {
      BothStored(c, tree0[p].state, st.tree[p], st.runners, j, p);
    }
  }

  lemma CombineStep(c: Chunk, tree0: Tree, st: State, j: nat)
    requires Running(c, tree0, st, j, Combine)
    ensures Inv(c, tree0, Next(c, st, Goroutine(j)))
  {
    hide Nodes, Flags, Exclusive, Deposits, Readable, Anc, NodeValue;
    var st' := Next(c, st, Goroutine(j));
    CombineReads(c, tree0, st, j);
    CombineLocal(c, st.tree[Pos(st.runners[j].h, Anc(j, st.runners[j].h))], j, st.runners[j], st'.runners[j].s);
    DepositedAt(c, st, j);
    MoveInv(c, tree0, st, j, st'.runners[j], st');
  }

  /** Whoever gets past the top of the data finds the root flag set, and nobody finds one below. */
  lemma ReadsRoot(c: Chunk, tree0: Tree, st: State, j: nat)
    requires Running(c, tree0, st, j, Root)
    ensures var h := st.runners[j].h; var p := Pos(h, Anc(j, h));
      p in st.tree && (st.tree[p].root <==> h == Top(c))
  {
    var h := st.runners[j].h;
    var p := Pos(h, Anc(j, h));
    ReadsUnbalanced(c, tree0, st, j);
    assert LocalOk(c, j, st.runners[j]);
    assert FlagsOk(c, st.main, st.tree[p], p);
    PathInTree(c, j, 0);
    RootHeightIsFirst(c.Last(), h);
    AncMonotone(j, c.Last(), h);
    if h == Top(c) && j != c.Last() {
      IsAlone(c, tree0, st, j, h);
      assert st.runners[c.Last()].Returned?;
    }
  }

  lemma RootLocal(c: Chunk, j: nat, r: Runner)
    requires c.Valid() && j <= c.Last() && r.At? && r.pc == Root && LocalOk(c, j, r)
    ensures r.h == Top(c) ==> LocalOk(c, j, Sending(r.h, r.s))
    ensures r.h != Top(c) ==> LocalOk(c, j, At(r.h + 1, Anc(j, r.h) % 2 == 0, Store, r.s, r.i + 1, r.d))
  {
    RootHeightIsFirst(c.Last(), r.h);
    AncMonotone(j, c.Last(), r.h);
  }

  lemma RootStep(c: Chunk, tree0: Tree, st: State, j: nat)
    requires Running(c, tree0, st, j, Root)
    ensures Inv(c, tree0, Next(c, st, Goroutine(j)))
  {
    hide Nodes, Flags, Deposits, Exclusive;
    ReadsRoot(c, tree0, st, j);
    assert LocalOk(c, j, st.runners[j]);
    RootLocal(c, j, st.runners[j]);
    var st' := Next(c, st, Goroutine(j));
    MoveInv(c, tree0, st, j, st'.runners[j], st');
  }

  /** The goroutine waiting at a node and the one arriving there account for everybody below it. */
  lemma BothArrived(c: Chunk, tree0: Tree, st: State, j: nat, h: nat)
    requires Running(c, tree0, st, j, Toggle) && h == st.runners[j].h
    requires OneWaits(c, st.runners, h, Anc(j, h))
    ensures Alone(c, st, j, h)
  {
    hide Nodes, Flags, Deposits, Exclusive;
    var w :| 0 <= w <= c.Last() && Anc(w, h) == Anc(j, h) && st.runners[w] == Returned(h);
    assert LocalOk(c, j, st.runners[j]);
    IsAlone(c, tree0, st, j, h - 1);
    IsAlone(c, tree0, st, w, h - 1);
    forall i | 0 <= i <= c.Last() && i != j && Anc(i, h) == Anc(j, h)
      ensures st.runners[i].Returned? && st.runners[i].h <= h
    {
      assert Anc(i, h - 1) == Anc(j, h - 1) || Anc(i, h - 1) == Anc(w, h - 1);
    }
  }

  /** The second arrival: it gets past the node, and both values are there. */
  lemma SecondArrival(c: Chunk, tree0: Tree, st: State, j: nat, h: nat)
    requires Running(c, tree0, st, j, Toggle) && h == st.runners[j].h
    requires OneWaits(c, st.runners, h, Anc(j, h))
    ensures Pos(h, Anc(j, h)) in st.tree && BothThere(c, st.tree[Pos(h, Anc(j, h))], Pos(h, Anc(j, h)))
  {
    hide Nodes, Flags, Deposits, Exclusive, Deposited;
    var w :| 0 <= w <= c.Last() && Anc(w, h) == Anc(j, h) && st.runners[w] == Returned(h);
    assert LocalOk(c, j, st.runners[j]);
    SideIsFree(c, tree0, st, w, j);
    DepositedAt(c, st, j);
    DepositedAt(c, st, w);
    BothSides(c, st.tree, j, st.runners[j], w, h);
  }

  lemma BothSides(c: Chunk, tree: Tree, j: nat, r: Runner, w: nat, h: nat)
    requires c.Valid() && j <= c.Last() && w <= c.Last() && 0 < h
    requires r.At? && r.pc == Toggle && r.h == h && Anc(w, h) == Anc(j, h)
    requires Anc(w, h - 1) % 2 != Anc(j, h - 1) % 2 && Balanced(c, h, Anc(j, h))
    requires Deposited(c, tree, j, r) && Deposited(c, tree, w, Returned(h))
    ensures Pos(h, Anc(j, h)) in tree && BothThere(c, tree[Pos(h, Anc(j, h))], Pos(h, Anc(j, h)))
  {
  }

  lemma DepositedAt(c: Chunk, st: State, j: nat)
    requires c.Valid() && |st.runners| == |c.leaves| && Deposits(c, st) && j <= c.Last()
    ensures Deposited(c, st.tree, j, st.runners[j])
  {
    hide Deposited;
  }

  lemma NobodyPassed(c: Chunk, tree0: Tree, st: State, j: nat)
    requires Running(c, tree0, st, j, Toggle)
    ensures !OnePassed(c, st.runners, st.runners[j].h, Anc(j, st.runners[j].h))
  {
    var h := st.runners[j].h;
    assert forall i :: 0 <= i <= c.Last() && Anc(i, h) == Anc(j, h) ==> Pass(st.runners[i]) <= h;
  }

  /** What the toggle tells the goroutine that arrives. */
  lemma ToggleReads(c: Chunk, tree0: Tree, st: State, j: nat)
    requires Running(c, tree0, st, j, Toggle) && Clean(c.depth, tree0) && Fresh(tree0)
    ensures var h := st.runners[j].h; var p := Pos(h, Anc(j, h));
      && p in st.tree && p in tree0 && Balanced(c, h, p.k) && h <= Top(c)
      && if Waits(st.tree[p].state) then
          st.tree[p].state == tree0[p].state && Untouched(c, st.runners, h, p.k)
        else
          st.tree[p].state == Increment(tree0[p].state) && OneWaits(c, st.runners, h, p.k)
  {
    var h := st.runners[j].h;
    var p := Pos(h, Anc(j, h));
    ReadsUnbalanced(c, tree0, st, j);
    assert LocalOk(c, j, st.runners[j]);
    assert NodeOk(c, tree0[p].state, st.tree[p], st.runners, p);
    ToggleAlternates(tree0[p].state);
    NobodyPassed(c, tree0, st, j);
  }

  /** The node a goroutine toggles at: the first arrival waits, the second one goes on. */
  lemma ToggleNode(c: Chunk, tree0: Tree, st: State, j: nat)
    requires Running(c, tree0, st, j, Toggle) && Clean(c.depth, tree0) && Fresh(tree0)
    ensures var st' := Next(c, st, Goroutine(j));
      var h := st.runners[j].h; var p := Pos(h, Anc(j, h));
      && p in st.tree && p in tree0 && Balanced(c, h, p.k)
      && st' == st.(tree := st.tree[p := st.tree[p].(state := Increment(st.tree[p].state))],
                    runners := st.runners[j := st'.runners[j]])
      && (st'.runners[j] == Returned(h) || (st'.runners[j] == st.runners[j].(pc := Combine) && Alone(c, st, j, h)))
      && NodeOk(c, tree0[p].state, st'.tree[p], st'.runners, p)
  {
    hide Nodes, Flags, Deposits, Exclusive, Locals, NodeOk, OneWaits, Untouched, Anc, NodeValue;
    var h := st.runners[j].h;
    var p := Pos(h, Anc(j, h));
    ToggleReads(c, tree0, st, j);
    if Waits(st.tree[p].state) {
      FirstWaits(c, st.tree[p], st.runners, j, p);
    } else {
      BothArrived(c, tree0, st, j, h);
      SecondArrival(c, tree0, st, j, h);
      SecondPasses(c, tree0[p].state, st.tree[p], st.runners, j, p);
    }
  }

  lemma FirstWaits(c: Chunk, n: Node, runners: seq<Runner>, j: nat, p: Pos)
    requires c.Valid() && |runners| == |c.leaves| && j <= c.Last() && p.k == Anc(j, p.h)
    requires Balanced(c, p.h, p.k) && p.h <= Top(c) && Untouched(c, runners, p.h, p.k)
    ensures NodeOk(c, n.state, n.(state := Increment(n.state)), runners[j := Returned(p.h)], p)
  {
    assert runners[j := Returned(p.h)][j] == Returned(p.h);
    assert OneWaits(c, runners[j := Returned(p.h)], p.h, p.k);
  }

  lemma SecondPasses(c: Chunk, s0: int, n: Node, runners: seq<Runner>, j: nat, p: Pos)
    requires c.Valid() && |runners| == |c.leaves| && j <= c.Last() && p.k == Anc(j, p.h)
    requires Balanced(c, p.h, p.k) && p.h <= Top(c) && runners[j].At? && runners[j].h == p.h
    requires n.state == Increment(s0) && BothThere(c, n, p)
    ensures NodeOk(c, s0, n.(state := Increment(n.state)), runners[j := runners[j].(pc := Combine)], p)
  {
    assert Pass(runners[j := runners[j].(pc := Combine)][j]) > p.h;
    assert OnePassed(c, runners[j := runners[j].(pc := Combine)], p.h, p.k);
  }

  lemma ToggleExclusive(c: Chunk, tree0: Tree, st: State, j: nat)
    requires Running(c, tree0, st, j, Toggle) && Clean(c.depth, tree0) && Fresh(tree0)
    ensures Exclusive(c, Next(c, st, Goroutine(j)).runners)
  {
    ToggleNode(c, tree0, st, j);
    ExclusiveUpdate(c, st, j, Next(c, st, Goroutine(j)).runners[j]);
  }

  lemma ExclusiveUpdate(c: Chunk, st: State, j: nat, r: Runner)
    requires c.Valid() && |st.runners| == |c.leaves| && j <= c.Last() && Exclusive(c, st.runners)
    requires st.runners[j].At? && Pass(st.runners[j]) == st.runners[j].h
    requires r == Returned(st.runners[j].h)
      || (r == st.runners[j].(pc := Combine) && Alone(c, st, j, st.runners[j].h))
    ensures Exclusive(c, st.runners[j := r])
  {
  }

  lemma ToggleNodes(c: Chunk, tree0: Tree, st: State, j: nat)
    requires Running(c, tree0, st, j, Toggle) && Clean(c.depth, tree0) && Fresh(tree0)
    ensures Nodes(c, tree0, Next(c, st, Goroutine(j))) && Flags(c, Next(c, st, Goroutine(j)))
  {
    hide Deposits, Exclusive, Locals, NodeOk, Next, Alone, Anc;
    var st' := Next(c, st, Goroutine(j));
    ToggleNode(c, tree0, st, j);
    forall q | q in st'.tree
      ensures q in tree0 && NodeOk(c, tree0[q].state, st'.tree[q], st'.runners, q)
      ensures FlagsOk(c, st'.main, st'.tree[q], q)
    {
      assert FlagsOk(c, st.main, st.tree[q], q);
      if q != Pos(st.runners[j].h, Anc(j, st.runners[j].h)) {
        assert NodeOk(c, tree0[q].state, st.tree[q], st.runners, q);
        NodeFrame(c, tree0[q].state, st.tree[q], st.runners, j, st'.runners[j], q);
      }
    }
  }

  lemma ToggleDeposits(c: Chunk, tree0: Tree, st: State, j: nat)
    requires Running(c, tree0, st, j, Toggle) && Clean(c.depth, tree0) && Fresh(tree0)
    ensures Deposits(c, Next(c, st, Goroutine(j)))
  {
    hide Nodes, Flags, Exclusive, Locals, NodeOk, Next, Alone, Anc, Deposited;
    var st' := Next(c, st, Goroutine(j));
    var p := Pos(st.runners[j].h, Anc(j, st.runners[j].h));
    ToggleNode(c, tree0, st, j);
    forall i | 0 <= i <= c.Last()
      ensures Deposited(c, st'.tree, i, st'.runners[i])
    {
      DepositedAt(c, st, i);
      StoreKeeps(c, st.tree, p, st'.tree[p], i, st.runners[i]);
      if i == j {
        DepositedStill(c, st'.tree, j, st.runners[j]);
      }
    }
  }

  lemma DepositedStill(c: Chunk, tree: Tree, j: nat, r: Runner)
    requires c.Valid() && j <= c.Last() && r.At? && r.pc == Toggle && Deposited(c, tree, j, r)
    ensures Deposited(c, tree, j, Returned(r.h)) && Deposited(c, tree, j, r.(pc := Combine))
  {
  }

  lemma ToggleStep(c: Chunk, tree0: Tree, st: State, j: nat)
    requires Running(c, tree0, st, j, Toggle) && Clean(c.depth, tree0) && Fresh(tree0)
    ensures Inv(c, tree0, Next(c, st, Goroutine(j)))
  {
    ToggleNode(c, tree0, st, j);
    ToggleExclusive(c, tree0, st, j);
    ToggleNodes(c, tree0, st, j);
    ToggleDeposits(c, tree0, st, j);
    ToggleControl(c, tree0, st, j);
    ToggleLocals(c, tree0, st, j);
  }

  lemma ToggleControl(c: Chunk, tree0: Tree, st: State, j: nat)
    requires Running(c, tree0, st, j, Toggle) && Clean(c.depth, tree0) && Fresh(tree0)
    ensures Control(c, Next(c, st, Goroutine(j)))
  {
    ToggleNode(c, tree0, st, j);
    ControlMove(c, st, Next(c, st, Goroutine(j)), j);
  }

  lemma ToggleLocals(c: Chunk, tree0: Tree, st: State, j: nat)
    requires Running(c, tree0, st, j, Toggle) && Clean(c.depth, tree0) && Fresh(tree0)
    ensures Locals(c, Next(c, st, Goroutine(j)).runners)
  {
    hide Anc, Deposits, Deposited;
    ToggleNode(c, tree0, st, j);
    assert LocalOk(c, j, st.runners[j]);
  }
}
