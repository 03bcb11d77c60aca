/** The two hashers side by side, and the limit of the fast one's reusable toggles. */
module BmtHasher {
  import opened BmtReference
  import opened BmtShape
  import opened BmtValue
  import opened BmtWriter
  import opened BmtMachine
  import opened BmtTheorems

  /** Writing any list of byte strings leaves their concatenation, cut into leaves. */
  method WriteAll(size: nat, count: nat, writes: seq<Bytes>) returns (w: Writer)
    requires 0 < size && 0 < count && |Flatten(writes)| <= count * size
    ensures w.Valid() && w.size == size && w.count == count
    ensures w.Content() == Flatten(writes)
  {
    w := new Writer(size, count);
    for i := 0 to |writes|
      invariant w.Valid() && fresh(w) && w.size == size && w.count == count
      invariant w.Content() == Flatten(writes[..i])
    {
      FlattenPrefix(writes, i);
      var _ := w.Write(writes[i]);
    }
    assert writes[..|writes|] == writes;
  }

  lemma {:induction false} FlattenPrefix(writes: seq<Bytes>, i: nat)
    requires i < |writes|
    ensures Flatten(writes[..i + 1]) == Flatten(writes[..i]) + writes[i]
    ensures |Flatten(writes[..i + 1])| <= |Flatten(writes)|
    decreases |writes|
  {
    assert writes[..i + 1][..i] == writes[..i];
    if i + 1 < |writes| {
      var pre := writes[..|writes| - 1];
      FlattenPrefix(pre, i);
      assert pre[..i + 1] == writes[..i + 1];
    } else {
      assert writes[..i + 1] == writes;
    }
  }

  /** The reference hash is the same from every span that covers the data. */
  lemma AnySpan(hash: Bytes -> Bytes, size: nat, leaves: seq<Bytes>, s: nat, t: nat)
    requires IsSplit(size, leaves) && IsSpan(size, s) && IsSpan(size, t)
    requires |Flatten(leaves)| <= 2 * s && |Flatten(leaves)| <= 2 * t
    ensures RefHash(hash, size, Flatten(leaves), s) == RefHash(hash, size, Flatten(leaves), t)
  {
    TreeIsReference(hash, size, leaves, s);
    TreeIsReference(hash, size, leaves, t);
  }

  /** The run can go on until the tree is released, clean again; by then Sum has returned the value. */
  ghost predicate SumsTo(c: Chunk, tree0: Tree, schedule: seq<Actor>, value: Bytes)
    requires c.Valid() && Legal(c, Initial(c, tree0), schedule)
  {
    var st := Exec(c, Initial(c, tree0), schedule);
    if st.main.Released? then st.main.value == value && Clean(c.depth, st.tree) else exists a :: Enabled(c, st, a)
  }

  lemma EveryScheduleSums(c: Chunk, tree0: Tree, schedule: seq<Actor>, s: nat)
    requires c.Valid() && Clean(c.depth, tree0) && Fresh(tree0) && Legal(c, Initial(c, tree0), schedule)
    requires IsSpan(c.size, s) && |Flatten(c.leaves)| <= 2 * s
    ensures SumsTo(c, tree0, schedule, RefHash(c.hash, c.size, Flatten(c.leaves), s))
  {
    HasherRefinesReference(c, tree0, schedule, s);
    NoDeadlock(c, tree0, schedule);
  }

  /** However the bytes are split over Write calls and however the goroutines are interleaved, Sum
      returns what RefHasher.Hash returns for all the bytes at once. */
  method FastEqualsReference(hash: Bytes -> Bytes, size: nat, count: nat, writes: seq<Bytes>)
      returns (w: Writer, depth: nat, reference: Bytes)
    requires 0 < size && 0 < count && |Flatten(writes)| <= count * size
    // The fast hasher has been fed all the bytes, on a tree that is just deep enough for the capacity.
    ensures w.Valid() && w.size == size && w.count == count && w.Content() == Flatten(writes)
    ensures count <= 2 * (Ones(depth) + 1) && (depth > 0 ==> 2 * (Ones(depth - 1) + 1) < count)
    // The reference hasher has been given the bytes in one piece.
    ensures forall s: nat :: IsSpan(size, s) && |Flatten(writes)| <= 2 * s ==>
      reference == RefHash(hash, size, Flatten(writes), s)
    // Every schedule gets stuck only after the sum is out, and the sum is the reference.
    ensures Chunk(hash, size, depth, w.Leaves()).Valid()
    ensures forall tree0: Tree, schedule: seq<Actor> ::
      var c := Chunk(hash, size, depth, w.Leaves());
      Clean(depth, tree0) && Fresh(tree0) && Legal(c, Initial(c, tree0), schedule) ==>
        SumsTo(c, tree0, schedule, reference)
  {
    hide Clean, Fresh, SumsTo, RefHash, IsSpan;
    w := WriteAll(size, count, writes);
    depth := Depth(count);
    var r := new RefHasher(hash, size, count);
    reference := r.Hash(Flatten(writes));
    ghost var c := Chunk(hash, size, depth, w.Leaves());
    assert |w.Leaves()| - 1 == w.cur <= Ones(depth);
    assert size * count == count * size;
    forall s: nat | IsSpan(size, s) && |Flatten(writes)| <= 2 * s
      ensures reference == RefHash(hash, size, Flatten(writes), s)
    {
      AnySpan(hash, size, w.Leaves(), r.span, s);
    }
    forall tree0: Tree, schedule: seq<Actor> |
      Clean(depth, tree0) && Fresh(tree0) && Legal(c, Initial(c, tree0), schedule)
      ensures SumsTo(c, tree0, schedule, reference)
    {
      EveryScheduleSums(c, tree0, schedule, r.span);
    }
  }

  ghost predicate Reaches(c: Chunk, st: State, st': State) {
    exists schedule :: Legal(c, st, schedule) && Exec(c, st, schedule) == st'
  }

  lemma Arrived(c: Chunk, st: State)
    ensures Reaches(c, st, st)
  {
    assert Legal(c, st, []) && Exec(c, st, []) == st;
  }

  lemma Step(c: Chunk, st: State, a: Actor, st': State)
    requires Enabled(c, st, a) && Reaches(c, Next(c, st, a), st')
    ensures Reaches(c, st, st')
  {
    var schedule :| Legal(c, Next(c, st, a), schedule) && Exec(c, Next(c, st, a), schedule) == st';
    assert ([a] + schedule)[1..] == schedule;
    assert Legal(c, st, [a] + schedule) && Exec(c, st, [a] + schedule) == st';
  }

  /** The two toggles of the last chunk that fits take the counter to its negative end, and all later ones
      leave it negative until it has gone all the way round. */
  lemma TogglesWrap(s: int)
    requires MIN_INT32 <= s <= MAX_INT32 && s % 2 == 0
    ensures Increment(Increment(s)) < 0 <==> s == MAX_INT32 - 1 || s < -2
  {
  }

  /** A chunk of three segments on a tree of four whose root toggle is negative. */
  ghost predicate Wrapped(c: Chunk, tree0: Tree) {
    && c.Valid() && c.depth == 1 && |c.leaves| == 2 && |c.leaves[1]| <= c.size
    && (forall p :: p in tree0 <==> InTree(1, p))
    && (forall p :: p in tree0 ==> !tree0[p].unbalanced && (tree0[p].root <==> p.h == 1))
    && MIN_INT32 <= tree0[Pos(1, 0)].state < 0 && tree0[Pos(1, 0)].state % 2 == 0
  }

  /** Leaf 0 hashed and about to send, before anything else has happened. */
  ghost function LeafPhase(c: Chunk, tree0: Tree): State
    requires Wrapped(c, tree0)
  {
    var root := tree0[Pos(1, 0)];
    State(tree0[Pos(1, 0) := root.(left := c.hash(c.leaves[0]), state := root.state + 1)],
          [Sending(1, c.hash(c.hash(c.leaves[0]) + root.right)), Idle], Launching(1))
  }

  /** Leaf 0 hashed and at the root. */
  ghost function AtRoot(c: Chunk, tree0: Tree): State
    requires Wrapped(c, tree0)
  {
    State(tree0, [At(1, true, Store, c.hash(c.leaves[0]), 0, 1), Idle], Launching(1))
  }

  lemma LeafHashed(c: Chunk, tree0: Tree, st': State)
    requires Wrapped(c, tree0) && Reaches(c, AtRoot(c, tree0), st')
    ensures Reaches(c, Initial(c, tree0), st')
  {
    hide Reaches;
    var st0 := Initial(c, tree0);
    var st1 := Next(c, st0, MainThread);
    var st2 := Next(c, st1, Goroutine(0));
    var st3 := Next(c, st2, Goroutine(0));
    assert st3.runners == AtRoot(c, tree0).runners;
    Step(c, st2, Goroutine(0), st');
    Step(c, st1, Goroutine(0), st');
    Step(c, st0, MainThread, st');
  }

  lemma LeafOvertakes(c: Chunk, tree0: Tree, st': State)
    requires Wrapped(c, tree0) && Reaches(c, LeafPhase(c, tree0), st')
    ensures Reaches(c, Initial(c, tree0), st')
  {
    hide Reaches;
    var g := Goroutine(0);
    var st3 := AtRoot(c, tree0);
    assert Anc(0, 1) == 0 && Anc(0, 0) == 0;
    var st4 := Next(c, st3, g);
    var st5 := Next(c, st4, g);
    var st6 := Next(c, st5, g);
    var st7 := Next(c, st6, g);
    var st8 := Next(c, st7, g);
    assert st8.tree == LeafPhase(c, tree0).tree;
    assert st8.runners == LeafPhase(c, tree0).runners;
    Step(c, st7, g, st');
    Step(c, st6, g, st');
    Step(c, st5, g, st');
    Step(c, st4, g, st');
    Step(c, st3, g, st');
    LeafHashed(c, tree0, st');
  }

  /** The state after finalise, with the early goroutine still waiting to send. */
  ghost function SumPhase(c: Chunk, tree0: Tree): State
    requires Wrapped(c, tree0)
  {
    var st := LeafPhase(c, tree0);
    var leaf, root := st.tree[Pos(0, 1)], st.tree[Pos(1, 0)];
    st.(tree := st.tree[Pos(0, 1) := leaf.(unbalanced := true, right := [])][Pos(1, 0) := root.(right := [])],
        main := Ready(1))
  }

  lemma FinaliseTooLate(c: Chunk, tree0: Tree)
    requires Wrapped(c, tree0)
    ensures forall st' :: Reaches(c, SumPhase(c, tree0), st') ==> Reaches(c, LeafPhase(c, tree0), st')
  {
    var m := MainThread;
    var st0 := LeafPhase(c, tree0);
    assert Anc(1, 0) == 1 && Anc(1, 1) == 0;
    var st1 := Next(c, st0, m);
    var st2 := Next(c, st1, m);
    var st3 := Next(c, st2, m);
    var st4 := Next(c, st3, m);
    var st5 := Next(c, st4, m);
    var st6 := Next(c, st5, m);
    var st7 := Next(c, st6, m);
    assert st7.tree == SumPhase(c, tree0).tree;
    forall st' | Reaches(c, st7, st')
      ensures Reaches(c, st0, st')
    {
      Step(c, st6, m, st');
      Step(c, st5, m, st');
      Step(c, st4, m, st');
      Step(c, st3, m, st');
      Step(c, st2, m, st');
      Step(c, st1, m, st');
      Step(c, st0, m, st');
    }
  }

  /** Once a toggle has wrapped around, the first arrival at a node no longer waits: there is an
      interleaving in which Sum returns a hash over whatever right value the previous chunk left at
      the root, and not over the second leaf. So the bound in ReuseIsIndependent cannot be dropped. */
  lemma WrappedToggleUsesStaleValue(c: Chunk, tree0: Tree)
    requires Wrapped(c, tree0)
    ensures exists st ::
      && Reaches(c, Initial(c, tree0), st)
      && st.main == Received(c.hash(c.hash(c.leaves[0]) + tree0[Pos(1, 0)].right))
      && |st.runners| == 2 && st.runners[1] == Spawn(c, 1, c.leaves[1], 1)
  {
    var st0 := SumPhase(c, tree0);
    var st1 := Next(c, st0, MainThread);
    var st2 := Next(c, st1, Goroutine(0));
    Arrived(c, st2);
    Step(c, st1, Goroutine(0), st2);
    Step(c, st0, MainThread, st2);
    FinaliseTooLate(c, tree0);
    LeafOvertakes(c, tree0, st2);
  }
}
