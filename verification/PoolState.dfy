/** The transaction pool's redundant indexes, as values, and what each elementary change does to them. */
module PoolState {
  import opened TxList

  type Lists = map<Address, List>
  type Lookup = map<nat, Tx>

  /** The list of that sender holds the transaction at its nonce. */
  ghost predicate Holds(m: Lists, tx: Tx) {
    tx.sender in m && tx.nonce in m[tx.sender].items && m[tx.sender].items[tx.nonce] == tx
  }

  /** The sender has some transaction at that nonce. */
  ghost predicate Busy(m: Lists, a: Address, n: nat) {
    a in m && n in m[a].items
  }

  ghost predicate FiledAt(m: Lists, a: Address, strict: bool)
    requires a in m
  {
    Good(m[a]) && m[a].strict == strict && forall n :: n in m[a].items ==> m[a].items[n].sender == a
  }

  /** Each transaction is filed under its own sender and nonce. */
  ghost predicate Filed(m: Lists, strict: bool) {
    forall a :: a in m ==> FiledAt(m, a, strict)
  }

  /** `all` is exactly the disjoint union of pending, queued and, in the middle of an operation, the
      transactions in `loose`; no sender has one nonce twice. */
  ghost predicate Part(all: Lookup, pending: Lists, queue: Lists, loose: set<Tx>) {
    && Filed(pending, true) && Filed(queue, false)
    && (forall h :: h in all ==>
          && all[h].hash == h
          && (Holds(pending, all[h]) || Holds(queue, all[h]) || all[h] in loose))
    && (forall tx :: Holds(pending, tx) || Holds(queue, tx) || tx in loose ==> tx.hash in all && all[tx.hash] == tx)
    && (forall a, n :: !(Busy(pending, a, n) && Busy(queue, a, n)))
    && (forall tx :: tx in loose ==> !Busy(pending, tx.sender, tx.nonce) && !Busy(queue, tx.sender, tx.nonce))
    && (forall t, u :: t in loose && u in loose && t.sender == u.sender && t.nonce == u.nonce ==> t == u)
  }

  /** What the list `kept` leaves out of `items`. */
  function Rest(items: Items, kept: Items): set<Tx> {
    set n | n in items && n !in kept :: items[n]
  }

  ghost predicate Sub(kept: List, l: List) {
    kept.strict == l.strict && Good(kept) && forall n :: n in kept.items ==> n in l.items && kept.items[n] == l.items[n]
  }

  /** What a list without some of its transactions holds. */
  lemma Taking(m: Lists, a: Address, kept: List, strict: bool)
    requires Filed(m, strict) && a in m && Sub(kept, m[a])
    ensures Filed(m[a := kept], strict)
    ensures forall tx :: Holds(m, tx) <==> Holds(m[a := kept], tx) || tx in Rest(m[a].items, kept.items)
    ensures forall tx :: tx in Rest(m[a].items, kept.items) ==> !Busy(m[a := kept], tx.sender, tx.nonce)
    ensures forall b, n :: Busy(m[a := kept], b, n) ==> Busy(m, b, n)
  {
    assert FiledAt(m, a, strict);
    assert FiledAt(m[a := kept], a, strict);
    forall b | b in m && b != a
      ensures FiledAt(m[a := kept], b, strict)
    {
      assert FiledAt(m, b, strict);
    }
  }

  /** Taking transactions out of a list makes them loose. */
  lemma TakePending(all: Lookup, pending: Lists, queue: Lists, loose: set<Tx>, a: Address, kept: List)
    requires Part(all, pending, queue, loose) && a in pending && Sub(kept, pending[a])
    ensures Part(all, pending[a := kept], queue, loose + Rest(pending[a].items, kept.items))
  {
    var out := Rest(pending[a].items, kept.items);
    Taking(pending, a, kept, true);
    forall tx | tx in out
      ensures Holds(pending, tx) && Busy(pending, tx.sender, tx.nonce)
    {
    }
  }

  lemma TakeQueue(all: Lookup, pending: Lists, queue: Lists, loose: set<Tx>, a: Address, kept: List)
    requires Part(all, pending, queue, loose) && a in queue && Sub(kept, queue[a])
    ensures Part(all, pending, queue[a := kept], loose + Rest(queue[a].items, kept.items))
  {
    var out := Rest(queue[a].items, kept.items);
    Taking(queue, a, kept, false);
    forall tx | tx in out
      ensures Holds(queue, tx) && Busy(queue, tx.sender, tx.nonce)
    {
    }
  }

  /** An emptied list may be deleted. */
  lemma DropEmpty(m: Lists, a: Address, strict: bool)
    requires Filed(m, strict) && a in m && m[a].items == map[]
    ensures Filed(m - {a}, strict)
    ensures forall tx :: Holds(m, tx) <==> Holds(m - {a}, tx)
    ensures forall b, n :: Busy(m - {a}, b, n) <==> Busy(m, b, n)
  {
    forall b | b in m - {a}
      ensures FiledAt(m - {a}, b, strict)
    {
      assert FiledAt(m, b, strict);
    }
  }

  /** Loose transactions may be forgotten. */
  lemma Forget(all: Lookup, pending: Lists, queue: Lists, loose: set<Tx>, tx: Tx)
    requires Part(all, pending, queue, loose) && tx in loose
    ensures Part(all - {tx.hash}, pending, queue, loose - {tx})
  {
  }

  /** A new transaction enters as a loose one, if its place is free. */
  lemma Enter(all: Lookup, pending: Lists, queue: Lists, tx: Tx)
    requires Part(all, pending, queue, {}) && tx.hash !in all
    requires !Busy(pending, tx.sender, tx.nonce) && !Busy(queue, tx.sender, tx.nonce)
    ensures Part(all[tx.hash := tx], pending, queue, {tx})
  {
  }

  /** What a list with a further transaction holds. */
  lemma Adding(m: Lists, tx: Tx, l: List, strict: bool)
    requires Filed(m, strict) && l == (if tx.sender in m then m[tx.sender] else Empty(strict))
    requires !Busy(m, tx.sender, tx.nonce)
    ensures var m' := m[tx.sender := Added(l, tx)];
      && Filed(m', strict)
      && (forall t :: Holds(m', t) <==> Holds(m, t) || t == tx)
      && (forall a, n :: Busy(m', a, n) <==> Busy(m, a, n) || (a == tx.sender && n == tx.nonce))
  {
    var m' := m[tx.sender := Added(l, tx)];
    assert tx.sender in m ==> FiledAt(m, tx.sender, strict);
    assert FiledAt(m', tx.sender, strict);
    forall b | b in m && b != tx.sender
      ensures FiledAt(m', b, strict)
    {
      assert FiledAt(m, b, strict);
    }
  }

  /** A loose transaction always finds its place in the queue. */
  lemma Enqueue(all: Lookup, pending: Lists, queue: Lists, loose: set<Tx>, tx: Tx, l: List)
    requires Part(all, pending, queue, loose) && tx in loose
    requires l == if tx.sender in queue then queue[tx.sender] else Empty(false)
    ensures Part(all, pending, queue[tx.sender := Added(l, tx)], loose - {tx})
  {
    Adding(queue, tx, l, false);
  }

  /** And in the pending list. */
  lemma Promote(all: Lookup, pending: Lists, queue: Lists, loose: set<Tx>, tx: Tx, l: List)
    requires Part(all, pending, queue, loose) && tx in loose
    requires l == if tx.sender in pending then pending[tx.sender] else Empty(true)
    ensures Part(all, pending[tx.sender := Added(l, tx)], queue, loose - {tx})
  {
    Adding(pending, tx, l, true);
  }

  /** One transaction moves from the queue to the pending list. */
  lemma MoveUp(all: Lookup, pending: Lists, queue: Lists, a: Address, n: nat, l: List)
    requires Part(all, pending, queue, {}) && Busy(queue, a, n)
    requires l == if a in pending then pending[a] else Empty(true)
    ensures var tx := queue[a].items[n];
      && !Busy(pending, a, n) && tx.nonce == n && tx.sender == a
      && Part(all, pending[a := Added(l, tx)], queue[a := Without(queue[a], n)], {})
  {
    var tx := queue[a].items[n];
    assert FiledAt(queue, a, false);
    WithoutRest(queue[a], n);
    TakeQueue(all, pending, queue, {}, a, Without(queue[a], n));
    assert {} + {tx} == {tx};
    Promote(all, pending, queue[a := Without(queue[a], n)], {tx}, tx, l);
    assert {tx} - {tx} == {};
  }

  /** The list without the transaction at one nonce. */
  function Without(l: List, n: nat): List {
    l.(items := l.items - {n})
  }

  lemma WithoutRest(l: List, n: nat)
    requires Good(l) && n in l.items
    ensures Sub(Without(l, n), l) && Rest(l.items, Without(l, n).items) == {l.items[n]}
  {
  }

  /** One transaction leaves the pending list and the pool. */
  lemma EvictPending(all: Lookup, pending: Lists, queue: Lists, a: Address, n: nat)
    requires Part(all, pending, queue, {}) && Busy(pending, a, n)
    ensures var l := pending[a];
      && Part(all - {l.items[n].hash}, pending[a := Without(l, n)], queue, {}) && !Busy(queue, a, n)
  {
    var l, prev := pending[a], pending[a].items[n];
    assert FiledAt(pending, a, true);
    WithoutRest(l, n);
    TakePending(all, pending, queue, {}, a, Without(l, n));
    assert {} + {prev} == {prev};
    Forget(all, pending[a := Without(l, n)], queue, {prev}, prev);
    assert {prev} - {prev} == {};
  }

  lemma EvictQueued(all: Lookup, pending: Lists, queue: Lists, a: Address, n: nat)
    requires Part(all, pending, queue, {}) && Busy(queue, a, n)
    ensures var l := queue[a];
      && Part(all - {l.items[n].hash}, pending, queue[a := Without(l, n)], {}) && !Busy(pending, a, n)
  {
    var l, prev := queue[a], queue[a].items[n];
    assert FiledAt(queue, a, false);
    WithoutRest(l, n);
    TakeQueue(all, pending, queue, {}, a, Without(l, n));
    assert {} + {prev} == {prev};
    Forget(all, pending, queue[a := Without(l, n)], {prev}, prev);
    assert {prev} - {prev} == {};
  }

  lemma EnterPending(all: Lookup, pending: Lists, queue: Lists, tx: Tx, l: List)
    requires Part(all, pending, queue, {}) && tx.hash !in all
    requires !Busy(pending, tx.sender, tx.nonce) && !Busy(queue, tx.sender, tx.nonce)
    requires l == if tx.sender in pending then pending[tx.sender] else Empty(true)
    ensures Part(all[tx.hash := tx], pending[tx.sender := Added(l, tx)], queue, {})
  {
    Enter(all, pending, queue, tx);
    Promote(all[tx.hash := tx], pending, queue, {tx}, tx, l);
    assert {tx} - {tx} == {};
  }

  lemma EnterQueue(all: Lookup, pending: Lists, queue: Lists, tx: Tx, l: List)
    requires Part(all, pending, queue, {}) && tx.hash !in all
    requires !Busy(pending, tx.sender, tx.nonce) && !Busy(queue, tx.sender, tx.nonce)
    requires l == if tx.sender in queue then queue[tx.sender] else Empty(false)
    ensures Part(all[tx.hash := tx], pending, queue[tx.sender := Added(l, tx)], {})
  {
    Enter(all, pending, queue, tx);
    Enqueue(all[tx.hash := tx], pending, queue, {tx}, tx, l);
    assert {tx} - {tx} == {};
  }

  lemma AddedAgain(m: Lists, l: List, tx: Tx)
    ensures Added(Without(l, tx.nonce), tx) == Added(l, tx)
    ensures m[tx.sender := Without(l, tx.nonce)][tx.sender := Added(l, tx)] == m[tx.sender := Added(l, tx)]
  {
  }

  /** A new transaction that takes the place of a pending one. */
  lemma ReplacePending(all: Lookup, pending: Lists, queue: Lists, tx: Tx)
    requires Part(all, pending, queue, {}) && tx.hash !in all && Busy(pending, tx.sender, tx.nonce)
    ensures var prev := pending[tx.sender].items[tx.nonce];
      Part((all - {prev.hash})[tx.hash := tx], pending[tx.sender := Added(pending[tx.sender], tx)], queue, {})
  {
    var l := pending[tx.sender];
    EvictPending(all, pending, queue, tx.sender, tx.nonce);
    AddedAgain(pending, l, tx);
    var rest := Without(l, tx.nonce);
    EnterPending(all - {l.items[tx.nonce].hash}, pending[tx.sender := rest], queue, tx, rest);
  }

  /** A new transaction that enters the queue, perhaps in the place of another. */
  lemma EnqueueNew(all: Lookup, pending: Lists, queue: Lists, tx: Tx, l: List)
    requires Part(all, pending, queue, {}) && tx.hash !in all && !Busy(pending, tx.sender, tx.nonce)
    requires l == if tx.sender in queue then queue[tx.sender] else Empty(false)
    ensures var all1 := if tx.nonce in l.items then all - {l.items[tx.nonce].hash} else all;
      Part(all1[tx.hash := tx], pending, queue[tx.sender := Added(l, tx)], {})
  {
    if tx.nonce in l.items {
      EvictQueued(all, pending, queue, tx.sender, tx.nonce);
      AddedAgain(queue, l, tx);
      var rest := Without(l, tx.nonce);
      EnterQueue(all - {l.items[tx.nonce].hash}, pending, queue[tx.sender := rest], tx, rest);
    } else {
      EnterQueue(all, pending, queue, tx, l);
    }
  }

  /** The pending nonces of a sender are exactly those from the chain nonce up to the pool's nonce. */
  ghost predicate Aligned(pending: Lists, chainNonce: nat, poolNonce: nat, a: Address) {
    && chainNonce <= poolNonce
    && (forall n: nat :: Busy(pending, a, n) <==> chainNonce <= n < poolNonce)
  }
}
