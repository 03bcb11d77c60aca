/** What stays pending at a new head, and what goes back to the queue. */
module PoolDemote {
  import opened TxList
  import opened PoolState
  import opened PoolLevels
  import opened PoolSpec

  lemma SpentBelow(l: List, chain: Chain, a: Address)
    requires Good(l) && forall n :: n in l.items ==> l.items[n].sender == a
    ensures forall tx :: tx in Rest(l.items, Forward(l, chain.nonce(a)).items) ==> Spent(tx, chain)
  {
  }

  /** No pending list has a gap. */
  ghost predicate Gapless(pending: Lists) {
    forall a :: a in pending ==> TxList.Contiguous(pending[a].items)
  }

  /** Those left out of a list that are forgotten. */
  function Dropped(l: List, kept: List, costLimit: nat, gasLimit: nat, forget: bool): set<Tx> {
    set tx | tx in Rest(l.items, kept.items) && (forget || !Payable(tx, costLimit, gasLimit))
  }

  /** What stays pending at a new head: nothing, if the next transaction of the account is missing. */
  function Demoted(l: List, chain: Chain, a: Address): List {
    var kept := Filter(Forward(l, chain.nonce(a)), chain.balance(a), chain.maxGas);
    if kept.items != map[] && chain.nonce(a) !in kept.items then Cap(kept, 0) else kept
  }

  /** Those above an unpayable transaction that could be paid for themselves. */
  function Stranded(l: List, chain: Chain, a: Address): set<Tx> {
    var kept := Filter(l, chain.balance(a), chain.maxGas);
    set tx | tx in Rest(l.items, kept.items) && Payable(tx, chain.balance(a), chain.maxGas)
  }

  /** What goes back to the queue at a new head: whatever can still be paid for and does not stay pending. */
  function Postponed(l: List, chain: Chain, a: Address): set<Tx> {
    set n | n in l.items && chain.nonce(a) <= n && Payable(l.items[n], chain.balance(a), chain.maxGas) &&
      n !in Demoted(l, chain, a).items :: l.items[n]
  }

  lemma PostponedParts(l: List, chain: Chain, a: Address)
    requires Good(l) && l.strict
    ensures var ahead := Forward(l, chain.nonce(a)); var kept := Filter(ahead, chain.balance(a), chain.maxGas);
      Postponed(l, chain, a) ==
        if kept.items != map[] && chain.nonce(a) !in kept.items then Stranded(ahead, chain, a) + Rest(kept.items, map[])
        else Stranded(ahead, chain, a)
  {
    var ahead := Forward(l, chain.nonce(a));
    var kept := Filter(ahead, chain.balance(a), chain.maxGas);
    FilterSub(ahead, chain.balance(a), chain.maxGas);
  }

  ghost predicate Returns(pending: Lists, chain: Chain, left: set<Address>, tx: Tx) {
    tx.sender in pending && tx.sender !in left && tx in Postponed(pending[tx.sender], chain, tx.sender)
  }

  /** The queue has got what went back to it of the lists of all accounts but those still to come. */
  ghost predicate Requeued(pending: Lists, before: Lists, after: Lists, chain: Chain, left: set<Address>) {
    forall tx :: Holds(after, tx) <==> Holds(before, tx) || Returns(pending, chain, left, tx)
  }

  lemma RequeuedMore(start: Lists, pending: Lists, before: Lists, mid: Lists, after: Lists, chain: Chain,
                     left: set<Address>, a: Address)
    requires Requeued(start, before, mid, chain, left) && a in left && a in start && a in pending
    requires pending[a] == start[a]
    requires forall n :: n in pending[a].items ==> pending[a].items[n].sender == a
    requires Joined(mid, after, Postponed(pending[a], chain, a))
    ensures Requeued(start, before, after, chain, left - {a})
  {
    hide Demoted;
  }

  /** The queue of an account that nothing goes back to stays. */
  lemma QueueStays(pending: Lists, before: Lists, after: Lists, chain: Chain, a: Address)
    requires Filed(before, false) && Filed(after, false) && Requeued(pending, before, after, chain, {})
    requires a in pending ==> Postponed(pending[a], chain, a) == {}
    ensures ItemsOf(after, a) == ItemsOf(before, a)
  {
    hide Postponed;
    QueueHolds(before, after, a);
    QueueHolds(after, before, a);
  }

  lemma QueueHolds(m: Lists, m': Lists, a: Address)
    requires Filed(m, false) && Filed(m', false) && forall tx: Tx :: tx.sender == a && Holds(m, tx) ==> Holds(m', tx)
    ensures forall n :: n in ItemsOf(m, a) ==> n in ItemsOf(m', a) && ItemsOf(m', a)[n] == ItemsOf(m, a)[n]
  {
    forall n | n in ItemsOf(m, a)
      ensures n in ItemsOf(m', a) && ItemsOf(m', a)[n] == ItemsOf(m, a)[n]
    {
      assert FiledAt(m, a, false) && Holds(m, m[a].items[n]);
    }
  }

  /** The nonce stands one above the last transaction. */
  ghost predicate EndsAt(items: Items, nonces: map<Address, nat>, a: Address) {
    a in nonces && 0 < nonces[a] && Greatest(items, nonces[a] - 1)
  }

  /** Every account with pending transactions has its nonce from them. */
  ghost predicate Numbered(pending: Lists, before: map<Address, nat>, after: map<Address, nat>) {
    forall a :: if a in pending then EndsAt(pending[a].items, after, a) else SameAt(before, after, a)
  }

  /** Every account but those still to come has what stays pending of its list. */
  ghost predicate AllDemoted(before: Lists, after: Lists, chain: Chain, left: set<Address>) {
    forall a ::
      if a in before && a !in left then Has(after, a, Demoted(before[a], chain, a)) else SameAt(before, after, a)
  }

  lemma DemotedNone(pending: Lists, queue: Lists, chain: Chain)
    ensures AllDemoted(pending, pending, chain, pending.Keys) && Requeued(pending, queue, queue, chain, pending.Keys)
  {
  }

  lemma DemotedMore(before: Lists, mid: Lists, after: Lists, chain: Chain, left: set<Address>, a: Address)
    requires AllDemoted(before, mid, chain, left) && a in left && a in mid
    requires after == Pruned(mid[a := Demoted(mid[a], chain, a)], a)
    ensures AllDemoted(before, after, chain, left - {a})
    ensures a in before && before[a] == mid[a] && SameElsewhere(mid, after, a)
  {
    hide Demoted;
    assert SameAt(before, mid, a);
  }

  /** What becomes of pending transactions at a new head: the spent ones are gone, all others are pending or queued,
      and what was queued stays. */
  ghost predicate Resorted(pending: Lists, queue: Lists, pending': Lists, queue': Lists, chain: Chain) {
    && (forall tx :: Holds(pending, tx) ==>
          if Spent(tx, chain) then !Holds(pending', tx) && !Holds(queue', tx)
          else Holds(pending', tx) || Holds(queue', tx))
    && (forall tx :: Holds(pending', tx) ==> Holds(pending, tx))
    && (forall tx :: Holds(queue, tx) ==> Holds(queue', tx))
    && (forall tx :: Holds(queue', tx) ==> Holds(queue, tx) || Holds(pending, tx))
  }

  lemma DemotedExact(l: List, chain: Chain, a: Address)
    requires Good(l) && l.strict && forall n :: n in l.items ==> l.items[n].sender == a
    ensures var kept := Demoted(l, chain, a).items;
      && (forall n :: n in kept ==> n in l.items && kept[n] == l.items[n] && !Spent(l.items[n], chain))
      && (forall n :: n in l.items && !Spent(l.items[n], chain) && n !in kept ==> l.items[n] in Postponed(l, chain, a))
      && (forall tx :: tx in Postponed(l, chain, a) ==>
            tx.nonce in l.items && l.items[tx.nonce] == tx && !Spent(tx, chain))
  {
    var ahead := Forward(l, chain.nonce(a));
    FilterIsScan(ahead, chain.balance(a), chain.maxGas);
  }

  lemma DemotedSorts(all: Lookup, pending: Lists, queue: Lists, pending': Lists, queue': Lists, chain: Chain)
    requires Part(all, pending, queue, {}) && AllDemoted(pending, pending', chain, {})
    requires Requeued(pending, queue, queue', chain, {})
    ensures Resorted(pending, queue, pending', queue', chain)
  {
    forall tx
      ensures Holds(pending, tx) ==>
        if Spent(tx, chain) then !Holds(pending', tx) && !Holds(queue', tx)
        else Holds(pending', tx) || Holds(queue', tx)
      ensures Holds(pending', tx) ==> Holds(pending, tx)
      ensures Holds(queue', tx) ==> Holds(queue, tx) || Holds(pending, tx)
    {
      DemotedSortsOne(all, pending, queue, pending', queue', chain, tx);
    }
  }

  lemma DemotedSortsOne(all: Lookup, pending: Lists, queue: Lists, pending': Lists, queue': Lists, chain: Chain, tx: Tx)
    requires Part(all, pending, queue, {}) && AllDemoted(pending, pending', chain, {})
    requires Requeued(pending, queue, queue', chain, {})
    ensures Holds(pending, tx) ==>
      if Spent(tx, chain) then !Holds(pending', tx) && !Holds(queue', tx)
      else Holds(pending', tx) || Holds(queue', tx)
    ensures Holds(pending', tx) ==> Holds(pending, tx)
    ensures Holds(queue', tx) ==> Holds(queue, tx) || Holds(pending, tx)
  {
    hide Part, Demoted, Postponed, Spent;
    if tx.sender in pending {
      PendingList(all, pending, queue, tx.sender);
      DemotedExact(pending[tx.sender], chain, tx.sender);
      assert Has(pending', tx.sender, Demoted(pending[tx.sender], chain, tx.sender));
      NotTwice(all, pending, queue, tx);
      assert Holds(queue', tx) <==> Holds(queue, tx) || Returns(pending, chain, {}, tx);
    } else {
      assert SameAt(pending, pending', tx.sender);
    }
  }

  lemma NotTwice(all: Lookup, pending: Lists, queue: Lists, tx: Tx)
    requires Part(all, pending, queue, {})
    ensures !(Holds(pending, tx) && Holds(queue, tx))
  {
    assert !(Busy(pending, tx.sender, tx.nonce) && Busy(queue, tx.sender, tx.nonce));
  }

  lemma SpentNothing(all: Lookup, chain: Chain)
    ensures LosesSpent(all, all, chain)
  {
  }

  lemma UnpayableSpent(l: List, kept: List, chain: Chain, a: Address)
    requires forall n :: n in l.items ==> l.items[n].sender == a
    ensures forall tx :: tx in Dropped(l, kept, chain.balance(a), chain.maxGas, false) ==> Spent(tx, chain)
  {
  }

  lemma AlignedGapless(pending: Lists, nonces: map<Address, nat>, chain: Chain)
    requires Contig(pending, nonces, chain)
    ensures Gapless(pending)
  {
    forall a, i, j: nat, k | a in pending && i in pending[a].items && k in pending[a].items && i <= j <= k
      ensures j in pending[a].items
    {
      assert AlignedAt(pending, nonces, chain, a);
      assert Busy(pending, a, i) && Busy(pending, a, k) && Busy(pending, a, j);
    }
  }
}
