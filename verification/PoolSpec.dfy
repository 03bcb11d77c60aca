/** The state the pool works on, what its invariants mean, and what may be lost. */
module PoolSpec {
  import opened TxList
  import opened PoolState
  import opened PoolLevels

  /** The account state at the head of the chain. */
  datatype Chain = Chain(nonce: Address -> nat, balance: Address -> nat, maxGas: nat)

  datatype Config = Config(accountSlots: nat, globalSlots: nat, accountQueue: nat, globalQueue: nat, priceBump: nat,
                           quorum: bool)

  /** The pool's contents at one moment. */
  datatype Books = Books(all: Lookup, pending: Lists, queue: Lists, nonces: map<Address, nat>, locals: set<Address>,
                         beats: map<Address, nat>, clock: nat)

  /** Exactly the accounts with a pending list have a heartbeat. */
  ghost predicate Beating(pending: Lists, beats: map<Address, nat>, clock: nat) {
    beats.Keys == pending.Keys && 0 < clock && forall a :: a in beats ==> 0 < beats[a] <= clock
  }

  lemma StillBeating(pending: Lists, a: Address, l: List, beats: map<Address, nat>, clock: nat)
    requires Beating(pending, beats, clock) && a in pending
    ensures Beating(pending[a := l], beats, clock)
  {
  }

  lemma BeatsNow(pending: Lists, a: Address, l: List, beats: map<Address, nat>, clock: nat, now: nat)
    requires Beating(pending, beats, clock) && clock <= now
    ensures Beating(pending[a := l], beats[a := now], now)
  {
  }

  /** The last heartbeat of an account; without one it is older than any. */
  function BeatOf(beats: map<Address, nat>, a: Address): nat {
    if a in beats then beats[a] else 0
  }

  /** pendingState.GetNonce: the chain nonce unless it was set. */
  function NonceOf(nonces: map<Address, nat>, chain: Chain, a: Address): nat {
    if a in nonces then nonces[a] else chain.nonce(a)
  }

  function Pruned(m: Lists, a: Address): Lists
    requires a in m
  {
    if m[a].items == map[] then m - {a} else m
  }

  ghost predicate AlignedAt(pending: Lists, nonces: map<Address, nat>, chain: Chain, a: Address) {
    Aligned(pending, chain.nonce(a), NonceOf(nonces, chain, a), a)
  }

  ghost predicate Contig(pending: Lists, nonces: map<Address, nat>, chain: Chain) {
    forall a :: AlignedAt(pending, nonces, chain, a)
  }

  /** No queued transaction of the account is executable: all lie above the pool nonce. */
  ghost predicate SettledIn(queue: Lists, nonces: map<Address, nat>, chain: Chain, a: Address) {
    forall n: nat :: Busy(queue, a, n) ==> NonceOf(nonces, chain, a) < n
  }

  /** Used up at the head of the chain, or no longer to be paid for there. */
  predicate Spent(tx: Tx, chain: Chain) {
    tx.nonce < chain.nonce(tx.sender) || !Payable(tx, chain.balance(tx.sender), chain.maxGas)
  }

  /** Only spent transactions and those of remote accounts are lost: limits do not apply to locals. */
  ghost predicate OnlyLoses(before: Lookup, after: Lookup, chain: Chain, locals: set<Address>) {
    && (forall h :: h in after ==> h in before && after[h] == before[h])
    && (forall h :: h in before && h !in after && before[h].sender in locals ==> Spent(before[h], chain))
  }

  /** Only spent transactions are lost. */
  ghost predicate LosesSpent(before: Lookup, after: Lookup, chain: Chain) {
    && (forall h :: h in after ==> h in before && after[h] == before[h])
    && (forall h :: h in before && h !in after ==> Spent(before[h], chain))
  }

  /** Exactly the transactions in `out` are lost. */
  ghost predicate Loses(before: Lookup, after: Lookup, out: set<Tx>) {
    forall h :: (h in after <==> h in before && before[h] !in out) && (h in after ==> after[h] == before[h])
  }

  /** The account has that list, or none if it is empty. */
  ghost predicate Has(m: Lists, a: Address, l: List) {
    if l.items == map[] then a !in m else a in m && m[a] == l
  }

  function ItemsOf(m: Lists, a: Address): Items {
    if a in m then m[a].items else map[]
  }

  ghost predicate SameAt<T>(before: map<Address, T>, after: map<Address, T>, a: Address) {
    (a in after <==> a in before) && (a in after ==> after[a] == before[a])
  }

  /** What removing a nonce from a strict list leaves out. */
  lemma RemoveRest(l: List, n: nat)
    requires Good(l) && l.strict && n in l.items
    ensures Sub(TxList.Remove(l, n), l)
    ensures Rest(l.items, TxList.Remove(l, n).items) == {l.items[n]} + Rest(From(l.items, n + 1), map[])
    ensures l.items[n] !in Rest(From(l.items, n + 1), map[])
  {
    var kept, above := TxList.Remove(l, n), Rest(From(l.items, n + 1), map[]);
    forall m | m in l.items && m !in kept.items
      ensures l.items[m] in {l.items[n]} + above
    {
      assert m != n ==> m in From(l.items, n + 1);
    }
    forall tx | tx in above
      ensures tx in Rest(l.items, kept.items)
    {
      var m :| m in From(l.items, n + 1) && l.items[m] == tx;
    }
    assert n !in kept.items;
  }

  /** These transactions have joined. */
  ghost predicate Joined(before: Lists, after: Lists, out: set<Tx>) {
    forall tx :: Holds(after, tx) <==> Holds(before, tx) || tx in out
  }

  lemma JoinedNone(m: Lists)
    ensures Joined(m, m, {})
  {
  }

  lemma JoinedMore(all: Lookup, pending: Lists, queue: Lists, loose: set<Tx>, tx: Tx, l: List, before: Lists,
                   out: set<Tx>)
    requires Part(all, pending, queue, loose) && tx in loose && Joined(before, queue, out)
    requires l == if tx.sender in queue then queue[tx.sender] else Empty(false)
    ensures Joined(before, queue[tx.sender := Added(l, tx)], out + {tx})
  {
    Adding(queue, tx, l, false);
  }

  lemma JoinedStill(a: Lists, b: Lists, c: Lists, out: set<Tx>)
    requires Joined(a, b, {}) && Joined(b, c, out)
    ensures Joined(a, c, out)
  {
  }

  lemma JoinedTrans(a: Lists, b: Lists, c: Lists, first: set<Tx>, second: set<Tx>)
    requires Joined(a, b, first) && Joined(b, c, second)
    ensures Joined(a, c, first + second)
  {
  }

  lemma LosesNone(all: Lookup)
    ensures Loses(all, all, {})
  {
  }

  lemma LosesNothing(all: Lookup, chain: Chain, locals: set<Address>)
    ensures OnlyLoses(all, all, chain, locals)
  {
  }

  lemma GainsNothing(before: Lookup, after: Lookup, chain: Chain, locals: set<Address>)
    requires OnlyLoses(before, after, chain, locals)
    ensures forall h :: h in after ==> h in before && after[h] == before[h]
  {
  }

  lemma LosesTrans(a: Lookup, b: Lookup, c: Lookup, chain: Chain, locals: set<Address>)
    requires OnlyLoses(a, b, chain, locals) && OnlyLoses(b, c, chain, locals)
    ensures OnlyLoses(a, c, chain, locals)
  {
  }

  lemma LoseNext(all: Lookup, pending: Lists, queue: Lists, loose: set<Tx>, before: Lookup, out: set<Tx>, tx: Tx)
    requires Part(all, pending, queue, loose) && tx in loose && Loses(before, all, out)
    ensures Loses(before, all - {tx.hash}, out + {tx})
  {
  }

  lemma LoseRemote(all: Lookup, pending: Lists, queue: Lists, a: Address, n: nat, chain: Chain, locals: set<Address>)
    requires Part(all, pending, queue, {}) && Busy(pending, a, n) && a !in locals
    ensures OnlyLoses(all, all - {pending[a].items[n].hash}, chain, locals)
  {
    assert FiledAt(pending, a, true) && Holds(pending, pending[a].items[n]);
  }

  lemma RemoteLost(before: Lookup, after: Lookup, out: set<Tx>, chain: Chain, locals: set<Address>, a: Address)
    requires Loses(before, after, out) && a !in locals && forall tx :: tx in out ==> tx.sender == a
    ensures OnlyLoses(before, after, chain, locals)
  {
  }

  lemma SpentLost(before: Lookup, after: Lookup, out: set<Tx>, chain: Chain)
    requires Loses(before, after, out) && forall tx :: tx in out ==> Spent(tx, chain)
    ensures LosesSpent(before, after, chain)
  {
  }

  lemma SpentTrans(a: Lookup, b: Lookup, c: Lookup, chain: Chain)
    requires LosesSpent(a, b, chain) && LosesSpent(b, c, chain)
    ensures LosesSpent(a, c, chain)
  {
  }

  lemma SpentOnly(before: Lookup, after: Lookup, chain: Chain, locals: set<Address>)
    requires LosesSpent(before, after, chain)
    ensures OnlyLoses(before, after, chain, locals)
  {
  }

  lemma HashOf(all: Lookup, pending: Lists, queue: Lists, h: nat)
    requires Part(all, pending, queue, {}) && h in all
    ensures all[h].hash == h
  {
  }

  /** Lower pool nonces and fewer queued transactions, or ones above the nonce, leave nothing executable waiting. */
  lemma StillSettled(before: Lists, after: Lists, nonces: map<Address, nat>, nonces': map<Address, nat>, chain: Chain)
    requires forall b :: NonceOf(nonces', chain, b) <= NonceOf(nonces, chain, b)
    requires forall b, n: nat :: Busy(after, b, n) ==> Busy(before, b, n) || NonceOf(nonces', chain, b) < n
    ensures forall b :: SettledIn(before, nonces, chain, b) ==> SettledIn(after, nonces', chain, b)
  {
    hide NonceOf;
    forall b | SettledIn(before, nonces, chain, b)
      ensures SettledIn(after, nonces', chain, b)
    {
    }
  }

  lemma OthersSettled(before: Lists, after: Lists, nonces: map<Address, nat>, nonces': map<Address, nat>,
                      chain: Chain, a: Address)
    requires SameElsewhere(before, after, a) && SameElsewhere(nonces, nonces', a) && SettledIn(after, nonces', chain, a)
    ensures forall b :: SettledIn(before, nonces, chain, b) ==> SettledIn(after, nonces', chain, b)
  {
    forall b | b != a && SettledIn(before, nonces, chain, b)
      ensures SettledIn(after, nonces', chain, b)
    {
      assert forall n: nat :: Busy(after, b, n) ==> Busy(before, b, n);
    }
  }

  lemma PendingHolds(all: Lookup, pending: Lists, queue: Lists, tx: Tx)
    requires Part(all, pending, queue, {}) && tx.hash in all && all[tx.hash] == tx && Busy(pending, tx.sender, tx.nonce)
    ensures Holds(pending, tx)
  {
    assert Holds(queue, tx) ==> Busy(queue, tx.sender, tx.nonce);
  }

  /** A pending transaction and everything above it leave the list; the transaction leaves the pool. */
  lemma RemovePending(all: Lookup, pending: Lists, queue: Lists, tx: Tx)
    requires Part(all, pending, queue, {}) && tx.hash in all && all[tx.hash] == tx && Busy(pending, tx.sender, tx.nonce)
    ensures Part(all - {tx.hash}, pending[tx.sender := TxList.Remove(pending[tx.sender], tx.nonce)], queue,
                 Rest(From(pending[tx.sender].items, tx.nonce + 1), map[]))
  {
    var l := pending[tx.sender];
    var kept, above := TxList.Remove(l, tx.nonce), Rest(From(l.items, tx.nonce + 1), map[]);
    PendingHolds(all, pending, queue, tx);
    assert FiledAt(pending, tx.sender, true);
    RemoveRest(l, tx.nonce);
    TakePending(all, pending, queue, {}, tx.sender, kept);
    assert {} + ({tx} + above) == {tx} + above;
    Forget(all, pending[tx.sender := kept], queue, {tx} + above, tx);
    assert {tx} + above - {tx} == above;
  }

  lemma FiledList(all: Lookup, pending: Lists, queue: Lists, a: Address)
    requires Part(all, pending, queue, {}) && a in queue
    ensures Good(queue[a]) && !queue[a].strict && forall n :: n in queue[a].items ==> queue[a].items[n].sender == a
    ensures forall k: nat :: Sub(Forward(queue[a], k), queue[a]) && Sub(Cap(queue[a], k), queue[a])
  {
    assert FiledAt(queue, a, false);
  }

  lemma QueuedOnly(all: Lookup, pending: Lists, queue: Lists, a: Address, n: nat)
    requires Part(all, pending, queue, {}) && Busy(queue, a, n)
    ensures var tx := queue[a].items[n];
      tx.sender == a && tx.nonce == n && tx.hash in all && all[tx.hash] == tx && !Busy(pending, a, n)
  {
    assert FiledAt(queue, a, false);
    assert Holds(queue, queue[a].items[n]);
  }

  lemma PendingList(all: Lookup, pending: Lists, queue: Lists, a: Address)
    requires Part(all, pending, queue, {}) && a in pending
    ensures Good(pending[a]) && pending[a].strict
    ensures forall n :: n in pending[a].items ==> pending[a].items[n].sender == a
    ensures forall k: nat :: Sub(Forward(pending[a], k), pending[a]) && Sub(Cap(pending[a], k), pending[a])
  {
    assert FiledAt(pending, a, true);
  }

  lemma FilterSub(l: List, costLimit: nat, gasLimit: nat)
    requires Good(l)
    ensures Sub(Filter(l, costLimit, gasLimit), l)
    ensures forall n :: n in Filter(l, costLimit, gasLimit).items ==>
      Payable(Filter(l, costLimit, gasLimit).items[n], costLimit, gasLimit)
  {
    FilterIsScan(l, costLimit, gasLimit);
  }

  lemma SameAligned(before: Lists, after: Lists, nonces: map<Address, nat>, chain: Chain)
    requires Contig(before, nonces, chain) && forall b, n: nat :: Busy(after, b, n) <==> Busy(before, b, n)
    ensures Contig(after, nonces, chain)
  {
    forall a
      ensures AlignedAt(after, nonces, chain, a)
    {
      assert AlignedAt(before, nonces, chain, a);
    }
  }

  lemma IdleSettled(queue: Lists, nonces: map<Address, nat>, chain: Chain)
    ensures forall a :: a !in queue ==> SettledIn(queue, nonces, chain, a)
  {
  }

  /** The account lost its nonces from `n` on, the other accounts nothing. */
  ghost predicate CutAt(before: Lists, after: Lists, a: Address, n: nat) {
    forall b, m: nat :: Busy(after, b, m) <==> Busy(before, b, m) && (b == a ==> m < n)
  }

  lemma TopCut(before: Lists, a: Address, top: nat)
    requires a in before && Greatest(before[a].items, top)
    ensures CutAt(before, before[a := Without(before[a], top)], a, top)
  {
  }

  lemma SameCut(before: Lists, mid: Lists, after: Lists, a: Address, n: nat)
    requires CutAt(before, mid, a, n) && forall b, m :: Busy(after, b, m) <==> Busy(mid, b, m)
    ensures CutAt(before, after, a, n)
  {
  }

  /** What is above a pending transaction, and what cutting it off leaves. */
  lemma PendingCut(all: Lookup, pending: Lists, queue: Lists, tx: Tx)
    requires Part(all, pending, queue, {}) && Busy(pending, tx.sender, tx.nonce)
    ensures CutAt(pending, pending[tx.sender := TxList.Remove(pending[tx.sender], tx.nonce)], tx.sender, tx.nonce)
    ensures forall t :: t in Rest(From(pending[tx.sender].items, tx.nonce + 1), map[]) ==>
      t.sender == tx.sender && t.nonce > tx.nonce
  {
    assert FiledAt(pending, tx.sender, true);
    CutBusy(pending[tx.sender := TxList.Remove(pending[tx.sender], tx.nonce)], pending, tx.sender, tx.nonce);
  }

  lemma CutBusy(after: Lists, before: Lists, a: Address, n: nat)
    requires Filed(before, true) && Busy(before, a, n) && after == before[a := TxList.Remove(before[a], n)]
    ensures CutAt(before, after, a, n)
  {
    assert FiledAt(before, a, true);
  }

  /** Cutting a sender's pending list at a nonce and setting the pool nonce to it keeps all aligned. */
  lemma CutAligned(before: Lists, after: Lists, nonces: map<Address, nat>, nonces': map<Address, nat>, chain: Chain,
                   a: Address, n: nat)
    requires Contig(before, nonces, chain) && Busy(before, a, n) && CutAt(before, after, a, n)
    requires nonces' == if NonceOf(nonces, chain, a) > n then nonces[a := n] else nonces
    ensures Contig(after, nonces', chain)
  {
    assert AlignedAt(before, nonces, chain, a);
    forall b
      ensures AlignedAt(after, nonces', chain, b)
    {
      assert AlignedAt(before, nonces, chain, b);
    }
  }

  ghost predicate SameElsewhere<T>(before: map<Address, T>, after: map<Address, T>, a: Address) {
    forall b :: b != a ==> (b in after <==> b in before) && (b in after ==> after[b] == before[b])
  }
}
