/** What one offer does to the pool: refused, or seated in the place of another or an empty one. */
module PoolAdd {
  import opened TxList
  import opened PoolState
  import opened PoolSpec
  import PricedList

  /** A transaction offered to the pool; `sound` stands for the checks of its size, signature, value and
      intrinsic gas. */
  datatype Offer = Offer(tx: Tx, local: bool, sound: bool)

  datatype Outcome = Accepted(replaced: bool) | Rejected

  /** validateTx. */
  predicate Acceptable(o: Offer, chain: Chain, config: Config, gasPrice: nat, locals: set<Address>) {
    && o.sound && o.tx.gas <= chain.maxGas && chain.nonce(o.tx.sender) <= o.tx.nonce
    && o.tx.cost <= chain.balance(o.tx.sender)
    && (if config.quorum then o.tx.price == 0 else o.local || o.tx.sender in locals || gasPrice <= o.tx.price)
  }

  /** The price is right: none in Quorum, and otherwise at least the pool's, which does not apply to locals. */
  ghost predicate PricedRight(o: Offer, config: Config, gasPrice: nat, locals: set<Address>) {
    if config.quorum then o.tx.price == 0 else o.local || o.tx.sender in locals || gasPrice <= o.tx.price
  }

  lemma AcceptableIs(o: Offer, chain: Chain, config: Config, gasPrice: nat, locals: set<Address>)
    ensures Acceptable(o, chain, config, gasPrice, locals) <==>
      o.sound && !Spent(o.tx, chain) && PricedRight(o, config, gasPrice, locals)
  {
  }

  /** Another transaction of the sender has the nonce, and is not outbid by the price bump. */
  ghost predicate Contested(all: Lookup, tx: Tx, priceBump: nat) {
    exists h :: h in all && all[h].sender == tx.sender && all[h].nonce == tx.nonce &&
      (tx.price <= all[h].price || 100 * (tx.price + 1) <= all[h].price * (100 + priceBump))
  }

  lemma SeatedUnless(room: Lookup, after: Lookup, tx: Tx, r: Outcome, config: Config)
    requires Seated(room, after, tx, r, config)
    ensures r.Rejected? <==> Contested(room, tx, config.priceBump)
  {
    if h :| h in room && SamePlace(room[h], tx) && !Outbids(room[h], tx, config.priceBump) {
      assert Contested(room, tx, config.priceBump);
    }
    if Contested(room, tx, config.priceBump) {
      var h :| h in room && room[h].sender == tx.sender && room[h].nonce == tx.nonce &&
        (tx.price <= room[h].price || 100 * (tx.price + 1) <= room[h].price * (100 + config.priceBump));
      assert !Outbids(room[h], tx, config.priceBump);
    }
  }

  lemma ContestedMore(room: Lookup, all: Lookup, tx: Tx, priceBump: nat)
    requires Contested(room, tx, priceBump) && forall h :: h in room ==> h in all && all[h] == room[h]
    ensures Contested(all, tx, priceBump)
  {
    var h :| h in room && room[h].sender == tx.sender && room[h].nonce == tx.nonce &&
      (tx.price <= room[h].price || 100 * (tx.price + 1) <= room[h].price * (100 + priceBump));
    assert h in all && all[h] == room[h];
  }

  predicate Full(all: Lookup, config: Config) {
    |all| >= config.globalSlots + config.globalQueue
  }

  predicate SamePlace(a: Tx, b: Tx) {
    a.sender == b.sender && a.nonce == b.nonce
  }

  ghost predicate Blocked(all: Lookup, tx: Tx, config: Config) {
    exists h :: h in all && SamePlace(all[h], tx) && !Outbids(all[h], tx, config.priceBump)
  }

  function ListOf(queue: Lists, a: Address): List {
    if a in queue then queue[a] else Empty(false)
  }

  /** What can happen to the pool. */
  datatype Event =
    | Incoming(batch: seq<Offer>)
    | Repriced(price: nat)
    | NewHead(head: Chain, reinject: seq<Offer>)
    | Ticked(now: nat, lifetime: nat)

  /** Underpriced: a remote transaction in a network with prices that none in the pool is cheaper than. */
  ghost predicate TooCheap(all: Lookup, o: Offer, config: Config, locals: set<Address>) {
    !config.quorum && !o.local && PricedList.Undercuts(all, locals, o.tx)
  }

  /** removeTx: the transaction is gone. If it was pending, everything above it has gone back to the queue, and the
      pool nonce is not above it; an emptied list is deleted, a pending one with its heartbeat. */
  ghost predicate Unlisted(before: Books, after: Books, h: nat, chain: Chain) {
    if h !in before.all then after == before
    else
      var tx := before.all[h];
      var a, n := tx.sender, tx.nonce;
      && after.all == before.all - {h} && after.locals == before.locals && after.clock == before.clock
      && if Busy(before.pending, a, n) then CutFrom(before, after, a, n, chain)
        else
          && after.pending == before.pending && after.nonces == before.nonces && after.beats == before.beats
          && Busy(before.queue, a, n)
          && after.queue == Pruned(before.queue[a := Without(before.queue[a], n)], a)
  }

  ghost predicate CutFrom(before: Books, after: Books, a: Address, n: nat, chain: Chain)
    requires Busy(before.pending, a, n)
  {
    var l := before.pending[a];
    && after.pending == Pruned(before.pending[a := TxList.Remove(l, n)], a)
    && Joined(before.queue, after.queue, Rest(From(l.items, n + 1), map[]))
    && after.nonces == (if NonceOf(before.nonces, chain, a) > n then before.nonces[a := n] else before.nonces)
    && after.beats == (if TxList.Remove(l, n).items == map[] then before.beats - {a} else before.beats)
  }

  /** These are removed one after another. */
  ghost predicate AllUnlisted(before: Books, after: Books, drop: seq<Tx>, chain: Chain)
    decreases |drop|
  {
    if drop == [] then after == before
    else
      var k := |drop| - 1;
      exists mid :: AllUnlisted(before, mid, drop[..k], chain) && Unlisted(mid, after, drop[k].hash, chain)
  }

  lemma UnlistedAll(before: Books, after: Books, h: nat, chain: Chain)
    requires Unlisted(before, after, h, chain)
    ensures after.all == before.all - {h}
  {
  }

  lemma UnlistedMore(before: Books, mid: Books, after: Books, drop: seq<Tx>, i: nat, chain: Chain)
    requires i < |drop| && AllUnlisted(before, mid, drop[..i], chain) && Unlisted(mid, after, drop[i].hash, chain)
    ensures AllUnlisted(before, after, drop[..i + 1], chain)
  {
    hide Unlisted;
    var more := drop[..i + 1];
    assert more[..i] == drop[..i] && more[i] == drop[i];
  }

  /** What makes room for an offer: nothing unless the pool is full. */
  ghost predicate MakesRoom(all: Lookup, locals: set<Address>, drop: seq<Tx>, config: Config) {
    if Full(all, config) then
      PricedList.Cheapest(all, locals, |all| - (config.globalSlots + config.globalQueue - 1), drop)
    else drop == []
  }

  /** The transaction takes the place of another of its sender and nonce if it outbids it, and otherwise an
      empty place. */
  ghost predicate Seated(room: Lookup, after: Lookup, tx: Tx, r: Outcome, config: Config) {
    if Blocked(room, tx, config) then r == Rejected && after == room
    else
      && r == Accepted(exists h :: h in room && SamePlace(room[h], tx))
      && (forall h :: h in after <==> h == tx.hash || (h in room && !SamePlace(room[h], tx)))
      && (forall h :: h in after ==> after[h] == if h == tx.hash then tx else room[h])
  }

  /** Where the transaction goes: to the pending list if its nonce is pending there, and to the queue otherwise. */
  ghost function Seat(b: Books, o: Offer, config: Config): Books {
    var tx := o.tx;
    if Busy(b.pending, tx.sender, tx.nonce) then
      var l := b.pending[tx.sender];
      if Accepts(l, tx, config.priceBump) then
        b.(all := (b.all - {l.items[tx.nonce].hash})[tx.hash := tx], pending := b.pending[tx.sender := Added(l, tx)])
      else b
    else
      var l := ListOf(b.queue, tx.sender);
      if Accepts(l, tx, config.priceBump) then
        b.(all := (if tx.nonce in l.items then b.all - {l.items[tx.nonce].hash} else b.all)[tx.hash := tx],
           queue := b.queue[tx.sender := Added(l, tx)],
           locals := if o.local then b.locals + {tx.sender} else b.locals)
      else b
  }

  ghost predicate Refused(b: Books, o: Offer, chain: Chain, config: Config, gasPrice: nat) {
    || o.tx.hash in b.all || !Acceptable(o, chain, config, gasPrice, b.locals)
    || (Full(b.all, config) && TooCheap(b.all, o, config, b.locals))
  }

  /** What one offer does: known, unacceptable and, in a full pool, underpriced ones change nothing; for others
      a full pool drops its cheapest remote transactions, and then the place decides. */
  ghost predicate AddStep(before: Books, after: Books, o: Offer, r: Outcome, chain: Chain, config: Config,
                          gasPrice: nat) {
    if Refused(before, o, chain, config, gasPrice) then r == Rejected && after == before
    else exists drop: seq<Tx>, room: Books ::
      && MakesRoom(before.all, before.locals, drop, config) && AllUnlisted(before, room, drop, chain)
      && after == Seat(room, o, config) && Seated(room.all, after.all, o.tx, r, config)
  }

  /** The offers of a batch one after another. */
  ghost predicate AddSteps(trace: seq<Books>, batch: seq<Offer>, results: seq<Outcome>, chain: Chain, config: Config,
                           gasPrice: nat) {
    && |trace| == |batch| + 1 && |results| == |batch|
    && forall i: nat :: i < |batch| ==> AddStep(trace[i], trace[i + 1], batch[i], results[i], chain, config, gasPrice)
  }

  lemma AddRefused(b: Books, o: Offer, chain: Chain, config: Config, gasPrice: nat)
    requires Refused(b, o, chain, config, gasPrice)
    ensures AddStep(b, b, o, Rejected, chain, config, gasPrice)
  {
  }

  lemma AddTaken(before: Books, drop: seq<Tx>, room: Books, after: Books, o: Offer, r: Outcome, chain: Chain,
                 config: Config, gasPrice: nat)
    requires !Refused(before, o, chain, config, gasPrice) && MakesRoom(before.all, before.locals, drop, config)
    requires AllUnlisted(before, room, drop, chain)
    requires after == Seat(room, o, config) && Seated(room.all, after.all, o.tx, r, config)
    ensures AddStep(before, after, o, r, chain, config, gasPrice)
  {
  }

  lemma MoreHashes(drop: seq<Tx>, i: nat)
    requires i < |drop|
    ensures PricedList.Hashes(drop[..i + 1]) == PricedList.Hashes(drop[..i]) + {drop[i].hash}
  {
    assert drop[..i + 1] == drop[..i] + [drop[i]];
    PricedList.HashesMore(drop[..i], drop[i]);
  }

  lemma RoomKept(b: Books, config: Config, chain: Chain)
    requires !Full(b.all, config)
    ensures MakesRoom(b.all, b.locals, [], config) && AllUnlisted(b, b, [], chain)
  {
  }

  /** The offers are what their hashes stand for. */
  ghost predicate Genuine(batch: seq<Offer>, content: nat -> Tx) {
    forall o :: o in batch ==> content(o.tx.hash) == o.tx
  }

  function OffersOf(e: Event): seq<Offer> {
    match e {
      case Incoming(batch) => batch
      case Repriced(price) => []
      case NewHead(head, reinject) => reinject
      case Ticked(now, lifetime) => []
    }
  }

  /** Exactly the remote transactions below the price are gone, removed one after another. */
  ghost predicate PricedOut(before: Books, after: Books, price: nat, chain: Chain) {
    && (exists drop :: AllUnlisted(before, after, drop, chain))
    && (forall h :: h in after.all <==>
          h in before.all && (before.all[h].sender in before.locals || price <= before.all[h].price))
    && (forall h :: h in after.all ==> after.all[h] == before.all[h]) && after.locals == before.locals
  }

  lemma SeatedNow(before: Lookup, after: Lookup, pending: Lists, queue: Lists, displaced: set<nat>, tx: Tx,
                  r: Outcome, config: Config)
    requires Part(before, pending, queue, {}) && tx.hash !in before
    requires r.Rejected? ==> Blocked(before, tx, config) && after == before
    requires r.Accepted? ==> !Blocked(before, tx, config) && after == (before - displaced)[tx.hash := tx]
    requires displaced ==
      if Busy(pending, tx.sender, tx.nonce) then {pending[tx.sender].items[tx.nonce].hash}
      else if Busy(queue, tx.sender, tx.nonce) then {queue[tx.sender].items[tx.nonce].hash} else {}
    requires r.Accepted? ==> (r.replaced <==> displaced != {})
    ensures Seated(before, after, tx, r, config)
  {
    PlaceTaken(before, pending, queue, displaced, tx);
  }

  /** The one transaction in the place of another is in one of the two maps. */
  lemma PlaceTaken(all: Lookup, pending: Lists, queue: Lists, displaced: set<nat>, tx: Tx)
    requires Part(all, pending, queue, {})
    requires displaced ==
      if Busy(pending, tx.sender, tx.nonce) then {pending[tx.sender].items[tx.nonce].hash}
      else if Busy(queue, tx.sender, tx.nonce) then {queue[tx.sender].items[tx.nonce].hash} else {}
    ensures forall h :: h in displaced <==> h in all && SamePlace(all[h], tx)
  {
    if tx.sender in pending {
      assert FiledAt(pending, tx.sender, true);
    }
    if tx.sender in queue {
      assert FiledAt(queue, tx.sender, false);
    }
    if Busy(pending, tx.sender, tx.nonce) {
      assert Holds(pending, pending[tx.sender].items[tx.nonce]);
    } else if Busy(queue, tx.sender, tx.nonce) {
      assert Holds(queue, queue[tx.sender].items[tx.nonce]);
    }
  }

  lemma AddMore(trace: seq<Books>, batch: seq<Offer>, results: seq<Outcome>, chain: Chain, config: Config,
                gasPrice: nat, after: Books, o: Offer, r: Outcome)
    requires AddSteps(trace, batch, results, chain, config, gasPrice)
    requires AddStep(trace[|batch|], after, o, r, chain, config, gasPrice)
    ensures AddSteps(trace + [after], batch + [o], results + [r], chain, config, gasPrice)
  {
    hide AddStep;
    var trace', batch', results' := trace + [after], batch + [o], results + [r];
    forall i: nat | i < |batch'|
      ensures AddStep(trace'[i], trace'[i + 1], batch'[i], results'[i], chain, config, gasPrice)
    {
      assert i < |batch| ==> AddStep(trace[i], trace[i + 1], batch[i], results[i], chain, config, gasPrice);
    }
  }

  lemma PlaceHolder(all: Lookup, pending: Lists, queue: Lists, tx: Tx, config: Config)
    requires Part(all, pending, queue, {})
    ensures Busy(pending, tx.sender, tx.nonce) ==>
      var prev := pending[tx.sender].items[tx.nonce];
      && prev.hash in all && all[prev.hash] == prev && SamePlace(prev, tx)
      && (Blocked(all, tx, config) <==> !Outbids(prev, tx, config.priceBump))
    ensures !Busy(pending, tx.sender, tx.nonce) && Busy(queue, tx.sender, tx.nonce) ==>
      var prev := queue[tx.sender].items[tx.nonce];
      && prev.hash in all && all[prev.hash] == prev && SamePlace(prev, tx)
      && (Blocked(all, tx, config) <==> !Outbids(prev, tx, config.priceBump))
    ensures !Busy(pending, tx.sender, tx.nonce) && !Busy(queue, tx.sender, tx.nonce) ==> !Blocked(all, tx, config)
  {
    if tx.sender in pending {
      assert FiledAt(pending, tx.sender, true);
    }
    if tx.sender in queue {
      assert FiledAt(queue, tx.sender, false);
    }
    if Busy(pending, tx.sender, tx.nonce) {
      assert Holds(pending, pending[tx.sender].items[tx.nonce]);
    } else if Busy(queue, tx.sender, tx.nonce) {
      assert Holds(queue, queue[tx.sender].items[tx.nonce]);
    }
  }

  lemma EnqueuedSettled(before: Lists, after: Lists, nonces: map<Address, nat>, chain: Chain, tx: Tx)
    requires SameElsewhere(before, after, tx.sender)
    requires tx.sender in after
    requires after[tx.sender].items == (if tx.sender in before then before[tx.sender].items else map[])[tx.nonce := tx]
    ensures forall b :: SettledIn(before, nonces, chain, b) && (b == tx.sender ==> Busy(before, b, tx.nonce)) ==>
      SettledIn(after, nonces, chain, b)
  {
    hide NonceOf;
    forall b | SettledIn(before, nonces, chain, b) && (b == tx.sender ==> Busy(before, b, tx.nonce))
      ensures SettledIn(after, nonces, chain, b)
    {
      assert forall n: nat :: Busy(after, b, n) ==> Busy(before, b, n);
    }
  }
}
