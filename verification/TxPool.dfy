/** The transaction pool: add, replace, promote, demote, evict and reset, with its price list and heartbeats. */
module TxPool {
  import opened TxList
  import opened PoolState
  import opened PoolLevels
  import opened PoolSpec
  import opened PoolAdd
  import opened PoolBatch
  import opened PoolCuts
  import opened PoolDemote
  import opened PoolPromote
  import opened PoolReset
  import PricedList
  import SortedMap

  /** The price list covers the lookup, and its entries, stale ones too, are what their hashes stand for. */
  ghost predicate PricesIn(priced: PricedList.Priced, all: Lookup, content: nat -> Tx)
    reads priced
  {
    priced.Valid(all) && forall x :: x in priced.items ==> content(x.hash) == x
  }

  lemma PricesLeave(priced: PricedList.Priced, all: Lookup, content: nat -> Tx, h: nat)
    requires PricesIn(priced, all, content)
    ensures PricesIn(priced, all - {h}, content)
  {
    PricedList.LeaveValid(all, priced.items, h);
  }

  class Pool {
    const config: Config
    const priced: PricedList.Priced
    /** Hashes identify transactions. */
    ghost const content: nat -> Tx
    var chain: Chain
    var gasPrice: nat
    var pending: Lists
    var queue: Lists
    var all: Lookup
    var nonces: map<Address, nat>
    var locals: set<Address>
    var beats: map<Address, nat>
    var clock: nat

    function Nonce(a: Address): nat
      reads this
    {
      NonceOf(nonces, chain, a)
    }

    ghost predicate Parted()
      reads this
    {
      Part(all, pending, queue, {})
    }

    ghost predicate Listed()
      reads this, priced
    {
      PricesIn(priced, all, content)
    }

    ghost predicate Alive()
      reads this
    {
      Beating(pending, beats, clock)
    }

    ghost predicate Valid()
      reads this, priced
    {
      Parted() && Listed() && Alive()
    }

    /** Every sender's pending nonces are contiguous from the chain nonce. */
    ghost predicate Contiguous()
      reads this
    {
      Contig(pending, nonces, chain)
    }

    ghost predicate SettledAt(a: Address)
      reads this
    {
      SettledIn(queue, nonces, chain, a)
    }

    ghost function View(): Books
      reads this
    {
      Books(all, pending, queue, nonces, locals, beats, clock)
    }

    ghost function Now(): Moment
      reads this
    {
      Moment(View(), chain, gasPrice)
    }

    constructor (config: Config, gasPrice: nat, chain: Chain, locals: set<Address>, clock: nat,
                 ghost content: nat -> Tx)
      requires 0 < clock
      ensures Valid() && Contiguous() && (forall a :: SettledAt(a)) && fresh(priced)
      ensures View() == Books(map[], map[], map[], map[], locals, map[], clock)
      ensures this.config == config && this.gasPrice == gasPrice && this.chain == chain && this.content == content
    {
      this.config, this.gasPrice, this.chain, this.content := config, gasPrice, chain, content;
      pending, queue, all, nonces, this.locals := map[], map[], map[], map[], locals;
      beats, this.clock := map[], clock;
      priced := new PricedList.Priced();
    }

    /** priced.Removed, after a transaction has left the lookup. */
    method Recount(ghost before: Lookup, ghost h: nat)
      requires PricesIn(priced, before, content) && all == before - {h}
      modifies priced
      ensures Listed() && (h in before && old(priced.Balanced(before)) ==> priced.Balanced(all))
    {
      if h in before {
        PricedList.OneLess(before, h);
      }
      PricesLeave(priced, before, content, h);
      priced.Removed(all);
    }

    /** all.Add and priced.Put. */
    method Enlist(tx: Tx)
      requires Listed() && tx.hash !in all && content(tx.hash) == tx
      modifies `all, priced
      ensures Listed() && all == old(all)[tx.hash := tx]
    {
      all := all[tx.hash := tx];
      assert all - {tx.hash} == old(all);
      priced.Put(all, tx);
      PricedList.SameElements(old(priced.items) + [tx], priced.items);
    }

    /** all.Remove for a batch of transactions that left their list. */
    method ForgetAll(out: set<Tx>, ghost loose: set<Tx>)
      requires Part(all, pending, queue, loose) && out <= loose && Listed()
      modifies `all, priced
      ensures Part(all, pending, queue, loose - out) && Loses(old(all), all, out) && Listed()
    {
      hide Part, Loses, PricesIn;
      LosesNone(all);
      var left := out;
      ghost var rest := loose;
      assert out - left == {};
      while left != {}
        invariant left <= out && rest == loose - (out - left) && Part(all, pending, queue, rest) && Listed()
        invariant Loses(old(all), all, out - left)
        decreases left
      {
        var tx :| tx in left;
        Forget(all, pending, queue, rest, tx);
        LoseNext(all, pending, queue, rest, old(all), out - left, tx);
        assert out - left + {tx} == out - (left - {tx});
        ghost var known := all;
        all := all - {tx.hash};
        Recount(known, tx.hash);
        left, rest := left - {tx}, rest - {tx};
      }
      assert rest == loose - out && out - left == out;
    }

    /** enqueueTx for transactions that were demoted. */
    method EnqueueAll(out: set<Tx>)
      requires Part(all, pending, queue, out)
      modifies `queue
      ensures Parted() && Joined(old(queue), queue, out)
      ensures forall b, n: nat :: Busy(queue, b, n) ==>
        Busy(old(queue), b, n) || exists tx :: tx in out && tx.sender == b && tx.nonce == n
    {
      hide Part, Joined;
      JoinedNone(queue);
      assert out - out == {};
      var left := out;
      while left != {}
        invariant left <= out && Part(all, pending, queue, left) && Joined(old(queue), queue, out - left)
        invariant forall b, n: nat :: Busy(queue, b, n) ==>
          Busy(old(queue), b, n) || exists tx :: tx in out && tx.sender == b && tx.nonce == n
        decreases left
      {
        var tx :| tx in left;
        var l := if tx.sender in queue then queue[tx.sender] else Empty(false);
        Enqueue(all, pending, queue, left, tx, l);
        ghost var before := queue;
        queue := queue[tx.sender := Added(l, tx)];
        JoinedMore(all, pending, before, left, tx, l, old(queue), out - left);
        assert out - left + {tx} == out - (left - {tx});
        left := left - {tx};
      }
      assert out - left == out;
    }

    /** Delete the pending list of an account that has become empty. */
    method PrunePending(a: Address, ghost loose: set<Tx>)
      requires Part(all, pending, queue, loose) && a in pending
      modifies `pending, `beats
      ensures Part(all, pending, queue, loose)
      ensures forall b, n :: Busy(pending, b, n) <==> Busy(old(pending), b, n)
      ensures pending == Pruned(old(pending), a) && (old(Alive()) ==> Alive())
      ensures beats == if old(pending)[a].items == map[] then old(beats) - {a} else old(beats)
    {
      if pending[a].items == map[] {
        DropEmpty(pending, a, true);
        pending := pending - {a};
        beats := beats - {a};
      }
    }

    method PruneQueue(a: Address, ghost loose: set<Tx>)
      requires Part(all, pending, queue, loose) && a in queue
      modifies `queue
      ensures Part(all, pending, queue, loose) && queue == Pruned(old(queue), a)
    {
      if queue[a].items == map[] {
        DropEmpty(queue, a, false);
        queue := queue - {a};
      }
    }

    /** removeTx: the transactions above a removed pending one go back to the queue. */
    method RemoveTx(h: nat)
      requires Parted()
      modifies `all, `pending, `queue, `nonces, `beats
      ensures Parted() && Unlisted(old(View()), View(), h, chain)
      ensures (old(Alive()) ==> Alive()) && (old(Contiguous()) ==> Contiguous())
      ensures forall b :: old(SettledAt(b)) ==> SettledAt(b)
    {
      hide Part, Beating, Contig, NonceOf, SettledIn;
      if h in all {
        var tx := all[h];
        HashOf(all, pending, queue, h);
        if tx.sender in pending && tx.nonce in pending[tx.sender].items {
          RemoveFromPending(tx);
        } else {
          RemoveFromQueue(tx);
          StillSettled(old(queue), queue, nonces, nonces, chain);
        }
      }
    }

    method RemoveFromPending(tx: Tx)
      requires Parted() && tx.hash in all && all[tx.hash] == tx && Busy(pending, tx.sender, tx.nonce)
      modifies `all, `pending, `queue, `nonces, `beats
      ensures Parted() && all == old(all) - {tx.hash} && CutFrom(old(View()), View(), tx.sender, tx.nonce, chain)
      ensures (old(Alive()) ==> Alive()) && (old(Contiguous()) ==> Contiguous())
      ensures forall b :: old(SettledAt(b)) ==> SettledAt(b)
    {
      var a, n := tx.sender, tx.nonce;
      hide Part, Beating, CutAt, Contig, NonceOf, SettledIn;
      var invalids := CutPending(tx);
      EnqueueAll(invalids);
      LowerNonce(a, n, old(pending));
      StillSettled(old(queue), queue, old(nonces), nonces, chain);
    }

    /** The pending list loses the transaction and everything above it. */
    method CutPending(tx: Tx) returns (invalids: set<Tx>)
      requires Parted() && tx.hash in all && all[tx.hash] == tx && Busy(pending, tx.sender, tx.nonce)
      modifies `all, `pending, `beats
      ensures Part(all, pending, queue, invalids) && all == old(all) - {tx.hash}
      ensures old(Alive()) ==> Alive()
      ensures invalids == Rest(From(old(pending)[tx.sender].items, tx.nonce + 1), map[])
      ensures var l := old(pending)[tx.sender]; var kept := TxList.Remove(l, tx.nonce);
        && pending == Pruned(old(pending)[tx.sender := kept], tx.sender)
        && beats == if kept.items == map[] then old(beats) - {tx.sender} else old(beats)
      ensures CutAt(old(pending), pending, tx.sender, tx.nonce)
      ensures forall t :: t in invalids ==> t.sender == tx.sender && t.nonce > tx.nonce
    {
      hide Part, Beating, CutAt, TxList.Remove, From;
      var a, n := tx.sender, tx.nonce;
      var l := pending[a];
      invalids := Rest(From(l.items, n + 1), map[]);
      PendingCut(all, pending, queue, tx);
      RemovePending(all, pending, queue, tx);
      all := all - {tx.hash};
      if Alive() {
        StillBeating(pending, a, TxList.Remove(l, n), beats, clock);
      }
      pending := pending[a := TxList.Remove(l, n)];
      ghost var cut := pending;
      PrunePending(a, invalids);
      SameCut(old(pending), cut, pending, a, n);
    }

    /** The pool nonce of the account falls back to the nonce of a dropped transaction. */
    method LowerNonce(a: Address, n: nat, ghost before: Lists)
      requires Busy(before, a, n) && CutAt(before, pending, a, n)
      modifies `nonces
      ensures old(Contig(before, nonces, chain)) ==> Contiguous()
      ensures nonces == if NonceOf(old(nonces), chain, a) > n then old(nonces)[a := n] else old(nonces)
      ensures Nonce(a) <= n && forall b :: NonceOf(nonces, chain, b) <= NonceOf(old(nonces), chain, b)
    {
      if Nonce(a) > n {
        nonces := nonces[a := n];
      }
      if old(Contig(before, nonces, chain)) {
        CutAligned(before, pending, old(nonces), nonces, chain, a, n);
      }
    }

    method RemoveFromQueue(tx: Tx)
      requires Parted() && tx.hash in all && all[tx.hash] == tx && !Busy(pending, tx.sender, tx.nonce)
      modifies `all, `queue
      ensures Parted() && all == old(all) - {tx.hash} && Busy(old(queue), tx.sender, tx.nonce)
      ensures queue == Pruned(old(queue)[tx.sender := Without(old(queue)[tx.sender], tx.nonce)], tx.sender)
    {
      var a, n := tx.sender, tx.nonce;
      assert Holds(queue, tx) && Busy(queue, a, n);
      EvictQueued(all, pending, queue, a, n);
      all := all - {tx.hash};
      queue := queue[a := Without(queue[a], n)];
      PruneQueue(a, {});
    }

    /** promoteTx for a transaction whose turn has come; its place is free, as no nonce is in both maps. */
    method PromoteTx(a: Address, n: nat)
      requires Parted() && Busy(queue, a, n)
      modifies `pending, `queue, `nonces, `beats, `clock
      ensures Parted() && (old(Alive()) ==> Alive())
      ensures queue == old(queue)[a := Without(old(queue)[a], n)] && nonces == old(nonces)[a := n + 1]
      ensures GrownTo(old(pending), pending, a, map[n := old(queue)[a].items[n]])
      ensures old(clock) <= clock && beats == old(beats)[a := clock]
    {
      hide Part, Beating, GrownTo;
      var l := if a in pending then pending[a] else Empty(true);
      var tx := queue[a].items[n];
      MoveUp(all, pending, queue, a, n, l);
      GrownOne(pending, a, l, tx);
      pending := pending[a := Added(l, tx)];
      queue := queue[a := Without(queue[a], n)];
      var now: nat :| clock <= now;
      clock, beats := now, beats[a := now];
      nonces := nonces[a := n + 1];
      if old(Alive()) {
        BeatsNow(old(pending), a, Added(l, tx), old(beats), old(clock), now);
      }
    }

    /** Move the executable run of an account from the queue to the pending list. */
    method PromoteReady(a: Address)
      requires Parted() && a in queue
      modifies `pending, `queue, `nonces, `beats, `clock
      ensures Parted() && (old(Alive()) ==> Alive()) && old(clock) <= clock
      ensures Stamped(old(beats), beats, a, SortedMap.AllReady(old(queue)[a].items, old(Nonce(a))), old(clock))
      ensures queue == old(queue)[a := old(queue)[a].(items := SortedMap.NotReady(old(queue)[a].items, old(Nonce(a))))]
      ensures GrownTo(old(pending), pending, a, SortedMap.AllReady(old(queue)[a].items, old(Nonce(a))))
      ensures Advanced(old(nonces), nonces, a, SortedMap.AllReady(old(queue)[a].items, old(Nonce(a))))
      ensures forall n :: n in queue[a].items ==> n > Nonce(a)
      ensures old(Contiguous()) && (forall n :: n in old(queue)[a].items ==> chain.nonce(a) <= n) ==> Contiguous()
    {
      hide Part, Beating, Contig, GrownBy, GrownTo, Advanced, Ready;
      hide SortedMap.AllReady, SortedMap.NotReady, SortedMap.Within, SortedMap.Outside;
      var l := queue[a];
      if l.items == map[] {
        NothingReady(pending, nonces, beats, a, l.items, Nonce(a), clock);
        return;
      }
      var least := SortedMap.Minimum(l.items.Keys);
      if least > Nonce(a) {
        NothingReady(pending, nonces, beats, a, l.items, Nonce(a), clock);
        return;
      }
      var next := PromoteRun(a, least);
      SortedMap.ReadyParts(l.items, old(Nonce(a)), least, next);
      RunTaken(old(nonces), a, l.items, least, next);
      RunStamped(old(beats), a, l.items, least, next, old(clock), clock);
      if old(Contiguous()) && forall n :: n in l.items ==> chain.nonce(a) <= n {
        FreePlaces(old(all), old(pending), old(queue), a, least, next);
        GrownBusy(old(pending), pending, a, l.items, least, next);
        RunAligned(old(pending), pending, old(nonces), chain, a, least, next);
      }
    }

    method PromoteRun(a: Address, least: nat) returns (next: nat)
      requires Parted() && a in queue && least in queue[a].items
      modifies `pending, `queue, `nonces, `beats, `clock
      ensures Parted() && (old(Alive()) ==> Alive())
      ensures old(clock) <= clock && beats == old(beats)[a := clock]
      ensures least < next && next !in old(queue)[a].items
      ensures forall n: nat :: least <= n < next ==> n in old(queue)[a].items
      ensures queue == old(queue)[a := old(queue)[a].(items := SortedMap.Outside(old(queue)[a].items, least, next))]
      ensures GrownTo(old(pending), pending, a, SortedMap.Within(old(queue)[a].items, least, next))
      ensures nonces == old(nonces)[a := next]
    {
      hide Part, Beating, GrownTo, SortedMap.Outside, SortedMap.Within, Without, From;
      var l := queue[a];
      PromoteTx(a, least);
      next := least + 1;
      RunStep(l, least, least);
      FirstOfRun(l.items, least);
      while next in l.items
        invariant least < next && forall n: nat :: least <= n < next ==> n in l.items
        invariant Parted() && queue == old(queue)[a := l.(items := SortedMap.Outside(l.items, least, next))]
        invariant GrownTo(old(pending), pending, a, SortedMap.Within(l.items, least, next))
        invariant nonces == old(nonces)[a := next] && (old(Alive()) ==> Alive())
        invariant old(clock) <= clock && beats == old(beats)[a := clock]
        decreases From(l.items, next).Keys
      {
        ghost var prev := pending;
        RunStep(l, least, next);
        PromoteTx(a, next);
        GrownMore(old(pending), prev, pending, a, l.items, least, next);
        FewerAhead(l.items, next);
        next := next + 1;
      }
    }

    /** list.Cap(list.Len() - 1) on a pending list: the highest nonce leaves the pool. */
    method DropTop(a: Address) returns (top: nat)
      requires Valid() && a in pending && pending[a].items != map[] && a !in locals
      modifies `all, `pending, `nonces, priced
      ensures Valid() && Greatest(old(pending)[a].items, top)
      ensures pending == old(pending)[a := Without(old(pending)[a], top)]
      ensures old(Contiguous()) ==> Contiguous()
      ensures OnlyLoses(old(all), all, chain, locals)
      ensures forall b :: old(SettledAt(b)) ==> SettledAt(b)
    {
      hide CutAt, Without, Part, PricesIn, Beating, Contig, NonceOf, SettledIn, OnlyLoses;
      top := TakeTop(a);
      TopCut(old(pending), a, top);
      LowerNonce(a, top, old(pending));
      StillSettled(queue, queue, old(nonces), nonces, chain);
    }

    method TakeTop(a: Address) returns (top: nat)
      requires Valid() && a in pending && pending[a].items != map[] && a !in locals
      modifies `all, `pending, priced
      ensures Valid() && Greatest(old(pending)[a].items, top)
      ensures pending == old(pending)[a := Without(old(pending)[a], top)]
      ensures OnlyLoses(old(all), all, chain, locals)
    {
      hide Without, Part, PricesIn, Beating, OnlyLoses;
      top := Maximum(pending[a].items.Keys);
      EvictPending(all, pending, queue, a, top);
      LoseRemote(all, pending, queue, a, top, chain, locals);
      all := all - {pending[a].items[top].hash};
      Recount(old(all), pending[a].items[top].hash);
      StillBeating(pending, a, Without(pending[a], top), beats, clock);
      pending := pending[a := Without(pending[a], top)];
    }

    /** One round: every offender loses its highest nonce. */
    method DropRound(offenders: seq<Address>, count: nat, ghost start: Lists, ghost e: nat) returns (left: nat)
      requires Valid() && 0 < e && pending == Level(start, locals, e) && count == Size(pending)
      requires Distinct(offenders) && forall a :: a in offenders <==> Reaching(start, locals, e, a)
      modifies `all, `pending, `nonces, priced
      ensures Valid() && pending == Level(start, locals, e - 1) && left == Size(pending)
      ensures old(Contiguous()) ==> Contiguous()
      ensures OnlyLoses(old(all), all, chain, locals)
      ensures forall b :: old(SettledAt(b)) ==> SettledAt(b)
    {
      hide Part, PricesIn, Beating, SettledIn, Contig, Level, Size, OnlyLoses;
      left := count;
      ghost var served: set<Address> := {};
      LosesNothing(all, chain, locals);
      RoundBegins(start, locals, e);
      for i := 0 to |offenders|
        invariant Valid() && left == Size(pending)
        invariant old(Contiguous()) ==> Contiguous()
        invariant OnlyLoses(old(all), all, chain, locals)
        invariant forall b :: old(SettledAt(b)) ==> SettledAt(b)
        invariant forall a :: a in served <==> a in offenders[..i]
        invariant pending == Halfway(start, locals, e, served)
      {
        var a := offenders[i];
        assert a in offenders && Reaching(start, locals, e, a) && a !in served;
        LowestSize(start[a].items, e);
        ghost var before, known := pending, all;
        var top := DropTop(a);
        LosesTrans(old(all), known, all, chain, locals);
        RoundStep(start, locals, e, served, a, top);
        SizeUpdate(before, a, pending[a]);
        FewerKeys(before[a].items, top);
        served := served + {a};
        left := left - 1;
      }
      RoundEnds(start, locals, e, served);
    }

    /** Rounds until the pool fits or the offenders are down to `floor`. */
    method LowerTo(offenders: seq<Address>, floor: nat, count: nat, ghost start: Lists, ghost e: nat)
      returns (left: nat, ghost level: nat)
      requires Valid() && pending == Level(start, locals, e) && count == Size(pending) && floor <= e
      requires Distinct(offenders) && 0 < |offenders| && Justified(start, locals, config.globalSlots, e)
      requires forall a :: a in offenders ==> Reaching(start, locals, e, a)
      requires forall a :: Over(start, locals, floor, a) ==> a in offenders
      modifies `all, `pending, `nonces, priced
      ensures Valid() && floor <= level <= e && pending == Level(start, locals, level) && left == Size(pending)
      ensures Justified(start, locals, config.globalSlots, level) && (left <= config.globalSlots || level == floor)
      ensures old(Contiguous()) ==> Contiguous()
      ensures OnlyLoses(old(all), all, chain, locals)
      ensures forall b :: old(SettledAt(b)) ==> SettledAt(b)
    {
      hide Part, PricesIn, Beating, SettledIn, Contig, Level, Size, OnlyLoses, Justified, Distinct, Over;
      LosesNothing(all, chain, locals);
      var last := offenders[|offenders| - 1];
      assert last in offenders;
      left, level := count, e;
      LevelSizes(start, locals, level, last);
      while left > config.globalSlots && |pending[last].items| > floor
        invariant Valid() && floor <= level <= e && pending == Level(start, locals, level) && left == Size(pending)
        invariant Justified(start, locals, config.globalSlots, level)
        invariant last in pending && |pending[last].items| == level
        invariant old(Contiguous()) ==> Contiguous()
        invariant OnlyLoses(old(all), all, chain, locals)
        invariant forall b :: old(SettledAt(b)) ==> SettledAt(b)
        decreases level
      {
        ghost var known := all;
        AllReaching(start, locals, floor, level, e, offenders);
        NowJustified(start, locals, config.globalSlots, level);
        left := DropRound(offenders, left, start, level);
        LosesTrans(old(all), known, all, chain, locals);
        level := level - 1;
        LevelSizes(start, locals, level, last);
      }
    }

    /** The fairness part of promoteExecutables. */
    method Equalize() returns (ghost level: nat)
      requires Valid()
      modifies `all, `pending, `nonces, priced
      ensures Valid() && pending == Level(old(pending), locals, level)
      ensures FairLevel(old(pending), locals, config.accountSlots, config.globalSlots, level)
      ensures Granted(old(pending), pending, locals, config.accountSlots)
      ensures Size(old(pending)) <= config.globalSlots ==> pending == old(pending) && nonces == old(nonces)
      ensures Size(pending) <= config.globalSlots || NobodyOver(pending, locals, config.accountSlots)
      ensures old(Contiguous()) ==> Contiguous()
      ensures OnlyLoses(old(all), all, chain, locals)
      ensures forall b :: old(SettledAt(b)) ==> SettledAt(b)
    {
      hide Part, PricesIn, Beating, SettledIn, Contig, Level, Size, OnlyLoses, FairLevel, Granted, NobodyOver;
      level := LevelPending();
      FairGrants(old(pending), locals, config.accountSlots, config.globalSlots, level);
    }

    method LevelPending() returns (ghost level: nat)
      requires Valid()
      modifies `all, `pending, `nonces, priced
      ensures Valid() && pending == Level(old(pending), locals, level)
      ensures FairLevel(old(pending), locals, config.accountSlots, config.globalSlots, level)
      ensures old(Contiguous()) ==> Contiguous()
      ensures Size(old(pending)) <= config.globalSlots ==> nonces == old(nonces)
      ensures OnlyLoses(old(all), all, chain, locals)
      ensures forall b :: old(SettledAt(b)) ==> SettledAt(b)
    {
      hide Part, PricesIn, Beating, SettledIn, Contig, Level, Size, OnlyLoses, Justified, FairLevel;
      LosesNothing(all, chain, locals);
      ghost var start := pending;
      var slots := config.accountSlots;
      var count := Count(pending);
      level := slots + count;
      forall a | a in start
        ensures |start[a].items| <= level
      {
        ListAtMostSize(start, a);
      }
      LevelWhole(start, locals, level);
      NeedsNothing(start, locals, config.globalSlots, level);
      if count <= config.globalSlots {
        NowFair(start, locals, slots, config.globalSlots, level);
        return;
      }
      var offenders;
      offenders, count, level := LevelOffenders(count, level);
      ghost var known := all;
      if count > config.globalSlots {
        assert forall a :: Over(start, locals, slots, a) ==> a in offenders;
        if offenders == [] {
          assert forall a :: Over(start, locals, level, a) ==> Over(start, locals, slots, a);
          LevelWhole(start, locals, slots);
          LevelWhole(start, locals, level);
          level := slots;
          NeedsNothing(start, locals, config.globalSlots, level);
        } else {
          count, level := LowerTo(offenders, slots, count, start, level);
          LosesTrans(old(all), known, all, chain, locals);
        }
      }
      NowFair(start, locals, slots, config.globalSlots, level);
    }

    /** Bring the offenders so far down to the length of the next one, if there are any. */
    method Meet(offenders: seq<Address>, threshold: nat, count: nat, ghost start: Lists, ghost e: nat)
      returns (left: nat, ghost level: nat)
      requires Valid() && pending == Level(start, locals, e) && count == Size(pending) && threshold <= e
      requires Leading(start, locals, e, offenders) && Justified(start, locals, config.globalSlots, e)
      requires forall a :: Over(start, locals, threshold, a) ==> a in offenders
      modifies `all, `pending, `nonces, priced
      ensures Valid() && threshold <= level <= e && pending == Level(start, locals, level) && left == Size(pending)
      ensures Justified(start, locals, config.globalSlots, level) && (left <= config.globalSlots || level == threshold)
      ensures old(Contiguous()) ==> Contiguous()
      ensures OnlyLoses(old(all), all, chain, locals)
      ensures forall b :: old(SettledAt(b)) ==> SettledAt(b)
    {
      hide Part, PricesIn, Beating, Contig, Level, Size, OnlyLoses, SettledIn;
      LosesNothing(all, chain, locals);
      if offenders != [] {
        left, level := LowerTo(offenders, threshold, count, start, e);
      } else {
        assert forall a :: Over(start, locals, e, a) ==> Over(start, locals, threshold, a);
        LevelWhole(start, locals, e);
        LevelWhole(start, locals, threshold);
        left, level := count, threshold;
      }
    }

    /** Pop the offenders, longest first, and level them down to each other. */
    method LevelOffenders(total: nat, ghost whole: nat) returns (offenders: seq<Address>, count: nat, ghost level: nat)
      requires Valid() && total == Size(pending) && config.accountSlots <= whole
      requires forall a :: a in pending ==> |pending[a].items| <= whole
      modifies `all, `pending, `nonces, priced
      ensures Valid() && config.accountSlots <= level && pending == Level(old(pending), locals, level)
      ensures count == Size(pending)
      ensures Justified(old(pending), locals, config.globalSlots, level)
      ensures count > config.globalSlots ==>
        && Leading(old(pending), locals, level, offenders)
        && Waiting(old(pending), locals, config.accountSlots, level, offenders, {})
      ensures old(Contiguous()) ==> Contiguous()
      ensures OnlyLoses(old(all), all, chain, locals)
      ensures forall b :: old(SettledAt(b)) ==> SettledAt(b)
    {
      hide Part, PricesIn, Beating, Contig, Level, Size, OnlyLoses, Justified, SettledIn, Leading, Waiting;
      LosesNothing(all, chain, locals);
      ghost var start := pending;
      var slots := config.accountSlots;
      var spammers := set a | a in pending && a !in locals && |pending[a].items| > slots;
      offenders, count, level := [], total, whole;
      LevelWhole(start, locals, level);
      NeedsNothing(start, locals, config.globalSlots, level);
      NobodyLeads(start, locals, slots, level, spammers);
      while count > config.globalSlots && spammers != {}
        invariant Valid() && slots <= level && pending == Level(start, locals, level) && count == Size(pending)
        invariant Justified(start, locals, config.globalSlots, level)
        invariant count > config.globalSlots ==> Leading(start, locals, level, offenders)
        invariant Waiting(start, locals, slots, level, offenders, spammers)
        invariant old(Contiguous()) ==> Contiguous()
        invariant OnlyLoses(old(all), all, chain, locals)
        invariant forall b :: old(SettledAt(b)) ==> SettledAt(b)
        decreases spammers
      {
        WholeLists(start, locals, slots, level, offenders, spammers);
        var offender := Longest(spammers, pending);
        var threshold := |pending[offender].items|;
        ghost var known, before := all, level;
        NextWaiting(start, locals, slots, level, offenders, spammers, offender);
        count, level := Meet(offenders, threshold, count, start, level);
        LosesTrans(old(all), known, all, chain, locals);
        NowLeading(start, locals, slots, before, level, offenders, spammers, offender);
        spammers := spammers - {offender};
        offenders := offenders + [offender];
      }
    }

    /** A queued list loses transactions, and the pool forgets them. */
    method ShrinkQueue(a: Address, kept: List)
      requires Valid() && a in queue && Sub(kept, queue[a])
      modifies `all, `queue, priced
      ensures Valid() && queue == old(queue)[a := kept] && Loses(old(all), all, Rest(old(queue)[a].items, kept.items))
    {
      hide Part, PricesIn, Beating, Sub;
      var out := Rest(queue[a].items, kept.items);
      TakeQueue(all, pending, queue, {}, a, kept);
      assert {} + out == out && out - out == {};
      queue := queue[a := kept];
      ForgetAll(out, out);
    }

    /** Old transactions and, outside Quorum, unpayable ones leave the queue and the pool. */
    method DropUnexecutable(a: Address)
      requires Valid() && a in queue
      modifies `all, `queue, priced
      ensures Valid() && queue == old(queue)[a := Executables(old(queue)[a], chain, config, a)]
      ensures LosesSpent(old(all), all, chain)
    {
      hide Part, PricesIn, Beating, Loses, Sub;
      FiledList(all, pending, queue, a);
      SpentBelow(queue[a], chain, a);
      ShrinkQueue(a, Forward(queue[a], chain.nonce(a)));
      ghost var known := all;
      SpentLost(old(all), all, Rest(old(queue)[a].items, queue[a].items), chain);
      if !config.quorum {
        FiledList(all, pending, queue, a);
        SpentOver(queue[a], chain, a);
        ghost var l := queue[a];
        ShrinkQueue(a, Filter(queue[a], chain.balance(a), chain.maxGas));
        SpentLost(known, all, Rest(l.items, queue[a].items), chain);
        SpentTrans(old(all), known, all, chain);
      }
    }

    /** The queued list of a remote account is cut to its limit; an empty one is deleted. */
    method LimitQueue(a: Address)
      requires Valid() && a in queue
      modifies `all, `queue, priced
      ensures Valid() && queue == Pruned(old(queue)[a := Limited(old(queue)[a], config, locals, a)], a)
      ensures OnlyLoses(old(all), all, chain, locals)
    {
      hide Part, PricesIn, Beating, Loses, OnlyLoses;
      LosesNothing(all, chain, locals);
      if a !in locals {
        FiledList(all, pending, queue, a);
        ShrinkQueue(a, Cap(queue[a], config.accountQueue));
        RemoteLost(old(all), all, Rest(old(queue)[a].items, queue[a].items), chain, locals, a);
      }
      PruneQueue(a, {});
    }

    /** promoteExecutables for one account. */
    method PromoteAccount(a: Address)
      requires Valid()
      modifies `all, `pending, `queue, `nonces, `beats, `clock, priced
      ensures Valid() && SettledAt(a)
      ensures old(Contiguous()) ==> Contiguous()
      ensures forall b :: old(SettledAt(b)) ==> SettledAt(b)
      ensures Promoted(old(View()), View(), chain, config, locals, {a})
      ensures a in old(queue) ==> Sifted(old(View()), View(), chain, config, locals, a)
      ensures OnlyLoses(old(all), all, chain, locals)
    {
      hide Part, PricesIn, Beating, Contig, OnlyLoses, LosesSpent, Executables, Limited;
      hide SettledIn, Promoted, GrownTo, Advanced, Pruned, Sifted;
      hide SortedMap.AllReady, SortedMap.NotReady;
      LosesNothing(all, chain, locals);
      if a !in queue {
        IdleSettled(queue, nonces, chain);
        NobodyPromoted(View(), chain, config, locals, a);
        return;
      }
      ExecutablesAhead(queue[a], chain, config, a);
      DropUnexecutable(a);
      SpentOnly(old(all), all, chain, locals);
      PromoteReady(a);
      ghost var known, waiting := all, queue;
      LimitQueue(a);
      LosesTrans(old(all), known, all, chain, locals);
      PrunedTwice(old(queue), a, Executables(old(queue)[a], chain, config, a), waiting[a]);
      PrunedTwice(old(queue), a, waiting[a], Limited(waiting[a], config, locals, a));
      PromotedOne(old(View()), View(), chain, config, locals, a);
      PromotedSiftsOne(old(View()), View(), chain, config, locals, a);
      PromotionSettled(old(queue), waiting, queue, old(nonces), nonces, chain, config, locals, a);
    }

    /** The first part of promoteExecutables, over all accounts. */
    method PromoteAll(accounts: set<Address>)
      requires Valid()
      modifies `all, `pending, `queue, `nonces, `beats, `clock, priced
      ensures Valid() && forall a :: a in accounts || old(SettledAt(a)) ==> SettledAt(a)
      ensures old(Contiguous()) ==> Contiguous()
      ensures OnlyLoses(old(all), all, chain, locals)
      ensures Promoted(old(View()), View(), chain, config, locals, accounts)
      ensures AllSifted(old(View()), View(), chain, config, locals, accounts)
    {
      hide Part, PricesIn, Beating, Contig, SettledIn, OnlyLoses, Promoted, AllSifted, Sifted;
      LosesNothing(all, chain, locals);
      PromotedNone(View(), chain, config, locals);
      var left := accounts;
      assert accounts - left == {};
      while left != {}
        invariant left <= accounts && Valid()
        invariant forall a :: (a in accounts && a !in left) || old(SettledAt(a)) ==> SettledAt(a)
        invariant old(Contiguous()) ==> Contiguous()
        invariant OnlyLoses(old(all), all, chain, locals)
        invariant Promoted(old(View()), View(), chain, config, locals, accounts - left)
        decreases left
      {
        var a :| a in left;
        ghost var before, served := View(), accounts - left;
        PromoteAccount(a);
        LosesTrans(old(all), before.all, all, chain, locals);
        PromotedMore(old(View()), before, View(), chain, config, locals, served, a);
        left := left - {a};
        assert accounts - left == served + {a};
      }
      assert accounts - left == accounts;
      PromotedAllSifts(old(View()), View(), chain, config, locals, accounts);
    }

    /** promoteExecutables: promote, then bring pending and queue within their limits. */
    method PromoteExecutables(accounts: set<Address>) returns (ghost cull: Cull)
      requires Valid()
      modifies `all, `pending, `queue, `nonces, `beats, `clock, priced
      ensures Valid() && forall a :: a in accounts || old(SettledAt(a)) ==> SettledAt(a)
      ensures old(Contiguous()) ==> Contiguous()
      ensures Reprocessed(old(View()), View(), chain, config, accounts, cull)
    {
      hide Part, PricesIn, Beating, Contig, SettledIn, OnlyLoses, Promoted, Culled, Excused, AllSifted;
      hide FairLevel, Level, Size, Granted, NobodyOver, Truncated, BeatOf, SameAt, ItemsOf;
      PromoteAll(accounts);
      ghost var promoted := View();
      GainsNothing(old(all), all, chain, locals);
      ghost var level := Equalize();
      LosesTrans(old(all), promoted.all, all, chain, locals);
      ghost var leveled := all;
      Truncate();
      LosesTrans(old(all), leveled, all, chain, locals);
      GainsNothing(old(all), all, chain, locals);
      cull := Cull(level, promoted);
      CulledNow(old(View()), View(), chain, config, locals, accounts, cull);
      CulledLoses(old(View()), View(), chain, config, locals, accounts, cull);
    }

    /** Drop the highest nonces of a queued list. */
    method RemoveHighest(a: Address, k: nat)
      requires Valid() && a in queue && a !in locals && 0 < k <= |queue[a].items|
      modifies `all, `queue, priced
      ensures Valid() && Size(queue) == old(Size(queue)) - k
      ensures OnlyLoses(old(all), all, chain, locals)
      ensures queue == Pruned(old(queue)[a := Cap(old(queue)[a], |old(queue)[a].items| - k)], a)
    {
      hide Part, PricesIn, Beating, SettledIn, Size, Lowest, Pruned, Cap, OnlyLoses;
      LosesNothing(all, chain, locals);
      var l, size := queue[a], |queue[a].items|;
      KeepsAll(l.items, size);
      for i := 0 to k
        invariant Valid() && queue == (if i == 0 then old(queue) else Pruned(old(queue)[a := Cap(l, size - i)], a))
        invariant OnlyLoses(old(all), all, chain, locals)
      {
        ShortenedAgain(old(queue), a, size - i);
        ghost var known := all;
        RemoveTop(a, l, size - i);
        LosesTrans(old(all), known, all, chain, locals);
      }
      ShortenedSize(old(queue), a, k);
    }

    /** removeTx for the highest nonce of a queued list. */
    method RemoveTop(a: Address, ghost l: List, ghost k: nat)
      requires Valid() && a in queue && a !in locals && queue[a] == Cap(l, k) && 0 < k <= |l.items|
      modifies `all, `queue, priced
      ensures Valid() && queue == Pruned(old(queue)[a := Cap(l, k - 1)], a) && OnlyLoses(old(all), all, chain, locals)
    {
      hide Part, PricesIn, Beating;
      LowestSize(l.items, k);
      var top := Maximum(queue[a].items.Keys);
      QueuedOnly(all, pending, queue, a, top);
      ghost var h := queue[a].items[top].hash;
      RemoveFromQueue(queue[a].items[top]);
      Recount(old(all), h);
      LowestNext(l.items, k, top);
      assert Without(Cap(l, k), top) == Cap(l, k - 1);
    }

    /** The end of promoteExecutables: the accounts with the latest heartbeats lose their highest nonces until
        the queue fits; locals are spared. */
    method Truncate()
      requires Valid()
      modifies `all, `queue, priced
      ensures Valid() && forall a :: old(SettledAt(a)) ==> SettledAt(a)
      ensures OnlyLoses(old(all), all, chain, locals)
      ensures Truncated(old(queue), queue, config, locals, beats)
      ensures forall a, b ::
        a in old(queue) && b in old(queue) && a !in locals && b !in locals && ItemsOf(queue, b) != map[] ==>
        BeatOf(beats, a) < BeatOf(beats, b) ==> SameAt(old(queue), queue, a)
    {
      hide Part, PricesIn, Beating, Size, SettledIn, NonceOf, OnlyLoses, Shortened, LatestFirst, Remaining, Cutting;
      LosesNothing(all, chain, locals);
      var queued := Count(queue);
      ghost var start := queue;
      WholeShortened(start, locals);
      NobodyCut(start, locals, beats, start.Keys);
      if queued > config.globalQueue {
        var drop: nat := queued - config.globalQueue;
        var addresses := set a | a in queue && a !in locals;
        CuttingBegins(start, locals, beats, addresses);
        while drop > 0 && addresses != {}
          invariant Valid() && Size(queue) == config.globalQueue + drop && OnlyLoses(old(all), all, chain, locals)
          invariant Cutting(start, queue, locals, beats, addresses)
          invariant drop > 0 ==> Remaining(queue, locals, addresses)
          decreases addresses
        {
          var a := Latest(addresses, beats);
          ghost var known := all;
          drop := CutAccount(a, drop, start, addresses);
          LosesTrans(old(all), known, all, chain, locals);
          addresses := addresses - {a};
        }
        CuttingEnds(start, queue, locals, beats, addresses);
      }
      LatestCut(start, queue, locals, beats);
      Shorter(start, queue, locals);
      StillSettled(start, queue, nonces, nonces, chain);
    }

    /** One account loses its highest nonces, all of them if there are no more than still to drop. */
    method CutAccount(a: Address, drop: nat, ghost start: Lists, ghost addresses: set<Address>) returns (left: nat)
      requires Valid() && a in addresses && 0 < drop && Cutting(start, queue, locals, beats, addresses)
      requires Remaining(queue, locals, addresses)
      requires forall b :: b in addresses ==> BeatOf(beats, b) <= BeatOf(beats, a)
      modifies `all, `queue, priced
      ensures Valid() && Cutting(start, queue, locals, beats, addresses - {a}) && left <= drop
      ensures Size(queue) - left == old(Size(queue)) - drop && (left > 0 ==> Remaining(queue, locals, addresses - {a}))
      ensures OnlyLoses(old(all), all, chain, locals)
    {
      hide Part, PricesIn, Beating, Size, OnlyLoses, Cutting, Pruned, Lowest, Remaining;
      LosesNothing(all, chain, locals);
      left := drop;
      CuttingHolds(start, queue, locals, beats, addresses, a);
      var size := |queue[a].items|;
      EmptyRemains(queue, locals, addresses, a);
      if size == 0 {
        CuttingSkips(start, queue, locals, beats, addresses, a);
        return;
      }
      var k := if size <= drop then size else drop;
      LowestSize(queue[a].items, size - k);
      CuttingStep(start, queue, locals, beats, addresses, a, size - k);
      RemoveHighest(a, k);
      left := drop - k;
    }

    method RemoveAll(drop: seq<Tx>)
      requires Parted()
      modifies `all, `pending, `queue, `nonces, `beats
      ensures Parted() && all == old(all) - PricedList.Hashes(drop) && AllUnlisted(old(View()), View(), drop, chain)
      ensures (old(Alive()) ==> Alive()) && (old(Contiguous()) ==> Contiguous())
      ensures forall b :: old(SettledAt(b)) ==> SettledAt(b)
    {
      hide Part, Contig, SettledIn, Beating, Unlisted;
      for i := 0 to |drop|
        invariant Parted() && all == old(all) - PricedList.Hashes(drop[..i])
        invariant AllUnlisted(old(View()), View(), drop[..i], chain)
        invariant (old(Alive()) ==> Alive()) && (old(Contiguous()) ==> Contiguous())
        invariant forall b :: old(SettledAt(b)) ==> SettledAt(b)
      {
        ghost var before := View();
        RemoveTx(drop[i].hash);
        UnlistedAll(before, View(), drop[i].hash, chain);
        UnlistedMore(old(View()), before, View(), drop, i, chain);
        MoreHashes(drop, i);
      }
      assert drop[..|drop|] == drop;
    }

    /** add. */
    method Add(o: Offer) returns (r: Outcome)
      requires Valid() && content(o.tx.hash) == o.tx
      modifies this, priced
      ensures Valid() && chain == old(chain) && gasPrice == old(gasPrice)
      ensures old(Contiguous()) ==> Contiguous()
      ensures forall b :: old(SettledAt(b)) && (b == o.tx.sender ==> r != Accepted(false)) ==> SettledAt(b)
      ensures AddStep(old(View()), View(), o, r, chain, config, gasPrice)
      ensures r.Accepted? ==>
        o.sound && o.tx.hash !in old(all) && !Spent(o.tx, chain) && PricedRight(o, config, gasPrice, old(locals))
      ensures r.Accepted? ==>
        if |old(all)| < config.globalSlots + config.globalQueue then !Contested(old(all), o.tx, config.priceBump)
        else config.quorum || o.local || !PricedList.Undercuts(old(all), old(locals), o.tx)
      ensures r.Rejected? ==>
        || !o.sound || o.tx.hash in old(all) || Spent(o.tx, chain) || !PricedRight(o, config, gasPrice, old(locals))
        || (|old(all)| >= config.globalSlots + config.globalQueue &&
            !config.quorum && !o.local && PricedList.Undercuts(old(all), old(locals), o.tx))
        || Contested(old(all), o.tx, config.priceBump)
      ensures old(locals) <= locals <= old(locals) + {o.tx.sender}
      ensures r == Accepted(false) && o.local ==> o.tx.sender in locals
    {
      hide AllUnlisted, Part, Contig, SettledIn, AddStep, MakesRoom, Seated, Seat, Beating, Acceptable, TooCheap;
      hide Contested, PricedRight, Spent, PricesIn, PricedList.Hashes, PricedList.Undercuts;
      var tx := o.tx;
      AcceptableIs(o, chain, config, gasPrice, locals);
      if tx.hash in all || !Acceptable(o, chain, config, gasPrice, locals) {
        AddRefused(View(), o, chain, config, gasPrice);
        return Rejected;
      }
      ghost var drop := [];
      if Full(all, config) {
        var underpriced := Underpriced(o);
        if underpriced {
          AddRefused(View(), o, chain, config, gasPrice);
          return Rejected;
        }
        drop := MakeRoom();
      } else {
        RoomKept(View(), config, chain);
      }
      ghost var room := View();
      r := Place(o);
      SeatedUnless(room.all, all, tx, r, config);
      if r.Rejected? {
        ContestedMore(room.all, old(all), tx, config.priceBump);
      }
      AddTaken(old(View()), drop, room, View(), o, r, chain, config, gasPrice);
    }

    method Underpriced(o: Offer) returns (r: bool)
      requires Valid()
      modifies priced
      ensures Valid() && r == TooCheap(all, o, config, locals)
      ensures r <==> !config.quorum && !o.local && PricedList.Undercuts(all, locals, o.tx)
    {
      hide Part, Beating;
      if config.quorum || o.local {
        return false;
      }
      r := priced.Underpriced(all, locals, o.tx);
    }

    /** The cheapest remote transactions of a full pool leave. */
    method MakeRoom() returns (drop: seq<Tx>)
      requires Valid() && Full(all, config)
      modifies `all, `pending, `queue, `nonces, `beats, priced
      ensures Valid() && all == old(all) - PricedList.Hashes(drop) && MakesRoom(old(all), locals, drop, config)
      ensures |drop| + config.globalSlots + config.globalQueue == |old(all)| + 1 ||
        forall h :: h in all ==> all[h].sender in locals
      ensures forall tx :: tx in drop ==> tx.sender !in locals
      ensures AllUnlisted(old(View()), View(), drop, chain)
      ensures old(Contiguous()) ==> Contiguous()
      ensures forall b :: old(SettledAt(b)) ==> SettledAt(b)
    {
      hide Part, Contig, SettledIn, Beating, AllUnlisted, PricedList.Cheapest;
      ghost var known, count := all, |all| - (config.globalSlots + config.globalQueue - 1);
      drop := priced.Discard(all, locals, |all| - (config.globalSlots + config.globalQueue - 1));
      RemoveAll(drop);
      PricedList.OnlyLocalsLeft(known, locals, count, drop);
    }

    /** The transaction replaces a pending one, or goes to the queue, perhaps in the place of another. */
    method Place(o: Offer) returns (r: Outcome)
      requires Valid() && o.tx.hash !in all && content(o.tx.hash) == o.tx
      modifies `all, `pending, `queue, `locals, priced
      ensures Valid() && (old(Contiguous()) ==> Contiguous())
      ensures forall b :: old(SettledAt(b)) && (b == o.tx.sender ==> r != Accepted(false)) ==> SettledAt(b)
      ensures View() == Seat(old(View()), o, config) && Seated(old(all), all, o.tx, r, config)
      ensures old(locals) <= locals <= old(locals) + {o.tx.sender}
      ensures r == Accepted(false) && o.local ==> o.tx.sender in locals
    {
      hide Part, Contig, SettledIn, Blocked, Seated, Beating, PricesIn;
      var tx := o.tx;
      ghost var displaced: set<nat> := {};
      PlaceHolder(all, pending, queue, tx, config);
      if tx.sender in pending && tx.nonce in pending[tx.sender].items {
        displaced := {pending[tx.sender].items[tx.nonce].hash};
        r := ReplaceTx(tx);
      } else {
        if Busy(queue, tx.sender, tx.nonce) {
          displaced := {queue[tx.sender].items[tx.nonce].hash};
        }
        r := EnqueueTx(tx);
        if r.Accepted? && o.local {
          locals := locals + {tx.sender};
        }
      }
      SeatedNow(old(all), all, old(pending), old(queue), displaced, tx, r, config);
    }

    /** A replacement for a pending transaction. */
    method ReplaceTx(tx: Tx) returns (r: Outcome)
      requires Valid() && tx.hash !in all && content(tx.hash) == tx && Busy(pending, tx.sender, tx.nonce)
      modifies `all, `pending, priced
      ensures Valid() && r != Accepted(false) && (old(Contiguous()) ==> Contiguous())
      ensures r.Accepted? <==> Accepts(old(pending)[tx.sender], tx, config.priceBump)
      ensures r.Accepted? ==> all == (old(all) - {old(pending)[tx.sender].items[tx.nonce].hash})[tx.hash := tx]
      ensures r.Accepted? ==> pending == old(pending)[tx.sender := Added(old(pending)[tx.sender], tx)]
      ensures r.Rejected? ==> all == old(all) && pending == old(pending)
    {
      hide Part, PricesIn, Contig, Beating;
      var l := pending[tx.sender];
      if !Accepts(l, tx, config.priceBump) {
        return Rejected;
      }
      ReplacePending(all, pending, queue, tx);
      all := all - {l.items[tx.nonce].hash};
      Recount(old(all), l.items[tx.nonce].hash);
      Enlist(tx);
      pending := pending[tx.sender := Added(l, tx)];
      StillBeating(old(pending), tx.sender, Added(l, tx), beats, clock);
      if old(Contiguous()) {
        SameAligned(old(pending), pending, nonces, chain);
      }
      r := Accepted(true);
    }

    /** enqueueTx for a new transaction. */
    method EnqueueTx(tx: Tx) returns (r: Outcome)
      requires Valid() && tx.hash !in all && content(tx.hash) == tx && !Busy(pending, tx.sender, tx.nonce)
      modifies `all, `queue, priced
      ensures Valid()
      ensures forall b :: old(SettledAt(b)) && (b == tx.sender ==> r != Accepted(false)) ==> SettledAt(b)
      ensures r.Accepted? <==> Accepts(ListOf(old(queue), tx.sender), tx, config.priceBump)
      ensures r.Accepted? ==> (r.replaced <==> Busy(old(queue), tx.sender, tx.nonce))
      ensures r.Accepted? ==>
        all == (if r.replaced then old(all) - {old(queue)[tx.sender].items[tx.nonce].hash} else old(all))[tx.hash := tx]
      ensures r.Accepted? ==> queue == old(queue)[tx.sender := Added(ListOf(old(queue), tx.sender), tx)]
      ensures r.Rejected? ==> all == old(all) && queue == old(queue)
    {
      hide Part, PricesIn, Beating;
      var l := ListOf(queue, tx.sender);
      if !Accepts(l, tx, config.priceBump) {
        return Rejected;
      }
      EnqueueNew(all, pending, queue, tx, l);
      if tx.nonce in l.items {
        all := all - {l.items[tx.nonce].hash};
        Recount(old(all), l.items[tx.nonce].hash);
      }
      Enlist(tx);
      queue := queue[tx.sender := Added(l, tx)];
      r := Accepted(tx.nonce in l.items);
      EnqueuedSettled(old(queue), queue, nonces, chain, tx);
    }

    /** addTxsLocked; addTx is the batch of one. */
    method AddBatch(batch: seq<Offer>) returns (results: seq<Outcome>, ghost log: BatchLog)
      requires Valid() && Genuine(batch, content)
      modifies this, priced
      ensures Valid() && chain == old(chain) && gasPrice == old(gasPrice)
      ensures old(Contiguous()) ==> Contiguous()
      ensures forall b :: old(SettledAt(b)) || b in log.dirty ==> SettledAt(b)
      ensures BatchDone(old(View()), View(), batch, results, chain, config, gasPrice, log)
    {
      hide Part, Contig, SettledIn, AddStep, PricesIn, Beating, NewSenders, Reprocessed;
      var dirty: set<Address> := {};
      ghost var trace := [View()];
      results := [];
      NoSenders();
      for i := 0 to |batch|
        invariant Valid() && chain == old(chain) && gasPrice == old(gasPrice) && (old(Contiguous()) ==> Contiguous())
        invariant forall b :: old(SettledAt(b)) && b !in dirty ==> SettledAt(b)
        invariant AddSteps(trace, batch[..i], results, chain, config, gasPrice)
        invariant trace[0] == old(View()) && trace[i] == View() && dirty == NewSenders(batch[..i], results)
      {
        var r := Add(batch[i]);
        AddMore(trace, batch[..i], results, chain, config, gasPrice, View(), batch[i], r);
        NewSendersMore(batch[..i], results, batch[i], r);
        assert batch[..i + 1] == batch[..i] + [batch[i]];
        results, trace := results + [r], trace + [View()];
        if r == Accepted(false) {
          dirty := dirty + {batch[i].tx.sender};
        }
      }
      assert batch[..|batch|] == batch;
      log := BatchLog(trace, dirty, Cull(0, View()));
      if dirty != {} {
        ghost var cull := PromoteExecutables(dirty);
        log := BatchLog(trace, dirty, cull);
      }
      BatchEnds(old(View()), View(), batch, results, chain, config, gasPrice, log);
    }

    /** demoteUnexecutables for one account. */
    method DemoteAccount(a: Address)
      requires Valid() && a in pending
      modifies `all, `pending, `queue, `beats, priced
      ensures Valid() && pending == Pruned(old(pending)[a := Demoted(old(pending)[a], chain, a)], a)
      ensures Joined(old(queue), queue, Postponed(old(pending)[a], chain, a))
      ensures LosesSpent(old(all), all, chain)
    {
      hide Part, PricesIn, Beating, Forward, Filter, LosesSpent, Joined, Postponed, Stranded;
      ghost var l, ahead := pending[a], Forward(pending[a], chain.nonce(a));
      PendingList(all, pending, queue, a);
      PostponedParts(l, chain, a);
      PrunedTwice(pending, a, ahead, Filter(ahead, chain.balance(a), chain.maxGas));
      DropOld(a);
      ghost var known, waiting := all, queue;
      DropUnpayable(a);
      SpentTrans(old(all), known, all, chain);
      JoinedStill(old(queue), waiting, queue, Stranded(ahead, chain, a));
      if pending[a].items != map[] && chain.nonce(a) !in pending[a].items {
        ghost var before, kept := queue, pending[a];
        PrunedTwice(old(pending), a, kept, Cap(kept, 0));
        PostponeAll(a);
        JoinedTrans(old(queue), before, queue, Stranded(ahead, chain, a), Rest(kept.items, map[]));
      }
      PrunePending(a, {});
    }

    method DropOld(a: Address)
      requires Valid() && a in pending
      modifies `all, `pending, `queue, priced
      ensures Valid() && pending == old(pending)[a := Forward(old(pending)[a], chain.nonce(a))]
      ensures Joined(old(queue), queue, {}) && LosesSpent(old(all), all, chain)
    {
      hide Part, PricesIn, Beating, Sub, Forward, LosesSpent, Loses, Joined;
      ghost var l := pending[a];
      PendingList(all, pending, queue, a);
      SpentBelow(l, chain, a);
      var kept := Forward(pending[a], chain.nonce(a));
      ShrinkPending(a, kept, chain.balance(a), chain.maxGas, true);
      assert Rest(l.items, kept.items) - Dropped(l, kept, chain.balance(a), chain.maxGas, true) == {};
      SpentLost(old(all), all, Dropped(l, kept, chain.balance(a), chain.maxGas, true), chain);
    }

    method DropUnpayable(a: Address)
      requires Valid() && a in pending
      modifies `all, `pending, `queue, priced
      ensures Valid() && pending == old(pending)[a := Filter(old(pending)[a], chain.balance(a), chain.maxGas)]
      ensures Joined(old(queue), queue, Stranded(old(pending)[a], chain, a)) && LosesSpent(old(all), all, chain)
    {
      hide Part, PricesIn, Beating, Sub, Filter, LosesSpent, Loses, Joined;
      ghost var l := pending[a];
      PendingList(all, pending, queue, a);
      FilterSub(l, chain.balance(a), chain.maxGas);
      var kept := Filter(pending[a], chain.balance(a), chain.maxGas);
      ShrinkPending(a, kept, chain.balance(a), chain.maxGas, false);
      ghost var drops := Dropped(l, kept, chain.balance(a), chain.maxGas, false);
      assert Rest(l.items, kept.items) - drops == Stranded(l, chain, a);
      UnpayableSpent(l, kept, chain, a);
      SpentLost(old(all), all, Dropped(l, kept, chain.balance(a), chain.maxGas, false), chain);
    }

    /** A pending list loses transactions: they are forgotten if that is asked for or if they are
        unpayable, and otherwise go back to the queue. */
    method ShrinkPending(a: Address, kept: List, costLimit: nat, gasLimit: nat, forget: bool)
      requires Valid() && a in pending && Sub(kept, pending[a])
      modifies `all, `pending, `queue, priced
      ensures Valid() && pending == old(pending)[a := kept]
      ensures Loses(old(all), all, Dropped(old(pending)[a], kept, costLimit, gasLimit, forget))
      ensures var l := old(pending)[a];
        Joined(old(queue), queue, Rest(l.items, kept.items) - Dropped(l, kept, costLimit, gasLimit, forget))
    {
      hide Part, PricesIn, Beating, Sub, Loses, Joined;
      var out := Rest(pending[a].items, kept.items);
      var drops := Dropped(pending[a], kept, costLimit, gasLimit, forget);
      TakePending(all, pending, queue, {}, a, kept);
      assert {} + out == out;
      StillBeating(pending, a, kept, beats, clock);
      pending := pending[a := kept];
      ForgetAll(drops, out);
      EnqueueAll(out - drops);
    }

    method PostponeAll(a: Address)
      requires Valid() && a in pending
      modifies `pending, `queue
      ensures Valid() && pending == old(pending)[a := Cap(old(pending)[a], 0)]
      ensures Joined(old(queue), queue, Rest(old(pending)[a].items, map[]))
    {
      hide Part, PricesIn, Beating, Joined;
      var out := Rest(pending[a].items, map[]);
      PendingList(all, pending, queue, a);
      assert Cap(pending[a], 0).items == map[];
      TakePending(all, pending, queue, {}, a, Cap(pending[a], 0));
      assert {} + out == out;
      StillBeating(pending, a, Cap(pending[a], 0), beats, clock);
      pending := pending[a := Cap(pending[a], 0)];
      EnqueueAll(out);
    }

    /** demoteUnexecutables. */
    method Demote()
      requires Valid()
      modifies `all, `pending, `queue, `beats, priced
      ensures Valid() && AllDemoted(old(pending), pending, chain, {})
      ensures Requeued(old(pending), old(queue), queue, chain, {})
      ensures Resorted(old(pending), old(queue), pending, queue, chain)
      ensures LosesSpent(old(all), all, chain)
    {
      hide Part, PricesIn, Beating, LosesSpent, Demoted, Pruned, AllDemoted, Requeued, Resorted;
      SpentNothing(all, chain);
      DemotedNone(pending, queue, chain);
      var left := pending.Keys;
      while left != {}
        invariant Valid() && left <= pending.Keys
        invariant AllDemoted(old(pending), pending, chain, left)
        invariant Requeued(old(pending), old(queue), queue, chain, left)
        invariant LosesSpent(old(all), all, chain)
        decreases left
      {
        var a :| a in left;
        ghost var before := View();
        DemoteAccount(a);
        SpentTrans(old(all), before.all, all, chain);
        PendingList(before.all, before.pending, before.queue, a);
        DemotedMore(old(pending), before.pending, pending, chain, left, a);
        RequeuedMore(old(pending), before.pending, old(queue), before.queue, queue, chain, left, a);
        left := left - {a};
      }
      DemotedSorts(old(all), old(pending), old(queue), pending, queue, chain);
    }

    /** Set every pool nonce to one above the last pending nonce. */
    method Renumber()
      requires forall a :: a in pending ==> pending[a].items != map[]
      modifies `nonces
      ensures Numbered(pending, old(nonces), nonces)
    {
      var left := pending.Keys;
      while left != {}
        invariant left <= pending.Keys
        invariant forall a :: a in left || a !in pending ==> SameAt(old(nonces), nonces, a)
        invariant forall a :: a in pending && a !in left ==> EndsAt(pending[a].items, nonces, a)
        decreases left
      {
        var a :| a in left;
        var top := Maximum(pending[a].items.Keys);
        nonces := nonces[a := top + 1];
        left := left - {a};
      }
    }

    /** reset, from the new head state on. Of a contiguous pool with room, the pool nonces are right again exactly
        if no account with reinjected transactions is harmed. */
    method Reset(head: Chain, reinject: seq<Offer>) returns (ghost results: seq<Outcome>, ghost log: ResetLog)
      requires Valid() && Genuine(reinject, content)
      modifies this, priced
      ensures Valid() && chain == head && gasPrice == old(gasPrice) && forall b :: SettledAt(b)
      ensures ResetDone(old(View()).(nonces := map[]), View(), reinject, results, head, config, gasPrice, log)
      ensures (forall a :: Recovers(log.injected, head, a)) ==> Contiguous()
      ensures old(Contiguous()) && |old(all)| + |reinject| <= config.globalSlots ==>
        (Contiguous() <==> Mendable(old(View()), reinject, head, config, gasPrice))
      ensures old(Contiguous()) && reinject == [] ==> Contiguous()
    {
      hide Part, Contig, SettledIn, PricesIn, Beating, BatchDone, Resettled, Recovers, Mendable, Gapless;
      chain, nonces := head, map[];
      ghost var before, batch := View(), BatchLog([], {}, Cull(0, View()));
      results, batch := AddBatch(reinject);
      ghost var injected := View();
      ghost var demoted, cull := Resettle();
      log := ResetLog(batch, injected, demoted, cull);
      if old(Contiguous()) {
        AlignedGapless(old(pending), old(nonces), old(chain));
        ResetMends(old(View()), before, View(), reinject, results, head, config, gasPrice, log);
      }
    }

    /** The end of reset: demote what the new head made unexecutable, renumber, promote. In between the pool
        nonces are right exactly if every account recovers, and then they stay so. */
    method Resettle() returns (ghost demoted: Books, ghost cull: Cull)
      requires Valid()
      modifies `all, `pending, `queue, `nonces, `beats, `clock, priced
      ensures Valid() && forall b :: SettledAt(b)
      ensures Resettled(old(View()), View(), chain, config, demoted, cull)
      ensures Contig(demoted.pending, demoted.nonces, chain) <==> forall a :: Recovers(old(View()), chain, a)
      ensures Contig(demoted.pending, demoted.nonces, chain) ==> Contiguous()
    {
      hide Part, Contig, SettledIn, Reprocessed, LosesSpent, AllDemoted, Requeued;
      hide Numbered, Recovers, PricesIn, Beating;
      Demote();
      DemotedFull(old(pending), pending, chain);
      Renumber();
      IdleSettled(queue, nonces, chain);
      demoted := View();
      AllRecover(old(View()), demoted, chain);
      cull := PromoteExecutables(queue.Keys);
    }

    /** SetGasPrice: exactly the remote transactions below the new threshold leave. */
    method SetGasPrice(price: nat)
      requires Valid()
      modifies `gasPrice, `all, `pending, `queue, `nonces, `beats, priced
      ensures Valid() && gasPrice == price
      ensures PricedOut(old(View()), View(), price, chain)
      ensures old(Contiguous()) ==> Contiguous()
      ensures forall b :: old(SettledAt(b)) ==> SettledAt(b)
    {
      hide AllUnlisted, Part, Contig, SettledIn, Beating;
      gasPrice := price;
      var drop := priced.Cap(all, locals, price);
      PricedList.CappedHashes(all, locals, price, drop);
      RemoveAll(drop);
    }

    /** The eviction of inactive accounts in the pool's loop. */
    method Evict(now: nat, lifetime: nat)
      requires Valid()
      modifies `all, `queue, `clock, priced
      ensures Valid() && old(clock) <= clock && Evicted(old(queue), queue, locals, beats, now, lifetime, {})
      ensures forall a ::
        if a in locals || (a in beats && now <= beats[a] + lifetime) then SameAt(old(queue), queue, a)
        else ItemsOf(queue, a) == map[]
      ensures OnlyLoses(old(all), all, chain, locals)
      ensures forall b :: old(SettledAt(b)) ==> SettledAt(b)
    {
      hide Part, PricesIn, SettledIn, NonceOf, OnlyLoses, Evicted, Size, Pruned, Lowest;
      LosesNothing(all, chain, locals);
      NobodyEvicted(queue, locals, beats, now, lifetime);
      clock := if clock < now then now else clock;
      var left := queue.Keys;
      while left != {}
        invariant Valid() && old(clock) <= clock && left <= queue.Keys && OnlyLoses(old(all), all, chain, locals)
        invariant Evicted(old(queue), queue, locals, beats, now, lifetime, left)
        decreases left
      {
        var a :| a in left;
        ghost var known, before := all, queue;
        if Expired(locals, beats, now, lifetime, a) && |queue[a].items| > 0 {
          EmptyCap(queue, a);
          RemoveHighest(a, |queue[a].items|);
          LosesTrans(old(all), known, all, chain, locals);
        }
        EvictedMore(old(queue), before, queue, locals, beats, now, lifetime, left, a);
        left := left - {a};
      }
      EvictedBusy(old(queue), queue, locals, beats, now, lifetime);
      EvictedWho(old(queue), queue, locals, beats, now, lifetime);
      StillSettled(old(queue), queue, nonces, nonces, chain);
    }

    /** Any sequence of arrivals, price changes, head changes and evictions. */
    method Run(events: seq<Event>) returns (ghost trace: seq<Moment>)
      requires Valid() && forall i :: 0 <= i < |events| ==> Genuine(OffersOf(events[i]), content)
      modifies this, priced
      ensures Valid() && (old(forall b :: SettledAt(b)) ==> forall b :: SettledAt(b))
      ensures AllFollow(trace, events, config) && trace[0] == old(Now()) && trace[|events|] == Now()
    {
      hide Part, SettledIn, PricesIn, Beating, Genuine, Follows;
      trace := [Now()];
      for i := 0 to |events|
        invariant Valid() && (old(forall b :: SettledAt(b)) ==> forall b :: SettledAt(b))
        invariant AllFollow(trace, events[..i], config) && trace[0] == old(Now()) && trace[i] == Now()
      {
        assert Genuine(OffersOf(events[i]), content);
        Happen(events[i]);
        FollowsMore(trace, events[..i], config, Now(), events[i]);
        assert events[..i + 1] == events[..i] + [events[i]];
        trace := trace + [Now()];
      }
      assert events[..|events|] == events;
    }

    method Happen(e: Event)
      requires Valid() && Genuine(OffersOf(e), content)
      modifies this, priced
      ensures Valid() && Follows(old(Now()), Now(), e, config)
      ensures old(forall b :: SettledAt(b)) ==> forall b :: SettledAt(b)
    {
      hide Part, Contig, SettledIn, PricesIn, Beating, Genuine, Mendable, BatchDone, ResetDone, Recovers;
      match e {
        case Incoming(batch) => var results, log := AddBatch(batch);
        case Repriced(price) => SetGasPrice(price);
        case NewHead(head, reinject) => ghost var results, log := Reset(head, reinject);
        case Ticked(now, lifetime) => Evict(now, lifetime);
      }
    }
  }
}
