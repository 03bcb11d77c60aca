/** A reset that leaves a gap: the pool holds nonces 8 and 9, the new head is at nonce 5, and of 5, 6 and 7, which
    come back, 6 can no longer be paid for. */
module PoolGap {
  import opened TxList
  import opened PoolState
  import opened PoolLevels
  import opened PoolSpec
  import opened PoolAdd
  import opened PoolBatch
  import opened PoolCuts
  import opened PoolDemote
  import opened PoolPromote
  import opened PoolReset
  import opened PoolSizes
  import opened TxPool
  import SortedMap

  const SETTINGS := Config(16, 4096, 64, 1024, 10, false)

  function At(nonce: nat): Chain {
    Chain(a => nonce, a => 100, 1000)
  }

  /** The transaction of account 0 at a nonce; that at nonce 6 costs too much. */
  function Nth(n: nat): Tx {
    Tx(n, 0, n, 1, if n == 6 then 101 else 100, 1)
  }

  function Offering(n: nat): Offer {
    Offer(Nth(n), false, true)
  }

  /** The nonces that a queued list with 5 and 7 has ready at nonce 5. */
  lemma RunOfGap(b: Books)
    requires 0 in b.queue && b.queue[0].items == map[5 := Nth(5), 7 := Nth(7)] && Good(b.queue[0]) && !b.queue[0].strict
    ensures RunOf(b, At(5), SETTINGS, 0) == map[5 := Nth(5)]
  {
    var ahead := Forward(b.queue[0], 5);
    FilterIsScan(ahead, 100, 1000);
    var items := Executables(b.queue[0], At(5), SETTINGS, 0).items;
    assert items == map[5 := Nth(5), 7 := Nth(7)];
    assert IsLeast(items, 5) && 6 !in items;
    SortedMap.ReadyParts(items, 5, 5, 6);
    assert SortedMap.Within(items, 5, 6) == map[5 := Nth(5)];
  }

  lemma GapUnmended(pend: Items)
    requires pend == map[8 := Nth(8), 9 := Nth(9)]
    ensures !Mends(pend, map[5 := Nth(5)], At(5), 0)
  {
    hide Behind;
    var run := map[5 := Nth(5)];
    assert |run| == 1;
    AllPay(pend + run, 8);
    assert 8 in pend;
  }

  lemma AllPay(items: Items, n: nat)
    requires forall m :: m in items ==> m != 6 && items[m] == Nth(m)
    ensures !Behind(items, At(5), 0, n)
  {
  }

  /** The pool before the offers, and after some of them. */
  ghost predicate Before(b: Books) {
    && b.all.Keys <= {8, 9} && (forall h :: h in b.all ==> b.all[h] == Nth(h)) && b.queue == map[]
    && ItemsOf(b.pending, 0) == map[8 := Nth(8), 9 := Nth(9)] && b.locals == {}
  }

  lemma SmallLookup(all: Lookup)
    requires all.Keys <= {5, 8, 9}
    ensures !Full(all, SETTINGS)
  {
    TxList.Subset(all.Keys, {5, 8, 9});
    assert |all| == |all.Keys|;
  }

  lemma BeforeSmall(b: Books)
    requires Before(b)
    ensures |b.all| <= 2
  {
    TxList.Subset(b.all.Keys, {8, 9});
    assert |b.all| == |b.all.Keys|;
  }

  lemma OfferFive(b: Books)
    requires Before(b)
    ensures Fresh(b, Offering(5), At(5), SETTINGS, 1)
    ensures Offered(b, Offering(5), At(5), SETTINGS, 1) ==
      b.(all := b.all[5 := Nth(5)], queue := map[0 := Added(Empty(false), Nth(5))])
  {
    SmallLookup(b.all);
    assert !Busy(b.pending, 0, 5);
  }

  lemma OfferSix(b: Books)
    ensures Offered(b, Offering(6), At(5), SETTINGS, 1) == b
  {
  }

  /** The second of two offers joins the first in the queue. */
  lemma OfferNext(b: Books, k: nat, n: nat, c: nat)
    requires b.queue == map[0 := Added(Empty(false), Nth(k))] && k != n && n != 6 && c <= n && !Full(b.all, SETTINGS)
    requires n !in b.all && !Busy(b.pending, 0, n)
    ensures Offered(b, Offering(n), At(c), SETTINGS, 1) ==
      b.(all := b.all[n := Nth(n)], queue := map[0 := Added(Added(Empty(false), Nth(k)), Nth(n))])
  {
    assert !Refused(b, Offering(n), At(c), SETTINGS, 1);
    assert ListOf(b.queue, 0) == Added(Empty(false), Nth(k)) && n !in ListOf(b.queue, 0).items;
    assert b.queue[0 := Added(ListOf(b.queue, 0), Nth(n))] == map[0 := Added(Added(Empty(false), Nth(k)), Nth(n))];
  }

  lemma ThreeOffers(b: Books, x: Offer, y: Offer, z: Offer, chain: Chain, config: Config, gasPrice: nat)
    ensures var one := Offered(b, x, chain, config, gasPrice); var two := Offered(one, y, chain, config, gasPrice);
      OfferedAll(b, [x, y, z], chain, config, gasPrice) == Offered(two, z, chain, config, gasPrice)
    ensures Fresh(b, x, chain, config, gasPrice) ==> x.tx.sender in Dirtied(b, [x, y, z], chain, config, gasPrice)
  {
    hide Offered, Fresh;
    var batch := [x, y, z];
    assert batch[..2] == [x, y] && [x, y][..1] == [x] && [x][..0] == [];
    assert OfferedAll(b, [x], chain, config, gasPrice) == Offered(b, x, chain, config, gasPrice);
    assert Fresh(b, x, chain, config, gasPrice) ==> x.tx.sender in Dirtied(b, [x], chain, config, gasPrice);
    assert Fresh(b, x, chain, config, gasPrice) ==> x.tx.sender in Dirtied(b, [x, y], chain, config, gasPrice);
  }

  lemma TwoOffers(b: Books, x: Offer, y: Offer, chain: Chain, config: Config, gasPrice: nat)
    ensures OfferedAll(b, [x, y], chain, config, gasPrice) ==
      Offered(Offered(b, x, chain, config, gasPrice), y, chain, config, gasPrice)
    ensures Fresh(b, x, chain, config, gasPrice) ==> x.tx.sender in Dirtied(b, [x, y], chain, config, gasPrice)
  {
    hide Offered, Fresh;
    assert [x, y][..1] == [x] && [x][..0] == [];
    assert OfferedAll(b, [x], chain, config, gasPrice) == Offered(b, x, chain, config, gasPrice);
    assert Fresh(b, x, chain, config, gasPrice) ==> x.tx.sender in Dirtied(b, [x], chain, config, gasPrice);
  }

  /** After the offers 5 and 7 are queued. */
  ghost predicate Waiting57(b: Books, b0: Books) {
    && b.pending == b0.pending && b.nonces == b0.nonces && b.locals == b0.locals
    && b.queue == map[0 := Added(Added(Empty(false), Nth(5)), Nth(7))] && b.all == b0.all[5 := Nth(5)][7 := Nth(7)]
  }

  lemma OffersQueued(b: Books)
    requires Before(b)
    ensures Waiting57(OfferedAll(b, [Offering(5), Offering(6), Offering(7)], At(5), SETTINGS, 1), b)
    ensures 0 in Dirtied(b, [Offering(5), Offering(6), Offering(7)], At(5), SETTINGS, 1)
  {
    hide OfferedAll, Dirtied, Fresh, Offered;
    ThreeOffers(b, Offering(5), Offering(6), Offering(7), At(5), SETTINGS, 1);
    OfferFive(b);
    var one := Offered(b, Offering(5), At(5), SETTINGS, 1);
    OfferSix(one);
    SmallLookup(one.all);
    OfferNext(one, 5, 7, 5);
  }

  /** The account of the offers is harmed. */
  lemma GapOffered(b: Books)
    requires Before(b)
    ensures !Mendable(b, [Offering(5), Offering(6), Offering(7)], At(5), SETTINGS, 1)
  {
    hide Mends, RunOf, OfferedAll, Dirtied, Good;
    var start := b.(nonces := map[]);
    OffersQueued(start);
    var added := OfferedAll(start, [Offering(5), Offering(6), Offering(7)], At(5), SETTINGS, 1);
    QueuedList();
    RunOfGap(added);
    GapUnmended(ItemsOf(added.pending, 0));
  }

  lemma QueuedList()
    ensures var l := Added(Added(Empty(false), Nth(5)), Nth(7));
      Good(l) && !l.strict && l.items == map[5 := Nth(5), 7 := Nth(7)]
  {
  }

  /** Two offers to an empty pool wait in the queue. */
  lemma OfferTwo(b: Books)
    requires b.all == map[] && b.pending == map[] && b.queue == map[]
    ensures var added := OfferedAll(b, [Offering(8), Offering(9)], At(8), SETTINGS, 1);
      added == b.(all := map[8 := Nth(8), 9 := Nth(9)], queue := map[0 := Added(Added(Empty(false), Nth(8)), Nth(9))])
    ensures 0 in Dirtied(b, [Offering(8), Offering(9)], At(8), SETTINGS, 1)
  {
    hide OfferedAll, Dirtied;
    TwoOffers(b, Offering(8), Offering(9), At(8), SETTINGS, 1);
    var one := Offered(b, Offering(8), At(8), SETTINGS, 1);
    assert one == b.(all := map[8 := Nth(8)], queue := map[0 := Added(Empty(false), Nth(8))]);
    OfferNext(one, 8, 9, 8);
  }

  /** They are ready together. */
  lemma TwoReady(l: List)
    requires l == Added(Added(Empty(false), Nth(8)), Nth(9))
    ensures ReadyItems(l, 8, At(8), SETTINGS, 0) == map[8 := Nth(8), 9 := Nth(9)]
    ensures AfterPromotion(l, 8, At(8), SETTINGS, {}, 0).items == map[]
  {
    FilterIsScan(Forward(l, 8), 100, 1000);
    var items := Executables(l, At(8), SETTINGS, 0).items;
    assert items == map[8 := Nth(8), 9 := Nth(9)];
    assert IsLeast(items, 8) && 10 !in items;
    SortedMap.ReadyParts(items, 8, 8, 10);
    assert SortedMap.Within(items, 8, 10) == items && SortedMap.Outside(items, 8, 10) == map[];
    assert Lowest(map[], 64) == map[];
  }

  /** After the first batch the two are pending. */
  lemma Filled(b: Books, after: Books, results: seq<Outcome>, log: BatchLog)
    requires b.all == map[] && b.pending == map[] && b.queue == map[] && b.nonces == map[] && b.locals == {}
    requires BatchDone(b, after, [Offering(8), Offering(9)], results, At(8), SETTINGS, 1, log)
    ensures Before(after)
  {
    hide AddStep, NewSenders, OfferedAll, Dirtied, Reprocessed, Before, Ran;
    var batch := [Offering(8), Offering(9)];
    RoomyTrace(log.trace, batch, results, At(8), SETTINGS, 1);
    OfferTwo(b);
    BatchRan(b, after, batch, results, At(8), SETTINGS, 1, log, 0);
    FilledNow(log.trace[2], after, log.dirty, log.cull);
  }

  lemma FilledNow(added: Books, after: Books, dirty: set<Address>, cull: Cull)
    requires added.all == map[8 := Nth(8), 9 := Nth(9)] && added.pending == map[] && added.nonces == map[]
    requires added.locals == {}
    requires added.queue == map[0 := Added(Added(Empty(false), Nth(8)), Nth(9))] && 0 in dirty
    requires Reprocessed(added, after, At(8), SETTINGS, dirty, cull)
    requires Ran(added, after, 0, RunOf(added, At(8), SETTINGS, 0))
    ensures Before(after)
  {
    hide Promoted, ReadyItems, AfterPromotion, Excused, Part, FairLevel, Size, LatestFirst, Shortened, Level, Added;
    hide AllSifted;
    TwoReady(added.queue[0]);
    assert map[] + map[8 := Nth(8), 9 := Nth(9)] == map[8 := Nth(8), 9 := Nth(9)];
    QueueEmptied(added, cull.promoted, after, dirty);
  }

  lemma QueueEmptied(added: Books, promoted: Books, after: Books, dirty: set<Address>)
    requires Promoted(added, promoted, At(8), SETTINGS, {}, dirty) && 0 in dirty && added.queue.Keys == {0}
    requires added.nonces == map[]
    requires AfterPromotion(added.queue[0], 8, At(8), SETTINGS, {}, 0).items == map[]
    requires Shortened(promoted.queue, after.queue, {})
    ensures after.queue == map[]
  {
    hide AfterPromotion, ReadyItems;
    assert PromotedAt(added, promoted, At(8), SETTINGS, {}, 0);
    forall a
      ensures a !in promoted.queue
    {
      assert a != 0 ==> UnchangedAt(added, promoted, a);
    }
  }

  /** The first promotion of the reset makes 5 pending and leaves 7 queued. */
  ghost predicate Injected(b: Books) {
    && ItemsOf(b.pending, 0) == map[8 := Nth(8), 9 := Nth(9), 5 := Nth(5)]
    && ItemsOf(b.queue, 0) == map[7 := Nth(7)] && |b.all| <= 4
  }

  lemma SevenLeft(l: List)
    requires l == Added(Added(Empty(false), Nth(5)), Nth(7))
    ensures AfterPromotion(l, 5, At(5), SETTINGS, {}, 0).items == map[7 := Nth(7)]
  {
    FilterIsScan(Forward(l, 5), 100, 1000);
    var items := Executables(l, At(5), SETTINGS, 0).items;
    assert items == map[5 := Nth(5), 7 := Nth(7)];
    assert IsLeast(items, 5) && 6 !in items;
    SortedMap.ReadyParts(items, 5, 5, 6);
    assert SortedMap.Outside(items, 5, 6) == map[7 := Nth(7)];
    KeepsOne(map[7 := Nth(7)], 7, 64);
  }

  lemma KeepsOne(items: Items, n: nat, k: nat)
    requires items.Keys == {n} && 0 < k
    ensures Lowest(items, k) == items
  {
    assert Smaller(items, n) == {};
  }

  lemma SevenWaits(added: Books, after: Books, dirty: set<Address>, cull: Cull)
    requires added.queue == map[0 := Added(Added(Empty(false), Nth(5)), Nth(7))] && added.nonces == map[]
    requires added.locals == {}
    requires Culled(added, after, At(5), SETTINGS, {}, dirty, cull) && 0 in dirty && |added.all| <= 4
    ensures ItemsOf(after.queue, 0) == map[7 := Nth(7)]
  {
    hide AfterPromotion, ReadyItems, Part, FairLevel, Size, Level, Added, Shortened, LatestFirst;
    SevenLeft(added.queue[0]);
    SizesAdd(cull.promoted.all, cull.promoted.pending, cull.promoted.queue);
    FewerHashes(added.all, cull.promoted.all);
    assert PromotedAt(added, cull.promoted, At(5), SETTINGS, {}, 0);
  }

  lemma GapInjected(b: Books, injected: Books, results: seq<Outcome>, log: BatchLog)
    requires Before(b) && b.nonces == map[]
    requires BatchDone(b, injected, [Offering(5), Offering(6), Offering(7)], results, At(5), SETTINGS, 1, log)
    ensures Injected(injected)
  {
    hide AddStep, NewSenders, OfferedAll, Dirtied, Reprocessed, Before, Ran, Injected;
    var batch := [Offering(5), Offering(6), Offering(7)];
    BeforeSmall(b);
    RoomyTrace(log.trace, batch, results, At(5), SETTINGS, 1);
    OffersQueued(b);
    BatchRan(b, injected, batch, results, At(5), SETTINGS, 1, log, 0);
    BatchFewer(b, injected, batch, results, At(5), SETTINGS, 1, log);
    GapRan(b, log.trace[3], injected, log.dirty, log.cull);
  }

  lemma FiveJoins(added: Books, injected: Books)
    requires ItemsOf(added.pending, 0) == map[8 := Nth(8), 9 := Nth(9)] && Ran(added, injected, 0, map[5 := Nth(5)])
    ensures ItemsOf(injected.pending, 0) == map[8 := Nth(8), 9 := Nth(9), 5 := Nth(5)]
  {
    hide Nth;
  }

  lemma GapRan(b: Books, added: Books, injected: Books, dirty: set<Address>, cull: Cull)
    requires Before(b) && b.nonces == map[] && Waiting57(added, b) && 0 in dirty && |injected.all| <= |added.all|
    requires Reprocessed(added, injected, At(5), SETTINGS, dirty, cull)
    requires Ran(added, injected, 0, RunOf(added, At(5), SETTINGS, 0))
    ensures Injected(injected)
  {
    hide Culled, LossesExcused, RunOf, Nth, Added, Ran, Good;
    QueuedList();
    RunOfGap(added);
    FiveJoins(added, injected);
    AddedSmall(b.all);
    SevenWaits(added, injected, dirty, cull);
  }

  lemma AddedSmall(all: Lookup)
    requires all.Keys <= {8, 9}
    ensures |all[5 := Nth(5)][7 := Nth(7)]| <= 4
  {
    var more := all[5 := Nth(5)][7 := Nth(7)];
    TxList.Subset(more.Keys, {5, 7, 8, 9});
    assert |more| == |more.Keys|;
  }

  /** All three stay pending at the new head. */
  lemma AllKept(l: List)
    requires Good(l) && l.strict && l.items == map[8 := Nth(8), 9 := Nth(9), 5 := Nth(5)]
    ensures Demoted(l, At(5), 0).items.Keys == {5, 8, 9} && Postponed(l, At(5), 0) == {}
  {
    hide Demoted, Behind;
    KeptPending(l, At(5), 0);
    AllPay(l.items, 5);
    AllPay(l.items, 8);
    AllPay(l.items, 9);
  }

  lemma GapDemoted(injected: Books, demoted: Books)
    requires Injected(injected) && Filed(injected.pending, true)
    requires AllDemoted(injected.pending, demoted.pending, At(5), {})
    requires Numbered(demoted.pending, injected.nonces, demoted.nonces)
    ensures ItemsOf(demoted.pending, 0).Keys == {5, 8, 9} && NonceOf(demoted.nonces, At(5), 0) == 10
    ensures 0 in injected.pending && Postponed(injected.pending[0], At(5), 0) == {}
  {
    hide Demoted, Nth, Postponed;
    assert 5 in ItemsOf(injected.pending, 0) && 0 in injected.pending;
    assert FiledAt(injected.pending, 0, true);
    AllKept(injected.pending[0]);
    assert Has(demoted.pending, 0, Demoted(injected.pending[0], At(5), 0));
    assert EndsAt(demoted.pending[0].items, demoted.nonces, 0);
  }

  /** The last promotion finds 7 below the pool nonce. */
  lemma SevenReady(l: List)
    requires Good(l) && !l.strict && l.items == map[7 := Nth(7)]
    ensures ReadyItems(l, 10, At(5), SETTINGS, 0) == map[7 := Nth(7)]
  {
    FilterIsScan(Forward(l, 5), 100, 1000);
    var items := Executables(l, At(5), SETTINGS, 0).items;
    assert items == map[7 := Nth(7)];
    assert IsLeast(items, 7) && 8 !in items;
    SortedMap.ReadyParts(items, 10, 7, 8);
    assert SortedMap.Within(items, 7, 8) == items;
  }

  lemma GapEnds(injected: Books, demoted: Books, after: Books, cull: Cull)
    requires Injected(injected) && Part(injected.all, injected.pending, injected.queue, {})
    requires Resettled(injected, after, At(5), SETTINGS, demoted, cull)
    ensures (forall n :: Busy(after.pending, 0, n) <==> n in {5, 7, 8, 9}) && NonceOf(after.nonces, At(5), 0) == 8
  {
    hide AllDemoted, Requeued, Numbered, LosesSpent, Culled, LossesExcused, ReadyItems, Postponed, Nth, Size, Ran, Busy;
    assert |injected.all| <= 4;
    LastFits(injected, after, At(5), SETTINGS, demoted, cull);
    GapDemoted(injected, demoted);
    QueueStays(injected.pending, injected.queue, demoted.queue, At(5), 0);
    SevenQueued(demoted);
    CulledRan(demoted, after, At(5), SETTINGS, demoted.locals, demoted.queue.Keys, cull, 0);
    SevenJoins(demoted, after);
  }

  lemma SevenQueued(demoted: Books)
    requires Filed(demoted.queue, false) && ItemsOf(demoted.queue, 0) == map[7 := Nth(7)]
    ensures 0 in demoted.queue && ReadyItems(demoted.queue[0], 10, At(5), SETTINGS, 0) == map[7 := Nth(7)]
  {
    hide Nth, ReadyItems;
    assert 7 in ItemsOf(demoted.queue, 0) && FiledAt(demoted.queue, 0, false);
    SevenReady(demoted.queue[0]);
  }

  lemma SevenJoins(demoted: Books, after: Books)
    requires ItemsOf(demoted.pending, 0).Keys == {5, 8, 9} && Ran(demoted, after, 0, map[7 := Nth(7)])
    ensures (forall n :: Busy(after.pending, 0, n) <==> n in {5, 7, 8, 9}) && NonceOf(after.nonces, At(5), 0) == 8
  {
    assert 7 in map[7 := Nth(7)];
    forall n
      ensures Busy(after.pending, 0, n) <==> n in {5, 7, 8, 9}
    {
      assert Busy(after.pending, 0, n) <==> n in ItemsOf(after.pending, 0);
    }
  }

  lemma GapReset(b: Books, after: Books, results: seq<Outcome>, log: ResetLog)
    requires Before(b) && b.nonces == map[]
    requires ResetDone(b, after, [Offering(5), Offering(6), Offering(7)], results, At(5), SETTINGS, 1, log)
    ensures (forall n :: Busy(after.pending, 0, n) <==> n in {5, 7, 8, 9}) && NonceOf(after.nonces, At(5), 0) == 8
  {
    hide Before, BatchDone, Part, Resettled, Injected;
    GapInjected(b, log.injected, results, log.batch);
    GapEnds(log.injected, log.demoted, after, log.cull);
  }

  lemma BeforeStill(b: Books)
    requires Before(b)
    ensures Before(b.(nonces := map[]))
  {
  }

  /** The pending nonces of a pool that held 8 and 9 are not contiguous after the reset. */
  method ReinjectionGap() returns (pool: Pool)
    ensures pool.Valid() && pool.chain == At(5) && !pool.Contiguous()
    ensures (forall n :: Busy(pool.pending, 0, n) <==> n in {5, 7, 8, 9}) && pool.Nonce(0) == 8
  {
    hide Part, Contig, SettledIn, PricesIn, Beating, BatchDone, ResetDone, Recovers, Mendable, Before;
    pool := new Pool(SETTINGS, 1, At(8), {}, 1, Nth);
    ghost var empty := pool.View();
    var results, log := pool.AddBatch([Offering(8), Offering(9)]);
    Filled(empty, pool.View(), results, log);
    GapOffered(pool.View());
    BeforeSmall(pool.View());
    BeforeStill(pool.View());
    ghost var before := pool.View().(nonces := map[]);
    ghost var results', log' := pool.Reset(At(5), [Offering(5), Offering(6), Offering(7)]);
    GapReset(before, pool.View(), results', log');
  }
}
