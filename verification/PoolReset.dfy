/** What a new head does to the pool, and when the pending nonces of every account run from the chain nonce
    without a gap afterwards. */
module PoolReset {
  import opened TxList
  import opened PoolState
  import opened PoolLevels
  import opened PoolSpec
  import opened PoolAdd
  import opened PoolBatch
  import opened PoolCuts
  import opened PoolDemote
  import opened PoolPromote
  import opened PoolSizes

  /** What stays pending of an account at a new head. */
  ghost function KeptOf(pending: Lists, chain: Chain, a: Address): Items {
    if a in pending then Demoted(pending[a], chain, a).items else map[]
  }

  /** Some transaction from the chain nonce up to this one cannot be paid for. */
  ghost predicate Behind(items: Items, chain: Chain, a: Address, n: nat) {
    exists m :: m in items && chain.nonce(a) <= m <= n && !Payable(items[m], chain.balance(a), chain.maxGas)
  }

  /** What stays pending is everything from the chain nonce up to the first unpayable transaction. */
  lemma KeptPending(l: List, chain: Chain, a: Address)
    requires Good(l) && l.strict
    ensures Keeps(l.items, Demoted(l, chain, a).items, chain, a)
  {
    hide Filter, Behind;
    var first := chain.nonce(a);
    var kept := Filter(Forward(l, first), chain.balance(a), chain.maxGas).items;
    forall n
      ensures n in kept <==> n in l.items && first <= n && !Behind(l.items, chain, a, n)
    {
      KeptOne(l, chain, a, n);
    }
    BehindLater(l.items, chain, a);
  }

  lemma BehindLater(items: Items, chain: Chain, a: Address)
    ensures forall n :: chain.nonce(a) <= n && Behind(items, chain, a, chain.nonce(a)) ==> Behind(items, chain, a, n)
  {
  }

  lemma KeptOne(l: List, chain: Chain, a: Address, n: nat)
    requires Good(l) && l.strict
    ensures n in Filter(Forward(l, chain.nonce(a)), chain.balance(a), chain.maxGas).items <==>
      n in l.items && chain.nonce(a) <= n && !Behind(l.items, chain, a, n)
  {
    hide Filter, Good;
    var ahead := Forward(l, chain.nonce(a));
    assert Good(ahead) by {
      OperationsKeepGood(l, Tx(0, 0, 0, 0, 0, 0), chain.nonce(a));
    }
    FilterIsScan(ahead, chain.balance(a), chain.maxGas);
    if n in Kept(ahead, chain.balance(a), chain.maxGas) {
      forall m | m in l.items && chain.nonce(a) <= m <= n
        ensures Payable(l.items[m], chain.balance(a), chain.maxGas)
      {
        assert m in ahead.items;
      }
    } else if n in l.items && chain.nonce(a) <= n {
      assert n in ahead.items;
      var m :| m in ahead.items && m <= n && !Payable(ahead.items[m], chain.balance(a), chain.maxGas);
      assert m in l.items;
    }
  }

  /** After demotion and renumbering the account is aligned. */
  ghost predicate Recovers(b: Books, chain: Chain, a: Address) {
    var kept := KeptOf(b.pending, chain, a);
    TxList.Contiguous(kept) && (kept == map[] ==> NonceOf(b.nonces, chain, a) == chain.nonce(a))
  }

  lemma RecoversExactly(before: Books, after: Books, chain: Chain, a: Address)
    requires Filed(before.pending, true) && AllDemoted(before.pending, after.pending, chain, {})
    requires Numbered(after.pending, before.nonces, after.nonces)
    ensures AlignedAt(after.pending, after.nonces, chain, a) <==> Recovers(before, chain, a)
  {
    hide Demoted;
    if a in before.pending {
      assert FiledAt(before.pending, a, true);
      KeptPending(before.pending[a], chain, a);
      assert Has(after.pending, a, Demoted(before.pending[a], chain, a));
    } else {
      assert SameAt(before.pending, after.pending, a);
    }
    AlignedExactly(after.pending, after.nonces, chain, a);
  }

  lemma AlignedExactly(pending: Lists, nonces: map<Address, nat>, chain: Chain, a: Address)
    requires a in pending ==>
      chain.nonce(a) in pending[a].items && forall n :: n in pending[a].items ==> chain.nonce(a) <= n
    requires a in pending ==> EndsAt(pending[a].items, nonces, a)
    ensures AlignedAt(pending, nonces, chain, a) <==>
      if a in pending then TxList.Contiguous(pending[a].items) else NonceOf(nonces, chain, a) == chain.nonce(a)
  {
    var first, next := chain.nonce(a), NonceOf(nonces, chain, a);
    if a in pending {
      if TxList.Contiguous(pending[a].items) {
        assert forall n: nat :: first <= n < next ==> n in pending[a].items;
      } else {
        var i, j, k :| i in pending[a].items && k in pending[a].items && i <= j <= k && j !in pending[a].items;
        assert Busy(pending, a, k) && !Busy(pending, a, j);
      }
    } else if first < next {
      assert !Busy(pending, a, first);
    }
  }

  /** The transactions of an account that the first promotion after a reset makes pending. */
  ghost function RunOf(b: Books, chain: Chain, config: Config, a: Address): Items {
    if a in b.queue then ReadyItems(b.queue[a], chain.nonce(a), chain, config, a) else map[]
  }

  /** A run that becomes pending before the old pending list `pend` is demoted does no harm: there is none, or
      its first transaction can be paid for and it reaches `pend`, or nothing of `pend` above it stays. */
  ghost predicate Mends(pend: Items, run: Items, chain: Chain, a: Address) {
    var next := chain.nonce(a) + |run|;
    run == map[] || (
      && !Behind(run, chain, a, chain.nonce(a))
      && (next in pend || forall n :: n in pend && next < n ==> Behind(pend + run, chain, a, n)))
  }

  ghost predicate Spans(items: Items, lo: nat, hi: nat) {
    forall n: nat :: n in items <==> lo <= n < hi
  }

  lemma {:induction false} SpanLength(items: Items, lo: nat, hi: nat)
    requires lo <= hi && Spans(items, lo, hi)
    ensures |items| == hi - lo
  {
    if lo < hi {
      var rest := items - {hi - 1};
      assert Spans(rest, lo, hi - 1);
      SpanLength(rest, lo, hi - 1);
      FewerKeys(items, hi - 1);
    } else {
      assert items == map[];
    }
  }

  /** The run is one of consecutive nonces from the chain nonce. */
  lemma RunSpans(l: List, chain: Chain, config: Config, a: Address, next: nat)
    requires 0 < next && Greatest(ReadyItems(l, chain.nonce(a), chain, config, a), next - 1)
    ensures chain.nonce(a) < next && Spans(ReadyItems(l, chain.nonce(a), chain, config, a), chain.nonce(a), next)
    ensures |ReadyItems(l, chain.nonce(a), chain, config, a)| == next - chain.nonce(a)
  {
    hide Executables;
    var first, ahead := chain.nonce(a), Executables(l, chain, config, a).items;
    var run := ReadyItems(l, first, chain, config, a);
    ExecutablesAhead(l, chain, config, a);
    assert Ready(ahead, first, next - 1);
    var least: nat :| IsLeast(ahead, least) && least <= first && least <= next - 1 &&
      forall m :: least <= m <= next - 1 ==> m in ahead;
    assert least == first;
    forall n: nat
      ensures n in run <==> first <= n < next
    {
      if first <= n < next {
        assert Ready(ahead, first, n);
      }
    }
    SpanLength(run, first, next);
  }

  /** What an account looks like after the promotion of some transactions. */
  ghost predicate Ran(before: Books, after: Books, a: Address, more: Items) {
    && ItemsOf(after.pending, a) == ItemsOf(before.pending, a) + more
    && (if more == map[] then SameAt(before.nonces, after.nonces, a) else EndsAt(more, after.nonces, a))
  }

  /** Demotion after that leaves the account aligned exactly if the run does no harm. */
  lemma MendsExactly(before: Books, after: Books, chain: Chain, config: Config, a: Address)
    requires Filed(after.pending, true) && TxList.Contiguous(ItemsOf(before.pending, a))
    requires NonceOf(before.nonces, chain, a) == chain.nonce(a)
    requires Ran(before, after, a, RunOf(before, chain, config, a))
    ensures Recovers(after, chain, a) <==> Mends(ItemsOf(before.pending, a), RunOf(before, chain, config, a), chain, a)
  {
    hide Demoted, ReadyItems, Behind, Mends;
    var pend, run := ItemsOf(before.pending, a), RunOf(before, chain, config, a);
    var kept := KeptOf(after.pending, chain, a);
    if a in after.pending {
      assert FiledAt(after.pending, a, true);
      KeptPending(after.pending[a], chain, a);
    }
    if run == map[] {
      assert pend + run == pend;
      KeptContiguous(pend, kept, chain, a);
      NothingRan(pend, chain, a);
    } else {
      RunSpans(before.queue[a], chain, config, a, after.nonces[a]);
      MendsItems(pend, run, kept, chain, a);
    }
  }

  lemma NothingRan(pend: Items, chain: Chain, a: Address)
    ensures Mends(pend, map[], chain, a)
  {
  }

  lemma KeptContiguous(items: Items, kept: Items, chain: Chain, a: Address)
    requires TxList.Contiguous(items)
    requires Keeps(items, kept, chain, a)
    ensures TxList.Contiguous(kept)
  {
  }

  /** What stays of the items from the chain nonce on. */
  ghost predicate Keeps(items: Items, kept: Items, chain: Chain, a: Address) {
    forall n ::
      n in kept <==> chain.nonce(a) in items && n in items && chain.nonce(a) <= n && !Behind(items, chain, a, n)
  }

  lemma MendsItems(pend: Items, run: Items, kept: Items, chain: Chain, a: Address)
    requires TxList.Contiguous(pend) && run != map[] && Spans(run, chain.nonce(a), chain.nonce(a) + |run|)
    requires Keeps(pend + run, kept, chain, a)
    ensures kept != map[] && TxList.Contiguous(kept) <==> Mends(pend, run, chain, a)
  {
    FirstPays(pend, run, chain, a);
    if kept != map[] && TxList.Contiguous(kept) {
      ContiguousMends(pend, run, kept, chain, a);
    }
    if Mends(pend, run, chain, a) {
      MendsContiguous(pend, run, kept, chain, a);
    }
  }

  lemma FirstPays(pend: Items, run: Items, chain: Chain, a: Address)
    requires chain.nonce(a) in run
    ensures Behind(run, chain, a, chain.nonce(a)) <==> Behind(pend + run, chain, a, chain.nonce(a))
  {
    var items := pend + run;
    assert items[chain.nonce(a)] == run[chain.nonce(a)];
  }

  lemma NothingKept(l: List, chain: Chain, a: Address)
    requires Good(l) && l.strict && chain.nonce(a) in l.items && Behind(l.items, chain, a, chain.nonce(a))
    ensures Demoted(l, chain, a).items == map[]
    ensures !Payable(l.items[chain.nonce(a)], chain.balance(a), chain.maxGas)
  {
    hide Demoted;
    KeptPending(l, chain, a);
    BehindLater(l.items, chain, a);
  }

  lemma BehindUp(items: Items, chain: Chain, a: Address, j: nat, k: nat)
    requires Behind(items, chain, a, j) && j <= k
    ensures Behind(items, chain, a, k)
  {
  }

  lemma ContiguousMends(pend: Items, run: Items, kept: Items, chain: Chain, a: Address)
    requires run != map[] && Spans(run, chain.nonce(a), chain.nonce(a) + |run|) && Keeps(pend + run, kept, chain, a)
    requires Behind(run, chain, a, chain.nonce(a)) <==> Behind(pend + run, chain, a, chain.nonce(a))
    requires kept != map[] && TxList.Contiguous(kept)
    ensures Mends(pend, run, chain, a)
  {
    hide Behind;
    var items, first, next := pend + run, chain.nonce(a), chain.nonce(a) + |run|;
    var some :| some in kept;
    if Behind(items, chain, a, first) {
      BehindUp(items, chain, a, first, some);
    }
    assert first in run && first in kept;
    if next !in pend {
      assert next !in items && next !in kept;
      forall n | n in pend && next < n
        ensures Behind(items, chain, a, n)
      {
        assert n in items && n !in kept;
      }
    }
  }

  lemma MendsContiguous(pend: Items, run: Items, kept: Items, chain: Chain, a: Address)
    requires TxList.Contiguous(pend) && run != map[] && Spans(run, chain.nonce(a), chain.nonce(a) + |run|)
    requires Keeps(pend + run, kept, chain, a) && Mends(pend, run, chain, a)
    requires Behind(run, chain, a, chain.nonce(a)) <==> Behind(pend + run, chain, a, chain.nonce(a))
    ensures kept != map[] && TxList.Contiguous(kept)
  {
    hide Behind;
    var items, first, next := pend + run, chain.nonce(a), chain.nonce(a) + |run|;
    assert first in run && first in kept;
    forall i, j, k | i in kept && k in kept && i <= j <= k
      ensures j in kept
    {
      KeptBetween(pend, run, kept, chain, a, j, k);
    }
  }

  lemma KeptBetween(pend: Items, run: Items, kept: Items, chain: Chain, a: Address, j: nat, k: nat)
    requires TxList.Contiguous(pend) && run != map[] && Spans(run, chain.nonce(a), chain.nonce(a) + |run|)
    requires Keeps(pend + run, kept, chain, a) && Mends(pend, run, chain, a)
    requires k in kept && chain.nonce(a) <= j <= k
    ensures j in kept
  {
    hide Behind;
    var items, next := pend + run, chain.nonce(a) + |run|;
    if next <= j {
      assert k in pend && next in pend;
    }
    assert j in items;
    if Behind(items, chain, a, j) {
      BehindUp(items, chain, a, j, k);
    }
  }

  /** Demotion, renumbering and promotion, with the books in between. */
  ghost predicate Resettled(before: Books, after: Books, chain: Chain, config: Config, demoted: Books, cull: Cull) {
    && Part(demoted.all, demoted.pending, demoted.queue, {}) && LosesSpent(before.all, demoted.all, chain)
    && AllDemoted(before.pending, demoted.pending, chain, {})
    && Requeued(before.pending, before.queue, demoted.queue, chain, {})
    && Numbered(demoted.pending, before.nonces, demoted.nonces) && demoted.locals == before.locals
    && Reprocessed(demoted, after, chain, config, demoted.queue.Keys, cull)
  }

  lemma CulledRan(before: Books, after: Books, chain: Chain, config: Config, locals: set<Address>,
                  accounts: set<Address>, cull: Cull, a: Address)
    requires Culled(before, after, chain, config, locals, accounts, cull)
    requires Size(cull.promoted.pending) <= config.globalSlots
    ensures Ran(before, after, a,
                if a in accounts && a in before.queue
                then ReadyItems(before.queue[a], NonceOf(before.nonces, chain, a), chain, config, a) else map[])
  {
    hide Part, Size, Level, FairLevel, Truncated, ReadyItems, AfterPromotion;
    NoneCut(cull.promoted.pending, locals, config, cull.level);
    if a in accounts && a in before.queue {
      assert PromotedAt(before, cull.promoted, chain, config, locals, a);
    } else {
      assert UnchangedAt(before, cull.promoted, a);
      assert ItemsOf(before.pending, a) + map[] == ItemsOf(before.pending, a);
    }
  }

  /** The last promotion of a reset only moves what was queued. */
  lemma LastRan(demoted: Books, after: Books, chain: Chain, config: Config, cull: Cull,
                a: Address) returns (more: Items)
    requires Culled(demoted, after, chain, config, demoted.locals, demoted.queue.Keys, cull)
    requires Size(cull.promoted.pending) <= config.globalSlots
    ensures Ran(demoted, after, a, more) && forall n :: n in more ==> Busy(demoted.queue, a, n)
  {
    hide Culled, Size;
    CulledRan(demoted, after, chain, config, demoted.locals, demoted.queue.Keys, cull, a);
    if a in demoted.queue {
      more := ReadyItems(demoted.queue[a], NonceOf(demoted.nonces, chain, a), chain, config, a);
      ExecutablesSub(demoted.queue[a], chain, config, a);
    } else {
      more := map[];
    }
  }

  /** Where a queued transaction comes from after demotion. */
  lemma RequeuedBusy(before: Books, demoted: Books, chain: Chain, a: Address, n: nat)
    requires Filed(before.pending, true) && Filed(demoted.queue, false)
    requires Requeued(before.pending, before.queue, demoted.queue, chain, {}) && Busy(demoted.queue, a, n)
    ensures Busy(before.queue, a, n) ||
      (Busy(before.pending, a, n) && Payable(before.pending[a].items[n], chain.balance(a), chain.maxGas))
  {
    var tx := demoted.queue[a].items[n];
    assert FiledAt(demoted.queue, a, false) && Holds(demoted.queue, tx);
    if !Holds(before.queue, tx) {
      assert Returns(before.pending, chain, {}, tx) && FiledAt(before.pending, a, true);
    }
  }

  /** A nonce that is neither pending nor queued never comes back. */
  lemma NeverBack(before: Books, demoted: Books, after: Books, chain: Chain, a: Address, more: Items, n: nat)
    requires Filed(before.pending, true) && Filed(demoted.queue, false)
    requires AllDemoted(before.pending, demoted.pending, chain, {})
    requires Requeued(before.pending, before.queue, demoted.queue, chain, {})
    requires Ran(demoted, after, a, more) && forall m :: m in more ==> Busy(demoted.queue, a, m)
    requires n !in KeptOf(before.pending, chain, a) && !Busy(before.queue, a, n)
    requires Busy(before.pending, a, n) ==> !Payable(before.pending[a].items[n], chain.balance(a), chain.maxGas)
    ensures !Busy(after.pending, a, n)
  {
    hide Demoted, Requeued;
    assert n !in ItemsOf(demoted.pending, a);
    if n in more {
      RequeuedBusy(before, demoted, chain, a, n);
    }
    assert Busy(after.pending, a, n) ==> n in ItemsOf(after.pending, a);
  }

  /** What stays pending is pending in the end. */
  lemma StillPending(before: Books, demoted: Books, after: Books, chain: Chain, a: Address, more: Items, n: nat)
    requires AllDemoted(before.pending, demoted.pending, chain, {}) && Ran(demoted, after, a, more)
    requires n in KeptOf(before.pending, chain, a)
    ensures Busy(after.pending, a, n)
  {
    hide Demoted;
    assert Has(demoted.pending, a, Demoted(before.pending[a], chain, a));
    assert n in ItemsOf(after.pending, a);
  }

  /** If the first transaction cannot be paid for, nothing stays, and the pool nonce is too high. */
  lemma FirstLost(before: Books, demoted: Books, after: Books, chain: Chain, a: Address, more: Items)
    requires Filed(before.pending, true) && Filed(demoted.queue, false)
    requires AllDemoted(before.pending, demoted.pending, chain, {})
    requires Requeued(before.pending, before.queue, demoted.queue, chain, {})
    requires Numbered(demoted.pending, before.nonces, demoted.nonces)
    requires chain.nonce(a) < NonceOf(before.nonces, chain, a)
    requires Ran(demoted, after, a, more) && forall m :: m in more ==> Busy(demoted.queue, a, m)
    requires KeptOf(before.pending, chain, a) == map[] && !Busy(before.queue, a, chain.nonce(a))
    requires Busy(before.pending, a, chain.nonce(a))
    requires !Payable(before.pending[a].items[chain.nonce(a)], chain.balance(a), chain.maxGas)
    ensures !AlignedAt(after.pending, after.nonces, chain, a)
  {
    hide Demoted, Requeued;
    NeverBack(before, demoted, after, chain, a, more, chain.nonce(a));
    assert Has(demoted.pending, a, Demoted(before.pending[a], chain, a));
    assert a !in demoted.pending;
    if more != map[] {
      var n := after.nonces[a] - 1;
      assert n in ItemsOf(after.pending, a) && Busy(after.pending, a, n);
    }
  }

  /** A gap below what stays pending is there in the end. */
  lemma GapStays(before: Books, demoted: Books, after: Books, chain: Chain, a: Address, more: Items, next: nat, n: nat)
    requires Filed(before.pending, true) && Filed(demoted.queue, false)
    requires AllDemoted(before.pending, demoted.pending, chain, {})
    requires Requeued(before.pending, before.queue, demoted.queue, chain, {})
    requires Ran(demoted, after, a, more) && forall m :: m in more ==> Busy(demoted.queue, a, m)
    requires n in KeptOf(before.pending, chain, a) && next !in KeptOf(before.pending, chain, a)
    requires !Busy(before.pending, a, next) && !Busy(before.queue, a, next) && chain.nonce(a) <= next < n
    ensures !AlignedAt(after.pending, after.nonces, chain, a)
  {
    hide Demoted, Requeued, AllDemoted;
    NeverBack(before, demoted, after, chain, a, more, next);
    StillPending(before, demoted, after, chain, a, more, n);
  }

  /** The two ways in which a run does harm. */
  lemma Unmended(pend: Items, run: Items, kept: Items, chain: Chain, a: Address, next: nat)
    requires !Mends(pend, run, chain, a) && Keeps(pend + run, kept, chain, a)
    requires Spans(run, chain.nonce(a), next) && |run| == next - chain.nonce(a) && chain.nonce(a) < next
    ensures Behind(pend + run, chain, a, chain.nonce(a)) ||
      (next !in pend + run && next !in kept && exists n :: next < n && n in kept)
  {
    hide Behind;
    var items := pend + run;
    FirstPays(pend, run, chain, a);
    if !Behind(items, chain, a, chain.nonce(a)) {
      var n :| n in pend && next < n && !Behind(items, chain, a, n);
      assert n in kept;
    }
  }

  /** If the run did harm, nothing after it repairs the account. */
  lemma StillBroken(added: Books, injected: Books, demoted: Books, after: Books, chain: Chain, config: Config,
                    cull: Cull, a: Address)
    requires Filed(injected.pending, true) && Ran(added, injected, a, RunOf(added, chain, config, a))
    requires SettledIn(injected.queue, injected.nonces, chain, a)
    requires !Mends(ItemsOf(added.pending, a), RunOf(added, chain, config, a), chain, a)
    requires Resettled(injected, after, chain, config, demoted, cull)
    requires Size(cull.promoted.pending) <= config.globalSlots
    ensures !AlignedAt(after.pending, after.nonces, chain, a)
  {
    hide Demoted, ReadyItems, Behind, Culled, LossesExcused, Size, AllDemoted, Requeued;
    hide Mends, Keeps, Numbered, Aligned;
    var pend, run, first := ItemsOf(added.pending, a), RunOf(added, chain, config, a), chain.nonce(a);
    NothingRan(pend, chain, a);
    RunSpans(added.queue[a], chain, config, a, injected.nonces[a]);
    var next, items := injected.nonces[a], pend + run;
    assert first in items && a in injected.pending && FiledAt(injected.pending, a, true);
    KeptPending(injected.pending[a], chain, a);
    Unmended(pend, run, KeptOf(injected.pending, chain, a), chain, a, next);
    var more := LastRan(demoted, after, chain, config, cull, a);
    assert !Busy(injected.queue, a, first) && !Busy(injected.queue, a, next);
    if Behind(items, chain, a, first) {
      NothingKept(injected.pending[a], chain, a);
      FirstLost(injected, demoted, after, chain, a, more);
    } else {
      var n :| next < n && n in KeptOf(injected.pending, chain, a);
      GapStays(injected, demoted, after, chain, a, more, next, n);
    }
  }

  /** How a reset went: the batch, the books after it, those after demotion, and the last promotion. */
  datatype ResetLog = ResetLog(batch: BatchLog, injected: Books, demoted: Books, cull: Cull)

  ghost predicate ResetDone(before: Books, after: Books, reinject: seq<Offer>, results: seq<Outcome>, head: Chain,
                            config: Config, gasPrice: nat, log: ResetLog) {
    && BatchDone(before, log.injected, reinject, results, head, config, gasPrice, log.batch)
    && Part(log.injected.all, log.injected.pending, log.injected.queue, {})
    && Resettled(log.injected, after, head, config, log.demoted, log.cull)
  }

  /** No account with new transactions is harmed. */
  ghost predicate AllMend(b: Books, dirty: set<Address>, chain: Chain, config: Config) {
    forall a :: a in dirty ==> Mends(ItemsOf(b.pending, a), RunOf(b, chain, config, a), chain, a)
  }

  lemma SeatGapless(b: Books, o: Offer, config: Config)
    requires Gapless(b.pending)
    ensures Gapless(Seat(b, o, config).pending) && Seat(b, o, config).nonces == b.nonces
  {
    var pending := Seat(b, o, config).pending;
    forall a | a in pending
      ensures TxList.Contiguous(pending[a].items)
    {
      assert a in b.pending && pending[a].items.Keys == b.pending[a].items.Keys;
    }
  }

  lemma {:induction false} OfferedGapless(b: Books, batch: seq<Offer>, chain: Chain, config: Config, gasPrice: nat)
    requires Gapless(b.pending)
    ensures Gapless(OfferedAll(b, batch, chain, config, gasPrice).pending)
    ensures OfferedAll(b, batch, chain, config, gasPrice).nonces == b.nonces
  {
    hide Gapless, Seat, Refused;
    if batch != [] {
      var k := |batch| - 1;
      OfferedGapless(b, batch[..k], chain, config, gasPrice);
      SeatGapless(OfferedAll(b, batch[..k], chain, config, gasPrice), batch[k], config);
    }
  }

  /** What the batch of a reset does to an account, if there is room. */
  lemma BatchRan(before: Books, after: Books, batch: seq<Offer>, results: seq<Outcome>, chain: Chain, config: Config,
                 gasPrice: nat, log: BatchLog, a: Address)
    requires BatchDone(before, after, batch, results, chain, config, gasPrice, log)
    requires |log.trace[|batch|].all| <= config.globalSlots && log.trace[|batch|].nonces == map[]
    ensures var added := log.trace[|batch|];
      Ran(added, after, a, if a in log.dirty then RunOf(added, chain, config, a) else map[])
  {
    hide AddStep, Culled, LossesExcused, ReadyItems, NewSenders;
    var added := log.trace[|batch|];
    if log.dirty == {} {
      assert ItemsOf(added.pending, a) + map[] == ItemsOf(added.pending, a);
    } else {
      CulledFits(added, after, chain, config, added.locals, log.dirty, log.cull);
      CulledRan(added, after, chain, config, added.locals, log.dirty, log.cull, a);
    }
  }

  lemma Unmoved(before: Books, after: Books, chain: Chain, a: Address)
    requires Filed(after.pending, true) && TxList.Contiguous(ItemsOf(before.pending, a))
    requires NonceOf(before.nonces, chain, a) == chain.nonce(a) && Ran(before, after, a, map[])
    ensures Recovers(after, chain, a)
  {
    hide Demoted, Behind;
    var pend := ItemsOf(before.pending, a);
    assert pend + map[] == pend;
    if a in after.pending {
      assert FiledAt(after.pending, a, true);
      KeptPending(after.pending[a], chain, a);
    }
    KeptContiguous(pend, KeptOf(after.pending, chain, a), chain, a);
  }

  /** After a reset of a contiguous pool with room, all pending nonces are contiguous exactly if no account with
      new transactions is harmed; that can be told from the pool and the offers before the reset. */
  lemma ResetExactly(before: Books, after: Books, reinject: seq<Offer>, results: seq<Outcome>, head: Chain,
                     config: Config, gasPrice: nat, log: ResetLog)
    requires ResetDone(before, after, reinject, results, head, config, gasPrice, log)
    requires Gapless(before.pending) && before.nonces == map[] && |before.all| + |reinject| <= config.globalSlots
    requires forall a :: a in log.batch.dirty ==> SettledIn(log.injected.queue, log.injected.nonces, head, a)
    requires Contig(log.demoted.pending, log.demoted.nonces, head) ==> Contig(after.pending, after.nonces, head)
    ensures var added := OfferedAll(before, reinject, head, config, gasPrice);
      var dirty := Dirtied(before, reinject, head, config, gasPrice);
      Contig(after.pending, after.nonces, head) <==> AllMend(added, dirty, head, config)
  {
    hide AddSteps, NewSenders, Reprocessed, AllDemoted, Requeued, Numbered, LosesSpent;
    hide OfferedAll, Dirtied, Gapless, Mends;
    hide Recovers, AlignedAt, Ran, RunOf, SettledIn;
    var added, dirty := OfferedAll(before, reinject, head, config, gasPrice), log.batch.dirty;
    RoomyTrace(log.batch.trace, reinject, results, head, config, gasPrice);
    OfferedGapless(before, reinject, head, config, gasPrice);
    forall a
      ensures AlignedAt(log.demoted.pending, log.demoted.nonces, head, a) <==>
        (a in dirty ==> Mends(ItemsOf(added.pending, a), RunOf(added, head, config, a), head, a))
    {
      BatchRan(before, log.injected, reinject, results, head, config, gasPrice, log.batch, a);
      GaplessAt(added.pending, a);
      RecoversExactly(log.injected, log.demoted, head, a);
      if a in dirty {
        MendsExactly(added, log.injected, head, config, a);
      } else {
        Unmoved(added, log.injected, head, a);
      }
    }
    if a :| a in dirty && !Mends(ItemsOf(added.pending, a), RunOf(added, head, config, a), head, a) {
      BatchRan(before, log.injected, reinject, results, head, config, gasPrice, log.batch, a);
      BatchFewer(before, log.injected, reinject, results, head, config, gasPrice, log.batch);
      LastFits(log.injected, after, head, config, log.demoted, log.cull);
      StillBroken(added, log.injected, log.demoted, after, head, config, log.cull, a);
    }
  }

  lemma GaplessAt(pending: Lists, a: Address)
    requires Gapless(pending)
    ensures TxList.Contiguous(ItemsOf(pending, a))
  {
  }

  lemma LastFits(before: Books, after: Books, chain: Chain, config: Config, demoted: Books, cull: Cull)
    requires Resettled(before, after, chain, config, demoted, cull) && |before.all| <= config.globalSlots
    ensures Size(cull.promoted.pending) <= config.globalSlots
  {
    hide Part, AllDemoted, Requeued, Numbered, Culled, LossesExcused, Size, Spent;
    FewerHashes(before.all, demoted.all);
    CulledFits(demoted, after, chain, config, demoted.locals, demoted.queue.Keys, cull);
  }

  /** No account of reinjected transactions would be harmed. */
  ghost predicate Mendable(b: Books, reinject: seq<Offer>, head: Chain, config: Config, gasPrice: nat) {
    var start := b.(nonces := map[]);
    var added := OfferedAll(start, reinject, head, config, gasPrice);
    AllMend(added, Dirtied(start, reinject, head, config, gasPrice), head, config)
  }

  lemma DemotedFull(before: Lists, after: Lists, chain: Chain)
    requires AllDemoted(before, after, chain, {})
    ensures forall a :: a in after ==> after[a].items != map[]
  {
    hide Demoted;
    forall a | a in after
      ensures after[a].items != map[]
    {
      assert a !in before ==> SameAt(before, after, a);
      assert Has(after, a, Demoted(before[a], chain, a));
    }
  }

  lemma AllRecover(before: Books, after: Books, chain: Chain)
    requires Part(before.all, before.pending, before.queue, {}) && AllDemoted(before.pending, after.pending, chain, {})
    requires Numbered(after.pending, before.nonces, after.nonces)
    ensures Contig(after.pending, after.nonces, chain) <==> forall a :: Recovers(before, chain, a)
  {
    hide Recovers, AllDemoted, Numbered, AlignedAt;
    forall a
      ensures AlignedAt(after.pending, after.nonces, chain, a) <==> Recovers(before, chain, a)
    {
      RecoversExactly(before, after, chain, a);
    }
  }

  lemma ResetMends(start: Books, before: Books, after: Books, reinject: seq<Offer>, results: seq<Outcome>,
                   head: Chain, config: Config, gasPrice: nat, log: ResetLog)
    requires ResetDone(before, after, reinject, results, head, config, gasPrice, log)
    requires Gapless(before.pending) && before == start.(nonces := map[])
    requires forall a :: a in log.batch.dirty ==> SettledIn(log.injected.queue, log.injected.nonces, head, a)
    requires (forall a :: Recovers(log.injected, head, a)) ==> Contig(after.pending, after.nonces, head)
    requires Contig(log.demoted.pending, log.demoted.nonces, head) <==> forall a :: Recovers(log.injected, head, a)
    ensures |before.all| + |reinject| <= config.globalSlots ==>
      (Contig(after.pending, after.nonces, head) <==> Mendable(start, reinject, head, config, gasPrice))
    ensures reinject == [] ==> Contig(after.pending, after.nonces, head)
  {
    hide Recovers, Contig, SettledIn, Gapless, OfferedAll, Dirtied, AllMend, BatchDone, Resettled;
    if |before.all| + |reinject| <= config.globalSlots {
      ResetExactly(before, after, reinject, results, head, config, gasPrice, log);
    }
    if reinject == [] {
      NothingReinjected(before, after, results, head, config, gasPrice, log);
    }
  }

  lemma NothingReinjected(before: Books, after: Books, results: seq<Outcome>, head: Chain, config: Config,
                          gasPrice: nat, log: ResetLog)
    requires ResetDone(before, after, [], results, head, config, gasPrice, log)
    requires Gapless(before.pending) && before.nonces == map[]
    ensures forall a :: Recovers(log.injected, head, a)
  {
    hide Recovers, AddStep, Resettled, Gapless;
    NoSenders();
    assert log.injected == before;
    forall a
      ensures Recovers(before, head, a)
    {
      GaplessAt(before.pending, a);
      assert ItemsOf(before.pending, a) + map[] == ItemsOf(before.pending, a);
      Unmoved(before, before, head, a);
    }
  }

  /** The pool between two events. */
  datatype Moment = Moment(books: Books, chain: Chain, gasPrice: nat)

  ghost predicate Ordered(m: Moment) {
    Contig(m.books.pending, m.books.nonces, m.chain)
  }

  ghost predicate Roomy(m: Moment, e: Event, config: Config) {
    e.NewHead? ==> |m.books.all| + |e.reinject| <= config.globalSlots
  }

  ghost predicate Heals(m: Moment, e: Event, config: Config) {
    e.NewHead? ==> Mendable(m.books, e.reinject, e.head, config, m.gasPrice)
  }

  ghost predicate Reinjects(e: Event) {
    e.NewHead? && e.reinject != []
  }

  /** What an event does to the pool. */
  ghost predicate Effect(before: Moment, after: Moment, e: Event, config: Config) {
    match e
    case Incoming(batch) =>
      && after.chain == before.chain && after.gasPrice == before.gasPrice
      && exists results, log ::
        BatchDone(before.books, after.books, batch, results, before.chain, config, before.gasPrice, log)
    case Repriced(price) =>
      && after.chain == before.chain && after.gasPrice == price
      && PricedOut(before.books, after.books, price, before.chain)
    case NewHead(head, reinject) =>
      && after.chain == head && after.gasPrice == before.gasPrice
      && exists results, log ::
        ResetDone(before.books.(nonces := map[]), after.books, reinject, results, head, config, before.gasPrice, log)
    case Ticked(now, lifetime) =>
      var b := before.books;
      && after.chain == before.chain && after.gasPrice == before.gasPrice
      && after.books.pending == b.pending && after.books.nonces == b.nonces
      && Evicted(b.queue, after.books.queue, b.locals, b.beats, now, lifetime, {})
  }

  /** The event has its effect. It keeps the pending nonces in order unless it reinjects transactions; and if
      there is room for those, exactly if they do no harm. */
  ghost predicate Follows(before: Moment, after: Moment, e: Event, config: Config) {
    && Effect(before, after, e, config)
    && (Ordered(before) && !Reinjects(e) ==> Ordered(after))
    && (Ordered(before) && Roomy(before, e, config) ==> (Ordered(after) <==> Heals(before, e, config)))
  }

  ghost predicate AllFollow(trace: seq<Moment>, events: seq<Event>, config: Config) {
    |trace| == |events| + 1 && forall i: nat :: i < |events| ==> Follows(trace[i], trace[i + 1], events[i], config)
  }

  lemma FollowsMore(trace: seq<Moment>, events: seq<Event>, config: Config, after: Moment, e: Event)
    requires AllFollow(trace, events, config) && Follows(trace[|events|], after, e, config)
    ensures AllFollow(trace + [after], events + [e], config)
  {
    hide Follows;
    var trace', events' := trace + [after], events + [e];
    forall i: nat | i < |events'|
      ensures Follows(trace'[i], trace'[i + 1], events'[i], config)
    {
      assert i < |events| ==> Follows(trace[i], trace[i + 1], events[i], config);
    }
  }

  /** Order is kept over a run whose reinjections find room and do no harm. */
  lemma {:induction false} OrderKept(trace: seq<Moment>, events: seq<Event>, config: Config, k: nat)
    requires AllFollow(trace, events, config) && Ordered(trace[0]) && k <= |events|
    requires forall i: nat :: i < k && Reinjects(events[i]) ==>
      Roomy(trace[i], events[i], config) && Heals(trace[i], events[i], config)
    ensures Ordered(trace[k])
  {
    hide Ordered, Roomy, Heals;
    if k != 0 {
      OrderKept(trace, events, config, k - 1);
      assert Follows(trace[k - 1], trace[k], events[k - 1], config);
    }
  }
}
