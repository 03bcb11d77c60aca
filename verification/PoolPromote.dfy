/** What promotion moves from the queue to the pending lists, and why a transaction may be lost by it. */
module PoolPromote {
  import opened TxList
  import opened PoolState
  import opened PoolLevels
  import opened PoolSpec
  import opened PoolCuts
  import SortedMap

  /** The account's heartbeat is from now if transactions of it were promoted. */
  ghost predicate Stamped(before: map<Address, nat>, after: map<Address, nat>, a: Address, more: Items, clock: nat) {
    && SameElsewhere(before, after, a)
    && (if more == map[] then after == before else a in after && clock <= after[a])
  }

  lemma SpentOver(l: List, chain: Chain, a: Address)
    requires Good(l) && !l.strict && forall n :: n in l.items ==> l.items[n].sender == a
    ensures Sub(Filter(l, chain.balance(a), chain.maxGas), l)
    ensures forall tx :: tx in Rest(l.items, Filter(l, chain.balance(a), chain.maxGas).items) ==> Spent(tx, chain)
  {
    FilterSub(l, chain.balance(a), chain.maxGas);
  }

  lemma ExecutablesAhead(l: List, chain: Chain, config: Config, a: Address)
    ensures forall n :: n in Executables(l, chain, config, a).items ==> chain.nonce(a) <= n
  {
  }

  lemma PromotionSettled(before: Lists, waiting: Lists, after: Lists, nonces: map<Address, nat>,
                         nonces': map<Address, nat>, chain: Chain, config: Config, locals: set<Address>, a: Address)
    requires a in waiting && SameElsewhere(before, waiting, a) && exists more :: Advanced(nonces, nonces', a, more)
    requires after == Pruned(waiting[a := Limited(waiting[a], config, locals, a)], a)
    requires forall n :: n in waiting[a].items ==> n > NonceOf(nonces', chain, a)
    ensures forall b :: b == a || SettledIn(before, nonces, chain, b) ==> SettledIn(after, nonces', chain, b)
  {
    assert SameElsewhere(before, after, a);
    assert SettledIn(after, nonces', chain, a);
    OthersSettled(before, after, nonces, nonces', chain, a);
  }

  lemma RunStamped(beats: map<Address, nat>, a: Address, items: Items, least: nat, next: nat, clock: nat, now: nat)
    requires least in items && least < next && clock <= now
    ensures Stamped(beats, beats[a := now], a, SortedMap.Within(items, least, next), clock)
  {
    assert least in SortedMap.Within(items, least, next);
  }

  lemma RunTaken(nonces: map<Address, nat>, a: Address, items: Items, least: nat, next: nat)
    requires IsLeast(items, least) && least < next && next !in items
    requires forall n: nat :: least <= n < next ==> n in items
    ensures Advanced(nonces, nonces[a := next], a, SortedMap.Within(items, least, next))
    ensures forall n :: n in SortedMap.Outside(items, least, next) ==> next < n
  {
    assert next - 1 in SortedMap.Within(items, least, next);
  }

  lemma NothingReady(pending: Lists, nonces: map<Address, nat>, beats: map<Address, nat>, a: Address, items: Items,
                     start: nat, clock: nat)
    requires forall n :: n in items ==> start < n
    ensures SortedMap.NotReady(items, start) == items && SortedMap.AllReady(items, start) == map[]
    ensures GrownTo(pending, pending, a, map[]) && Advanced(nonces, nonces, a, map[])
    ensures Stamped(beats, beats, a, map[], clock)
  {
    SortedMap.NothingReady(items, start);
    assert ItemsOf(pending, a) + map[] == ItemsOf(pending, a);
  }

  /** The pool nonce of the account stands right after the transactions it was promoted by, if any. */
  ghost predicate Advanced(before: map<Address, nat>, after: map<Address, nat>, a: Address, more: Items) {
    && SameElsewhere(before, after, a)
    && (if more == map[] then after == before
        else a in after && 0 < after[a] && Greatest(more, after[a] - 1))
  }

  /** The queued list without old transactions and, outside Quorum, without unpayable ones. */
  function Executables(l: List, chain: Chain, config: Config, a: Address): List {
    var ahead := Forward(l, chain.nonce(a));
    if config.quorum then ahead else Filter(ahead, chain.balance(a), chain.maxGas)
  }

  function Limited(l: List, config: Config, locals: set<Address>, a: Address): List {
    if a in locals then l else Cap(l, config.accountQueue)
  }

  /** What stays in the queue: the executable run from the pool nonce leaves, and the limit applies. */
  ghost function AfterPromotion(l: List, nonce: nat, chain: Chain, config: Config, locals: set<Address>,
                                a: Address): List {
    var left := Executables(l, chain, config, a);
    Limited(left.(items := SortedMap.NotReady(left.items, nonce)), config, locals, a)
  }

  /** The transactions that become executable: the run that continues the pool nonce. */
  ghost function ReadyItems(l: List, nonce: nat, chain: Chain, config: Config, a: Address): Items {
    SortedMap.AllReady(Executables(l, chain, config, a).items, nonce)
  }

  ghost predicate UnchangedAt(before: Books, after: Books, a: Address) {
    && SameAt(before.pending, after.pending, a) && SameAt(before.queue, after.queue, a)
    && SameAt(before.nonces, after.nonces, a) && SameAt(before.beats, after.beats, a)
  }

  /** The account has been promoted: the run has moved from the queue to the pending list, the pool nonce
      stands after it, the account has a new heartbeat, and the queue keeps what is ahead and within the limit. */
  ghost predicate PromotedAt(before: Books, after: Books, chain: Chain, config: Config, locals: set<Address>,
                             a: Address)
    requires a in before.queue
  {
    var nonce := NonceOf(before.nonces, chain, a);
    var ready := ReadyItems(before.queue[a], nonce, chain, config, a);
    && Has(after.queue, a, AfterPromotion(before.queue[a], nonce, chain, config, locals, a))
    && ItemsOf(after.pending, a) == ItemsOf(before.pending, a) + ready
    && (if ready == map[]
        then SameAt(before.nonces, after.nonces, a) && SameAt(before.beats, after.beats, a)
        else
          && a in after.nonces && 0 < after.nonces[a] && Greatest(ready, after.nonces[a] - 1)
          && a in after.beats && before.clock <= after.beats[a])
  }

  /** The given accounts have been promoted, and no others touched. */
  ghost predicate Promoted(before: Books, after: Books, chain: Chain, config: Config, locals: set<Address>,
                           accounts: set<Address>) {
    before.clock <= after.clock && forall a ::
      if a in accounts && a in before.queue then PromotedAt(before, after, chain, config, locals, a)
      else UnchangedAt(before, after, a)
  }

  lemma PromotedNone(b: Books, chain: Chain, config: Config, locals: set<Address>)
    ensures Promoted(b, b, chain, config, locals, {})
  {
  }

  lemma NobodyPromoted(b: Books, chain: Chain, config: Config, locals: set<Address>, a: Address)
    requires a !in b.queue
    ensures Promoted(b, b, chain, config, locals, {a})
  {
  }

  lemma PromotedOne(before: Books, after: Books, chain: Chain, config: Config, locals: set<Address>, a: Address)
    requires a in before.queue
    requires var nonce := NonceOf(before.nonces, chain, a);
      var ready := ReadyItems(before.queue[a], nonce, chain, config, a);
      && GrownTo(before.pending, after.pending, a, ready) && Advanced(before.nonces, after.nonces, a, ready)
      && after.queue == Pruned(before.queue[a := AfterPromotion(before.queue[a], nonce, chain, config, locals, a)], a)
      && Stamped(before.beats, after.beats, a, ready, before.clock) && before.clock <= after.clock
    ensures Promoted(before, after, chain, config, locals, {a})
  {
    hide ReadyItems, AfterPromotion, NonceOf;
    assert PromotedAt(before, after, chain, config, locals, a);
    forall b | b != a
      ensures UnchangedAt(before, after, b)
    {
    }
  }

  lemma PromotedMore(before: Books, mid: Books, after: Books, chain: Chain, config: Config, locals: set<Address>,
                     accounts: set<Address>, a: Address)
    requires Promoted(before, mid, chain, config, locals, accounts) && a !in accounts
    requires Promoted(mid, after, chain, config, locals, {a})
    ensures Promoted(before, after, chain, config, locals, accounts + {a})
  {
    forall b
      ensures if b in accounts + {a} && b in before.queue then PromotedAt(before, after, chain, config, locals, b)
        else UnchangedAt(before, after, b)
    {
      if b == a {
        assert UnchangedAt(before, mid, a);
        PromotedFrom(before, mid, after, chain, config, locals, a);
      } else {
        assert UnchangedAt(mid, after, b);
        PromotedStays(before, mid, after, chain, config, locals, b);
      }
    }
  }

  lemma PromotedFrom(before: Books, mid: Books, after: Books, chain: Chain, config: Config, locals: set<Address>,
                     a: Address)
    requires UnchangedAt(before, mid, a)
    ensures before.clock <= mid.clock && a in mid.queue && PromotedAt(mid, after, chain, config, locals, a) ==>
      a in before.queue && PromotedAt(before, after, chain, config, locals, a)
    ensures UnchangedAt(mid, after, a) ==> UnchangedAt(before, after, a)
  {
    hide AfterPromotion, ReadyItems;
  }

  lemma PromotedStays(before: Books, mid: Books, after: Books, chain: Chain, config: Config, locals: set<Address>,
                      a: Address)
    requires UnchangedAt(mid, after, a)
    ensures a in before.queue && PromotedAt(before, mid, chain, config, locals, a) ==>
      PromotedAt(before, after, chain, config, locals, a)
    ensures UnchangedAt(before, mid, a) ==> UnchangedAt(before, after, a)
  {
    hide AfterPromotion, ReadyItems;
  }

  /** The account queues as many as it may, all with lower nonces. */
  ghost predicate Crowded(queue: Lists, a: Address, limit: nat, nonce: nat) {
    |ItemsOf(queue, a)| == limit && forall n :: n in ItemsOf(queue, a) ==> n < nonce
  }

  /** What becomes of a queued transaction of an account that is promoted. One that is spent or, in Quorum, below
      the chain nonce is gone. Any other is pending or still queued, unless the account is remote and has queued as
      many as it may with lower nonces. */
  ghost predicate SortedOut(after: Books, chain: Chain, config: Config, locals: set<Address>, tx: Tx) {
    if (if config.quorum then tx.nonce < chain.nonce(tx.sender) else Spent(tx, chain))
    then !Holds(after.pending, tx) && !Holds(after.queue, tx)
    else
      || Holds(after.pending, tx) || Holds(after.queue, tx)
      || (tx.sender !in locals && Crowded(after.queue, tx.sender, config.accountQueue, tx.nonce))
  }

  /** Every transaction that was queued is sorted out, nothing else joins pending or queue, and a remote account
      queues no more than it may. */
  ghost predicate Sifted(before: Books, after: Books, chain: Chain, config: Config, locals: set<Address>, a: Address) {
    && (forall tx: Tx :: tx.sender == a && Holds(before.queue, tx) ==>
          SortedOut(after, chain, config, locals, tx))
    && (forall tx: Tx :: tx.sender == a && Holds(after.queue, tx) ==> Holds(before.queue, tx))
    && (forall tx: Tx :: tx.sender == a && Holds(after.pending, tx) ==>
          Holds(before.pending, tx) || Holds(before.queue, tx))
    && (a in locals || |ItemsOf(after.queue, a)| <= config.accountQueue)
  }

  ghost predicate AllSifted(before: Books, after: Books, chain: Chain, config: Config, locals: set<Address>,
                            accounts: set<Address>) {
    forall a :: a in accounts && a in before.queue ==> Sifted(before, after, chain, config, locals, a)
  }

  lemma ExecutablesExact(l: List, chain: Chain, config: Config, a: Address)
    requires Good(l) && !l.strict && forall n :: n in l.items ==> l.items[n].sender == a
    ensures var left := Executables(l, chain, config, a).items;
      && (forall n :: n in left ==> n in l.items && left[n] == l.items[n])
      && forall n :: n in l.items ==> (n in left <==>
           !(if config.quorum then n < chain.nonce(a) else Spent(l.items[n], chain)))
  {
    var ahead := Forward(l, chain.nonce(a));
    FilterIsScan(ahead, chain.balance(a), chain.maxGas);
  }

  lemma LimitedCrowds(l: List, config: Config, locals: set<Address>, a: Address, n: nat)
    requires n in l.items && n !in Limited(l, config, locals, a).items
    ensures a !in locals && |Limited(l, config, locals, a).items| == config.accountQueue
    ensures forall m :: m in Limited(l, config, locals, a).items ==> m < n
  {
    var low := Limited(l, config, locals, a).items;
    LowestSize(l.items, config.accountQueue);
    RankBounded(l.items, n);
    forall m | m in low
      ensures m < n
    {
      if n < m {
        RankMonotone(l.items, n, m);
      }
    }
  }

  lemma HoldsItem(m: Lists, tx: Tx)
    ensures Holds(m, tx) <==> tx.nonce in ItemsOf(m, tx.sender) && ItemsOf(m, tx.sender)[tx.nonce] == tx
  {
  }

  /** The items of the account, before and after. */
  lemma PromotedItems(before: Books, after: Books, chain: Chain, config: Config, locals: set<Address>, a: Address)
      returns (left: List, waiting: List, ready: Items)
    requires a in before.queue && PromotedAt(before, after, chain, config, locals, a)
    ensures left == Executables(before.queue[a], chain, config, a)
    ensures forall n :: n in left.items <==> n in waiting.items || n in ready
    ensures forall n :: n in waiting.items ==> n in left.items && waiting.items[n] == left.items[n] && n !in ready
    ensures forall n :: n in ready ==> n in left.items && ready[n] == left.items[n]
    ensures ItemsOf(after.queue, a) == Limited(waiting, config, locals, a).items
    ensures ItemsOf(after.pending, a) == ItemsOf(before.pending, a) + ready
  {
    hide Executables, Limited, Ready, Greatest;
    left := Executables(before.queue[a], chain, config, a);
    waiting := left.(items := SortedMap.NotReady(left.items, NonceOf(before.nonces, chain, a)));
    ready := ReadyItems(before.queue[a], NonceOf(before.nonces, chain, a), chain, config, a);
  }

  lemma PromotedSorts(before: Books, after: Books, chain: Chain, config: Config, locals: set<Address>, a: Address,
                      tx: Tx)
    requires Part(before.all, before.pending, before.queue, {}) && a in before.queue
    requires PromotedAt(before, after, chain, config, locals, a) && tx.sender == a && Holds(before.queue, tx)
    ensures SortedOut(after, chain, config, locals, tx)
  {
    hide Part, Executables, Limited, Spent, PromotedAt, Holds, ItemsOf;
    var left, waiting, ready := PromotedItems(before, after, chain, config, locals, a);
    FiledList(before.all, before.pending, before.queue, a);
    ExecutablesExact(before.queue[a], chain, config, a);
    QueuedPlace(before.all, before.pending, before.queue, tx);
    HoldsItem(after.pending, tx);
    HoldsItem(after.queue, tx);
    LimitedSub(waiting, config, locals, a);
    if tx.nonce in waiting.items && tx.nonce !in Limited(waiting, config, locals, a).items {
      LimitedCrowds(waiting, config, locals, a, tx.nonce);
    }
  }

  lemma QueuedPlace(all: Lookup, pending: Lists, queue: Lists, tx: Tx)
    requires Part(all, pending, queue, {}) && Holds(queue, tx)
    ensures tx.sender in queue && tx.nonce in queue[tx.sender].items && queue[tx.sender].items[tx.nonce] == tx
    ensures tx.nonce !in ItemsOf(pending, tx.sender)
  {
    assert Busy(queue, tx.sender, tx.nonce);
  }

  lemma LimitedSize(l: List, config: Config, locals: set<Address>, a: Address)
    ensures a in locals || |Limited(l, config, locals, a).items| <= config.accountQueue
  {
    LowestSize(l.items, config.accountQueue);
  }

  lemma LimitedSub(l: List, config: Config, locals: set<Address>, a: Address)
    ensures forall n :: n in Limited(l, config, locals, a).items ==>
      n in l.items && Limited(l, config, locals, a).items[n] == l.items[n]
  {
  }

  lemma PromotedSifts(before: Books, after: Books, chain: Chain, config: Config, locals: set<Address>, a: Address)
    requires Part(before.all, before.pending, before.queue, {}) && a in before.queue
    requires PromotedAt(before, after, chain, config, locals, a)
    ensures Sifted(before, after, chain, config, locals, a)
  {
    hide Part, Executables, Limited, SortedOut, PromotedAt;
    var left, waiting, ready := PromotedItems(before, after, chain, config, locals, a);
    FiledList(before.all, before.pending, before.queue, a);
    ExecutablesExact(before.queue[a], chain, config, a);
    LimitedSub(waiting, config, locals, a);
    LimitedSize(waiting, config, locals, a);
    forall tx: Tx | tx.sender == a && Holds(before.queue, tx)
      ensures SortedOut(after, chain, config, locals, tx)
    {
      PromotedSorts(before, after, chain, config, locals, a, tx);
    }
  }

  lemma PromotedSiftsOne(before: Books, after: Books, chain: Chain, config: Config, locals: set<Address>, a: Address)
    requires Part(before.all, before.pending, before.queue, {}) && a in before.queue
    requires Promoted(before, after, chain, config, locals, {a})
    ensures Sifted(before, after, chain, config, locals, a)
  {
    hide Part, PromotedAt, UnchangedAt, Sifted;
    PromotedSifts(before, after, chain, config, locals, a);
  }

  lemma PromotedAllSifts(before: Books, after: Books, chain: Chain, config: Config, locals: set<Address>,
                         accounts: set<Address>)
    requires Part(before.all, before.pending, before.queue, {})
    requires Promoted(before, after, chain, config, locals, accounts)
    ensures AllSifted(before, after, chain, config, locals, accounts)
  {
    hide Part, PromotedAt, UnchangedAt, Sifted;
    forall a | a in accounts && a in before.queue
      ensures Sifted(before, after, chain, config, locals, a)
    {
      PromotedSifts(before, after, chain, config, locals, a);
    }
  }

  /** How the limits were met: the level of the pending lists, and the books after promotion. */
  datatype Cull = Cull(level: nat, promoted: Books)

  /** promoteExecutables: the accounts are promoted; the pending lists are cut to the fair level; and if the
      queue is too long, remote accounts lose their highest nonces until it fits. */
  ghost predicate Culled(before: Books, after: Books, chain: Chain, config: Config, locals: set<Address>,
                         accounts: set<Address>, cull: Cull) {
    var promoted := cull.promoted;
    && Part(promoted.all, promoted.pending, promoted.queue, {})
    && Promoted(before, promoted, chain, config, locals, accounts) && promoted.all.Keys <= before.all.Keys
    && after.pending == Level(promoted.pending, locals, cull.level)
    && FairLevel(promoted.pending, locals, config.accountSlots, config.globalSlots, cull.level)
    && (Size(promoted.pending) <= config.globalSlots ==> after.nonces == promoted.nonces)
    && Truncated(promoted.queue, after.queue, config, locals, promoted.beats)
  }

  lemma CulledNow(before: Books, after: Books, chain: Chain, config: Config, locals: set<Address>,
                  accounts: set<Address>, cull: Cull)
    requires Part(cull.promoted.all, cull.promoted.pending, cull.promoted.queue, {})
    requires Promoted(before, cull.promoted, chain, config, locals, accounts)
    requires cull.promoted.all.Keys <= before.all.Keys
    requires after.pending == Level(cull.promoted.pending, locals, cull.level)
    requires FairLevel(cull.promoted.pending, locals, config.accountSlots, config.globalSlots, cull.level)
    requires Size(cull.promoted.pending) <= config.globalSlots ==> after.nonces == cull.promoted.nonces
    requires Truncated(cull.promoted.queue, after.queue, config, locals, cull.promoted.beats)
    ensures Culled(before, after, chain, config, locals, accounts, cull)
  {
    hide Part, Promoted, FairLevel, Truncated, Level, Size;
  }

  /** Nothing is lost without a reason, and nothing gained. */
  ghost predicate LossesExcused(before: Books, after: Books, chain: Chain, config: Config, cull: Cull) {
    && (forall h :: h in before.all && h !in after.all ==>
          Excused(before.all[h], before, chain, config, before.locals, cull))
    && (forall h :: h in after.all ==> h in before.all && after.all[h] == before.all[h])
  }

  /** promoteExecutables, with its losses. */
  ghost predicate Reprocessed(before: Books, after: Books, chain: Chain, config: Config, accounts: set<Address>,
                              cull: Cull) {
    && Culled(before, after, chain, config, before.locals, accounts, cull)
    && LossesExcused(before, after, chain, config, cull) && after.locals == before.locals
    && AllSifted(before, cull.promoted, chain, config, before.locals, accounts)
  }

  /** Why promoteExecutables may lose a transaction. */
  ghost predicate Excused(tx: Tx, before: Books, chain: Chain, config: Config, locals: set<Address>, cull: Cull) {
    Spent(tx, chain) || (
      && tx.sender !in locals
      && (AboveLevel(tx, cull) || OverLimit(tx, before, chain, config) || CutBack(tx, cull, config)))
  }

  /** It was executable, but not among the lowest nonces up to the fair level. */
  ghost predicate AboveLevel(tx: Tx, cull: Cull) {
    Holds(cull.promoted.pending, tx) && cull.level <= Rank(cull.promoted.pending[tx.sender].items, tx.nonce)
  }

  /** It was queued behind as many as one account may queue. */
  ghost predicate OverLimit(tx: Tx, before: Books, chain: Chain, config: Config) {
    && Holds(before.queue, tx)
    && var ahead := Executables(before.queue[tx.sender], chain, config, tx.sender).items;
      config.accountQueue <= Rank(SortedMap.NotReady(ahead, NonceOf(before.nonces, chain, tx.sender)), tx.nonce)
  }

  /** It was queued while the whole queue was too long. */
  ghost predicate CutBack(tx: Tx, cull: Cull, config: Config) {
    Holds(cull.promoted.queue, tx) && Size(cull.promoted.queue) > config.globalQueue
  }

  /** Promoting a run that starts no later than the pool nonce, above the chain nonce, keeps all aligned. */
  lemma RunAligned(before: Lists, after: Lists, nonces: map<Address, nat>, chain: Chain, a: Address, least: nat,
                   next: nat)
    requires Contig(before, nonces, chain) && GrownBy(before, after, a, least, next)
    requires chain.nonce(a) <= least <= NonceOf(nonces, chain, a) && least < next
    requires forall m: nat :: least <= m < next ==> !Busy(before, a, m)
    ensures Contig(after, nonces[a := next], chain)
  {
    assert AlignedAt(before, nonces, chain, a);
    assert !Busy(before, a, least);
    var nonces' := nonces[a := next];
    forall b
      ensures AlignedAt(after, nonces', chain, b)
    {
      assert AlignedAt(before, nonces, chain, b);
    }
  }

  /** What is queued is not pending. */
  lemma FreePlaces(all: Lookup, pending: Lists, queue: Lists, a: Address, least: nat, next: nat)
    requires Part(all, pending, queue, {}) && a in queue && forall n: nat :: least <= n < next ==> n in queue[a].items
    ensures forall m: nat :: least <= m < next ==> !Busy(pending, a, m)
  {
    forall m: nat | least <= m < next
      ensures !Busy(pending, a, m)
    {
      assert Busy(queue, a, m);
    }
  }

  ghost predicate GrownBy(before: Lists, after: Lists, a: Address, least: nat, next: nat) {
    forall b, m: nat :: Busy(after, b, m) <==> Busy(before, b, m) || (b == a && least <= m < next)
  }

  lemma FewerAhead(items: Items, n: nat)
    requires n in items
    ensures From(items, n + 1).Keys < From(items, n).Keys
  {
    assert n in From(items, n) && n !in From(items, n + 1);
  }

  lemma FirstOfRun(items: Items, least: nat)
    requires least in items
    ensures SortedMap.Within(items, least, least + 1) == map[least := items[least]]
  {
  }

  lemma RunStep(l: List, least: nat, next: nat)
    requires least <= next && next in l.items
    ensures var out := SortedMap.Outside(l.items, least, next);
      && next in out && out[next] == l.items[next] && (least == next ==> out == l.items)
      && Without(l.(items := out), next) == l.(items := SortedMap.Outside(l.items, least, next + 1))
  {
    var out := SortedMap.Outside(l.items, least, next);
    assert least == next ==> out == l.items;
    assert out - {next} == SortedMap.Outside(l.items, least, next + 1);
  }

  /** The pending list has grown by these transactions, the others not at all. */
  ghost predicate GrownTo(before: Lists, after: Lists, a: Address, more: Items) {
    ItemsOf(after, a) == ItemsOf(before, a) + more && SameElsewhere(before, after, a)
  }

  lemma GrownOne(pending: Lists, a: Address, l: List, tx: Tx)
    requires l.items == ItemsOf(pending, a)
    ensures GrownTo(pending, pending[a := Added(l, tx)], a, map[tx.nonce := tx])
  {
    assert Added(l, tx).items == l.items + map[tx.nonce := tx];
  }

  lemma GrownMore(before: Lists, mid: Lists, after: Lists, a: Address, items: Items, least: nat, next: nat)
    requires GrownTo(before, mid, a, SortedMap.Within(items, least, next)) && least <= next && next in items
    requires GrownTo(mid, after, a, map[next := items[next]])
    ensures GrownTo(before, after, a, SortedMap.Within(items, least, next + 1))
  {
    var run, more := SortedMap.Within(items, least, next), map[next := items[next]];
    assert run + more == SortedMap.Within(items, least, next + 1);
    MapsAdd(ItemsOf(before, a), run, more);
  }

  lemma MapsAdd(a: Items, b: Items, c: Items)
    ensures a + b + c == a + (b + c)
  {
  }

  lemma GrownBusy(before: Lists, after: Lists, a: Address, items: Items, least: nat, next: nat)
    requires GrownTo(before, after, a, SortedMap.Within(items, least, next))
    requires forall n: nat :: least <= n < next ==> n in items
    ensures GrownBy(before, after, a, least, next)
  {
    forall b, m: nat
      ensures Busy(after, b, m) <==> Busy(before, b, m) || (b == a && least <= m < next)
    {
      assert Busy(after, a, m) <==> m in ItemsOf(after, a);
      assert Busy(before, a, m) <==> m in ItemsOf(before, a);
    }
  }

  /** promoteExecutables loses no transaction without such a reason. */
  lemma CulledLoses(before: Books, after: Books, chain: Chain, config: Config, locals: set<Address>,
                    accounts: set<Address>, cull: Cull)
    requires Part(before.all, before.pending, before.queue, {}) && Part(after.all, after.pending, after.queue, {})
    requires Culled(before, after, chain, config, locals, accounts, cull)
    ensures forall h :: h in before.all && h !in after.all ==>
      Excused(before.all[h], before, chain, config, locals, cull)
  {
    forall h | h in before.all && h !in after.all
      ensures Excused(before.all[h], before, chain, config, locals, cull)
    {
      LostHash(before, after, h);
      CulledOne(before, after, chain, config, locals, accounts, cull, before.all[h]);
    }
  }

  /** Who is not in the lookup any more is in neither map. */
  lemma LostHash(before: Books, after: Books, h: nat)
    requires Part(before.all, before.pending, before.queue, {}) && Part(after.all, after.pending, after.queue, {})
    requires h in before.all && h !in after.all
    ensures var tx := before.all[h];
      !Holds(after.pending, tx) && !Holds(after.queue, tx) && (Holds(before.pending, tx) || Holds(before.queue, tx))
  {
  }

  lemma CulledOne(before: Books, after: Books, chain: Chain, config: Config, locals: set<Address>,
                  accounts: set<Address>, cull: Cull, tx: Tx)
    requires Part(before.all, before.pending, before.queue, {})
    requires Culled(before, after, chain, config, locals, accounts, cull)
    requires !Holds(after.pending, tx) && !Holds(after.queue, tx)
    requires Holds(before.pending, tx) || Holds(before.queue, tx)
    ensures Excused(tx, before, chain, config, locals, cull)
  {
    hide Part, FairLevel, Size, Truncated, Promoted;
    if Holds(cull.promoted.pending, tx) {
      LeveledOut(after, locals, cull, tx);
    } else if Holds(cull.promoted.queue, tx) {
      TruncatedOut(after, config, locals, cull, tx);
    } else {
      NotPromoted(before, cull.promoted, chain, config, locals, accounts, tx);
    }
  }

  lemma LeveledOut(after: Books, locals: set<Address>, cull: Cull, tx: Tx)
    requires after.pending == Level(cull.promoted.pending, locals, cull.level)
    requires Holds(cull.promoted.pending, tx) && !Holds(after.pending, tx)
    ensures tx.sender !in locals && AboveLevel(tx, cull)
  {
  }

  lemma TruncatedOut(after: Books, config: Config, locals: set<Address>, cull: Cull, tx: Tx)
    requires Truncated(cull.promoted.queue, after.queue, config, locals, cull.promoted.beats)
    requires Holds(cull.promoted.queue, tx) && !Holds(after.queue, tx)
    ensures tx.sender !in locals && CutBack(tx, cull, config)
  {
  }

  /** What promotion itself does not carry over is spent or over the limit of its account. */
  lemma NotPromoted(before: Books, after: Books, chain: Chain, config: Config, locals: set<Address>,
                    accounts: set<Address>, tx: Tx)
    requires Part(before.all, before.pending, before.queue, {})
    requires Promoted(before, after, chain, config, locals, accounts)
    requires Holds(before.pending, tx) || Holds(before.queue, tx)
    requires !Holds(after.pending, tx) && !Holds(after.queue, tx)
    ensures Spent(tx, chain) || (tx.sender !in locals && OverLimit(tx, before, chain, config))
  {
    var a := tx.sender;
    if a in accounts && a in before.queue {
      assert PromotedAt(before, after, chain, config, locals, a);
      FiledList(before.all, before.pending, before.queue, a);
      PendingStays(before, after, chain, config, locals, tx);
      QueuedMoves(before, after, chain, config, locals, tx);
    }
  }

  lemma PendingStays(before: Books, after: Books, chain: Chain, config: Config, locals: set<Address>, tx: Tx)
    requires Part(before.all, before.pending, before.queue, {}) && tx.sender in before.queue
    requires PromotedAt(before, after, chain, config, locals, tx.sender)
    ensures Holds(before.pending, tx) ==> Holds(after.pending, tx)
  {
    var a, n := tx.sender, tx.nonce;
    ExecutablesSub(before.queue[a], chain, config, a);
    if Holds(before.pending, tx) {
      assert Busy(before.pending, a, n) && !Busy(before.queue, a, n);
      assert n !in ReadyItems(before.queue[a], NonceOf(before.nonces, chain, a), chain, config, a);
      assert ItemsOf(after.pending, a)[n] == tx;
    }
  }

  lemma ExecutablesSub(l: List, chain: Chain, config: Config, a: Address)
    ensures forall n :: n in Executables(l, chain, config, a).items ==>
      n in l.items && Executables(l, chain, config, a).items[n] == l.items[n]
  {
  }

  lemma QueuedMoves(before: Books, after: Books, chain: Chain, config: Config, locals: set<Address>, tx: Tx)
    requires Holds(before.queue, tx) ==> Good(before.queue[tx.sender]) && !before.queue[tx.sender].strict
    requires tx.sender in before.queue && PromotedAt(before, after, chain, config, locals, tx.sender)
    requires !Holds(after.pending, tx) && !Holds(after.queue, tx)
    ensures Holds(before.queue, tx) ==>
      Spent(tx, chain) || (tx.sender !in locals && OverLimit(tx, before, chain, config))
  {
    if Holds(before.queue, tx) {
      var a, n := tx.sender, tx.nonce;
      var l, nonce := before.queue[a], NonceOf(before.nonces, chain, a);
      var ahead := Executables(l, chain, config, a);
      ExecutablesSub(l, chain, config, a);
      if n !in ahead.items {
        UnexecutableSpent(l, chain, config, tx);
      } else {
        ReadyMoves(ItemsOf(before.pending, a), ahead.items, nonce, n);
        var left := ahead.(items := SortedMap.NotReady(ahead.items, nonce));
        assert !Ready(ahead.items, nonce, n) && n in left.items;
        LimitedOut(after.queue, left, config, locals, tx);
      }
    }
  }

  lemma ReadyMoves(items: Items, ahead: Items, nonce: nat, n: nat)
    requires n in ahead
    ensures var grown := items + SortedMap.AllReady(ahead, nonce);
      Ready(ahead, nonce, n) ==> n in grown && grown[n] == ahead[n]
  {
  }

  lemma LimitedOut(queue: Lists, left: List, config: Config, locals: set<Address>, tx: Tx)
    requires Has(queue, tx.sender, Limited(left, config, locals, tx.sender)) && tx.nonce in left.items
    requires left.items[tx.nonce] == tx
    requires !Holds(queue, tx)
    ensures tx.sender !in locals && config.accountQueue <= Rank(left.items, tx.nonce)
  {
    var kept := Limited(left, config, locals, tx.sender);
    assert tx.nonce !in kept.items;
    assert tx.sender !in locals ==> kept.items == Lowest(left.items, config.accountQueue);
  }

  lemma UnexecutableSpent(l: List, chain: Chain, config: Config, tx: Tx)
    requires Good(l) && !l.strict && tx.nonce in l.items && l.items[tx.nonce] == tx
    requires tx.nonce !in Executables(l, chain, config, tx.sender).items
    ensures Spent(tx, chain)
  {
    FilterIsScan(Forward(l, chain.nonce(tx.sender)), chain.balance(tx.sender), chain.maxGas);
  }
}
