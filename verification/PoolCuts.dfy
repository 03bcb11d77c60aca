/** How the limits are met: which accounts lose transactions, in which order, and how many. */
module PoolCuts {
  import opened TxList
  import opened PoolState
  import opened PoolLevels
  import opened PoolSpec

  /** Both are remote accounts with queued lists, the second with the later heartbeat. */
  ghost predicate Earlier(queue: Lists, locals: set<Address>, beats: map<Address, nat>, a: Address, b: Address) {
    a in queue && b in queue && a !in locals && b !in locals && BeatOf(beats, a) < BeatOf(beats, b)
  }

  /** Who has a later heartbeat than an account that lost queued transactions has lost them all. */
  ghost predicate LatestFirst(before: Lists, after: Lists, locals: set<Address>, beats: map<Address, nat>) {
    forall a, b ::
      Earlier(before, locals, beats, a, b) && !SameAt(before, after, a) ==> ItemsOf(after, b) == map[]
  }

  lemma LatestCut(before: Lists, after: Lists, locals: set<Address>, beats: map<Address, nat>)
    requires LatestFirst(before, after, locals, beats)
    ensures forall a, b ::
      a in before && b in before && a !in locals && b !in locals && ItemsOf(after, b) != map[] ==>
      BeatOf(beats, a) < BeatOf(beats, b) ==> SameAt(before, after, a)
  {
    forall a, b | a in before && b in before && a !in locals && b !in locals && BeatOf(beats, a) < BeatOf(beats, b)
      ensures ItemsOf(after, b) != map[] ==> SameAt(before, after, a)
    {
      assert Earlier(before, locals, beats, a, b);
    }
  }

  /** If the queue is too long, remote accounts lose their highest nonces, the latest heartbeat first, until it fits. */
  ghost predicate Truncated(before: Lists, after: Lists, config: Config, locals: set<Address>,
                            beats: map<Address, nat>) {
    && Shortened(before, after, locals) && LatestFirst(before, after, locals, beats)
    && (Size(before) <= config.globalQueue ==> after == before)
    && (Size(before) > config.globalQueue ==> Size(after) >= config.globalQueue)
    && (Size(after) <= config.globalQueue || Remaining(after, locals, {}))
  }

  /** The offenders so far, all with lists of at least that length. */
  ghost predicate Leading(start: Lists, locals: set<Address>, level: nat, offenders: seq<Address>) {
    Distinct(offenders) && forall a :: a in offenders ==> Reaching(start, locals, level, a)
  }

  /** The accounts over their slots are the offenders so far and those still in the queue of offenders. */
  ghost predicate Waiting(start: Lists, locals: set<Address>, slots: nat, level: nat, offenders: seq<Address>,
                          spammers: set<Address>) {
    && (forall a :: a in spammers ==> Over(start, locals, slots, a) && |start[a].items| <= level && a !in offenders)
    && (forall a :: Over(start, locals, slots, a) ==> a in offenders || a in spammers)
  }

  lemma NobodyLeads(start: Lists, locals: set<Address>, slots: nat, level: nat, spammers: set<Address>)
    requires forall a :: a in spammers <==> Over(start, locals, slots, a)
    requires forall a :: a in start ==> |start[a].items| <= level
    ensures Leading(start, locals, level, []) && Waiting(start, locals, slots, level, [], spammers)
  {
  }

  lemma WholeLists(start: Lists, locals: set<Address>, slots: nat, level: nat, offenders: seq<Address>,
                   spammers: set<Address>)
    requires Waiting(start, locals, slots, level, offenders, spammers)
    ensures forall a :: a in spammers ==>
      a in Level(start, locals, level) && |Level(start, locals, level)[a].items| == |start[a].items|
  {
    forall a | a in spammers
      ensures a in Level(start, locals, level) && |Level(start, locals, level)[a].items| == |start[a].items|
    {
      assert Over(start, locals, slots, a);
      LevelSizes(start, locals, level, a);
    }
  }

  /** Nobody but the offenders so far is over the length of the next one. */
  lemma NextWaiting(start: Lists, locals: set<Address>, slots: nat, level: nat, offenders: seq<Address>,
                    spammers: set<Address>, a: Address)
    requires Waiting(start, locals, slots, level, offenders, spammers) && a in spammers
    requires forall b :: b in spammers ==> b in start
    requires a in start && forall b :: b in spammers ==> |start[b].items| <= |start[a].items|
    ensures slots < |start[a].items| <= level
    ensures forall b :: Over(start, locals, |start[a].items|, b) ==> b in offenders
  {
    assert Over(start, locals, slots, a);
    forall b | Over(start, locals, |start[a].items|, b)
      ensures b in offenders
    {
      assert Over(start, locals, slots, b);
    }
  }

  lemma NowLeading(start: Lists, locals: set<Address>, slots: nat, before: nat, level: nat, offenders: seq<Address>,
                   spammers: set<Address>, a: Address)
    requires Waiting(start, locals, slots, before, offenders, spammers) && a in spammers && a in start
    requires Leading(start, locals, before, offenders) && |start[a].items| <= level <= before
    requires forall b :: b in spammers ==> b in start && |start[b].items| <= |start[a].items|
    ensures Waiting(start, locals, slots, level, offenders + [a], spammers - {a})
    ensures level == |start[a].items| ==> Leading(start, locals, level, offenders + [a])
  {
    assert Over(start, locals, slots, a);
  }

  /** Offenders that lead at one level and include all over a floor are those that reach the levels between. */
  lemma AllReaching(start: Lists, locals: set<Address>, floor: nat, level: nat, e: nat, offenders: seq<Address>)
    requires floor < level <= e && forall a :: a in offenders ==> Reaching(start, locals, e, a)
    requires forall a :: Over(start, locals, floor, a) ==> a in offenders
    ensures forall a :: a in offenders <==> Reaching(start, locals, level, a)
  {
    forall a | Reaching(start, locals, level, a)
      ensures a in offenders
    {
      assert Over(start, locals, floor, a);
    }
  }

  lemma NowJustified(start: Lists, locals: set<Address>, globalSlots: nat, e: nat)
    requires 0 < e && Size(Level(start, locals, e)) > globalSlots
    ensures Justified(start, locals, globalSlots, e - 1)
  {
  }

  lemma NowFair(start: Lists, locals: set<Address>, accountSlots: nat, globalSlots: nat, e: nat)
    requires Justified(start, locals, globalSlots, e) && accountSlots <= e
    requires Size(Level(start, locals, e)) <= globalSlots || e == accountSlots
    ensures FairLevel(start, locals, accountSlots, globalSlots, e)
  {
  }

  lemma NeedsNothing(start: Lists, locals: set<Address>, globalSlots: nat, e: nat)
    requires Level(start, locals, e) == start
    ensures Justified(start, locals, globalSlots, e)
  {
  }

  lemma LevelKeys(start: Lists, locals: set<Address>, e: nat)
    ensures Level(start, locals, e).Keys == start.Keys
  {
  }

  lemma PrunedSize(m: Lists, a: Address)
    requires a in m
    ensures Size(Pruned(m, a)) == Size(m)
  {
    if m[a].items == map[] {
      SizeDropEmpty(m, a);
    }
  }

  /** The remote accounts whose queued lists have not been looked at. */
  ghost predicate Awaiting(start: Lists, queue: Lists, locals: set<Address>, addresses: set<Address>) {
    forall a :: a in addresses ==> a in queue && a in start && a !in locals && queue[a] == start[a]
  }

  /** Only locals and these accounts have transactions left. */
  ghost predicate Remaining(queue: Lists, locals: set<Address>, addresses: set<Address>) {
    forall a :: a in queue && queue[a].items != map[] ==> a in locals || a in addresses
  }

  lemma AllRemain(queue: Lists, locals: set<Address>, addresses: set<Address>)
    requires forall a :: a in queue && a !in locals ==> a in addresses
    ensures Remaining(queue, locals, addresses)
  {
  }

  lemma EmptyRemains(queue: Lists, locals: set<Address>, addresses: set<Address>, a: Address)
    requires a in queue
    ensures Remaining(queue, locals, addresses) && |queue[a].items| == 0 ==> Remaining(queue, locals, addresses - {a})
  {
  }

  lemma TruncateStep(start: Lists, queue: Lists, locals: set<Address>, addresses: set<Address>, a: Address, l: List)
    requires Awaiting(start, queue, locals, addresses) && a in addresses
    ensures SameElsewhere(queue, Pruned(queue[a := l], a), a)
    ensures Awaiting(start, Pruned(queue[a := l], a), locals, addresses - {a})
    ensures Remaining(queue, locals, addresses) && |l.items| == 0 ==>
      Remaining(Pruned(queue[a := l], a), locals, addresses - {a})
  {
  }

  /** No account still to come has a later heartbeat than one that was looked at. */
  ghost predicate InOrder(start: Lists, locals: set<Address>, beats: map<Address, nat>, addresses: set<Address>) {
    forall a, b :: a in addresses && b in start && b !in locals && b !in addresses ==>
      BeatOf(beats, a) <= BeatOf(beats, b)
  }

  lemma NobodyCut(start: Lists, locals: set<Address>, beats: map<Address, nat>, addresses: set<Address>)
    requires forall a :: a in start && a !in locals ==> a in addresses
    ensures LatestFirst(start, start, locals, beats) && InOrder(start, locals, beats, addresses)
  {
  }

  lemma NextInOrder(start: Lists, locals: set<Address>, beats: map<Address, nat>, addresses: set<Address>, a: Address)
    requires InOrder(start, locals, beats, addresses) && a in addresses
    requires forall b :: b in addresses ==> BeatOf(beats, b) <= BeatOf(beats, a)
    ensures InOrder(start, locals, beats, addresses - {a})
  {
  }

  lemma LatestStep(start: Lists, queue: Lists, after: Lists, locals: set<Address>, beats: map<Address, nat>,
                   addresses: set<Address>, a: Address)
    requires LatestFirst(start, queue, locals, beats) && InOrder(start, locals, beats, addresses)
    requires Awaiting(start, queue, locals, addresses) && Remaining(queue, locals, addresses) && a in addresses
    requires forall b :: b in addresses ==> BeatOf(beats, b) <= BeatOf(beats, a)
    requires SameElsewhere(queue, after, a)
    ensures LatestFirst(start, after, locals, beats)
  {
    forall c, b | Earlier(start, locals, beats, c, b) && !SameAt(start, after, c)
      ensures ItemsOf(after, b) == map[]
    {
      if c == a {
        assert b !in addresses && b != a;
      } else {
        assert !SameAt(start, queue, c) && c !in addresses;
      }
    }
  }

  /** A remote account without a heartbeat within the lifetime; one without any heartbeat is always expired. */
  predicate Expired(locals: set<Address>, beats: map<Address, nat>, now: nat, lifetime: nat, a: Address) {
    a !in locals && (a in beats ==> beats[a] + lifetime < now)
  }

  /** The expired accounts have nothing queued, the others what they had. */
  ghost predicate Evicted(before: Lists, after: Lists, locals: set<Address>, beats: map<Address, nat>, now: nat,
                          lifetime: nat, left: set<Address>) {
    forall a ::
      if a !in left && Expired(locals, beats, now, lifetime, a) then ItemsOf(after, a) == map[]
      else SameAt(before, after, a)
  }

  lemma EvictedWho(before: Lists, after: Lists, locals: set<Address>, beats: map<Address, nat>, now: nat, lifetime: nat)
    requires Evicted(before, after, locals, beats, now, lifetime, {})
    ensures forall a ::
      if a in locals || (a in beats && now <= beats[a] + lifetime) then SameAt(before, after, a)
      else ItemsOf(after, a) == map[]
  {
  }

  lemma NobodyEvicted(queue: Lists, locals: set<Address>, beats: map<Address, nat>, now: nat, lifetime: nat)
    ensures Evicted(queue, queue, locals, beats, now, lifetime, queue.Keys)
  {
  }

  lemma EvictedMore(before: Lists, mid: Lists, after: Lists, locals: set<Address>, beats: map<Address, nat>, now: nat,
                    lifetime: nat, left: set<Address>, a: Address)
    requires Evicted(before, mid, locals, beats, now, lifetime, left) && a in left && SameElsewhere(mid, after, a)
    requires if Expired(locals, beats, now, lifetime, a) then ItemsOf(after, a) == map[] else after == mid
    ensures Evicted(before, after, locals, beats, now, lifetime, left - {a})
  {
  }

  lemma EvictedBusy(before: Lists, after: Lists, locals: set<Address>, beats: map<Address, nat>, now: nat,
                    lifetime: nat)
    requires Evicted(before, after, locals, beats, now, lifetime, {})
    ensures forall a, n: nat :: Busy(after, a, n) ==> Busy(before, a, n)
  {
    forall a, n: nat | Busy(after, a, n)
      ensures Busy(before, a, n)
    {
      assert n in ItemsOf(after, a);
    }
  }

  lemma EmptyCap(m: Lists, a: Address)
    requires a in m
    ensures ItemsOf(Pruned(m[a := Cap(m[a], 0)], a), a) == map[] && SameElsewhere(m, Pruned(m[a := Cap(m[a], 0)], a), a)
  {
    assert Cap(m[a], 0).items == map[];
  }

  /** The account with the latest heartbeat. */
  method Latest(accounts: set<Address>, beats: map<Address, nat>) returns (a: Address)
    requires accounts != {}
    ensures a in accounts && forall b :: b in accounts ==> BeatOf(beats, b) <= BeatOf(beats, a)
  {
    a :| a in accounts;
    var rest := accounts - {a};
    while rest != {}
      invariant rest <= accounts && a in accounts
      invariant forall b :: b in accounts && b !in rest ==> BeatOf(beats, b) <= BeatOf(beats, a)
      decreases rest
    {
      var b :| b in rest;
      if BeatOf(beats, a) < BeatOf(beats, b) {
        a := b;
      }
      rest := rest - {b};
    }
  }

  /** The latest accounts have been cut, and those in `addresses` are still to come. */
  ghost predicate Cutting(start: Lists, queue: Lists, locals: set<Address>, beats: map<Address, nat>,
                          addresses: set<Address>) {
    && Awaiting(start, queue, locals, addresses) && InOrder(start, locals, beats, addresses)
    && Shortened(start, queue, locals) && LatestFirst(start, queue, locals, beats)
  }

  lemma CuttingBegins(start: Lists, locals: set<Address>, beats: map<Address, nat>, addresses: set<Address>)
    requires forall a :: a in addresses <==> a in start && a !in locals
    ensures Cutting(start, start, locals, beats, addresses) && Remaining(start, locals, addresses)
  {
    WholeShortened(start, locals);
    NobodyCut(start, locals, beats, addresses);
    AllRemain(start, locals, addresses);
  }

  lemma CuttingHolds(start: Lists, queue: Lists, locals: set<Address>, beats: map<Address, nat>,
                     addresses: set<Address>, a: Address)
    requires Cutting(start, queue, locals, beats, addresses) && a in addresses
    ensures a in queue && a !in locals
  {
  }

  lemma CuttingSkips(start: Lists, queue: Lists, locals: set<Address>, beats: map<Address, nat>,
                     addresses: set<Address>, a: Address)
    requires Cutting(start, queue, locals, beats, addresses) && a in addresses
    requires forall b :: b in addresses ==> BeatOf(beats, b) <= BeatOf(beats, a)
    ensures Cutting(start, queue, locals, beats, addresses - {a})
  {
    hide LatestFirst, Shortened;
    NextInOrder(start, locals, beats, addresses, a);
  }

  lemma CuttingStep(start: Lists, queue: Lists, locals: set<Address>, beats: map<Address, nat>,
                    addresses: set<Address>, a: Address, k: nat)
    requires Cutting(start, queue, locals, beats, addresses) && a in addresses && a in queue
    requires Remaining(queue, locals, addresses)
    requires forall b :: b in addresses ==> BeatOf(beats, b) <= BeatOf(beats, a)
    ensures Cutting(start, Pruned(queue[a := Cap(queue[a], k)], a), locals, beats, addresses - {a})
    ensures |Cap(queue[a], k).items| == 0 ==>
      Remaining(Pruned(queue[a := Cap(queue[a], k)], a), locals, addresses - {a})
  {
    hide LatestFirst, Shortened, Lowest, InOrder, Pruned, BeatOf, Remaining;
    var after := Pruned(queue[a := Cap(queue[a], k)], a);
    TruncateStep(start, queue, locals, addresses, a, Cap(queue[a], k));
    NextInOrder(start, locals, beats, addresses, a);
    ShortenStep(start, queue, locals, a, k);
    LatestStep(start, queue, after, locals, beats, addresses, a);
  }

  lemma CuttingEnds(start: Lists, queue: Lists, locals: set<Address>, beats: map<Address, nat>, addresses: set<Address>)
    requires Cutting(start, queue, locals, beats, addresses)
    ensures Shortened(start, queue, locals) && LatestFirst(start, queue, locals, beats)
  {
  }

  lemma PrunedTwice(m: Lists, a: Address, l: List, k: List)
    ensures m[a := l][a := k] == m[a := k] && SameElsewhere(m, m[a := l], a)
  {
  }

  lemma PrunedAgain(m: Lists, a: Address, l: List, k: List)
    requires a in m
    ensures l.items != map[] ==> a in Pruned(m[a := l], a) && Pruned(m[a := l], a)[a] == l
    ensures l.items != map[] ==> Pruned(Pruned(m[a := l], a)[a := k], a) == Pruned(m[a := k], a)
    ensures Pruned(m[a := m[a]], a) == Pruned(m, a)
  {
    assert m[a := l][a := k] == m[a := k] && m[a := m[a]] == m;
  }

  lemma ShortenedAgain(m: Lists, a: Address, k: nat)
    requires a in m && 0 < k <= |m[a].items|
    ensures var m' := Pruned(m[a := Cap(m[a], k)], a);
      && a in m' && m'[a] == Cap(m[a], k) && Pruned(m'[a := Cap(m[a], k - 1)], a) == Pruned(m[a := Cap(m[a], k - 1)], a)
    ensures k == |m[a].items| ==> Cap(m[a], k) == m[a] && m == Pruned(m[a := Cap(m[a], k)], a)
  {
    KeepsAll(m[a].items, |m[a].items|);
    LowestSize(m[a].items, k);
    PrunedAgain(m, a, Cap(m[a], k), Cap(m[a], k - 1));
    assert k == |m[a].items| ==> m[a := Cap(m[a], k)] == m;
  }

  lemma ShortenedSize(m: Lists, a: Address, k: nat)
    requires a in m && k <= |m[a].items|
    ensures Size(Pruned(m[a := Cap(m[a], |m[a].items| - k)], a)) == Size(m) - k
  {
    var l := Cap(m[a], |m[a].items| - k);
    LowestSize(m[a].items, |m[a].items| - k);
    SizeUpdate(m, a, l);
    PrunedSize(m[a := l], a);
  }

  ghost predicate Prefixed(l: List, short: List) {
    exists k: nat :: short == Cap(l, k)
  }

  /** Every list kept its lowest nonces, those of locals all. */
  ghost predicate Shortened(before: Lists, after: Lists, locals: set<Address>) {
    && (forall a :: a in after ==> a in before && Prefixed(before[a], after[a]))
    && (forall a :: a in locals && a in before ==> a in after && after[a] == before[a])
  }

  lemma WholeShortened(m: Lists, locals: set<Address>)
    ensures Shortened(m, m, locals)
  {
    forall a | a in m
      ensures Prefixed(m[a], m[a])
    {
      KeepsAll(m[a].items, |m[a].items|);
      assert m[a] == Cap(m[a], |m[a].items|);
    }
  }

  lemma ShortenStep(start: Lists, m: Lists, locals: set<Address>, a: Address, k: nat)
    requires Shortened(start, m, locals) && a in m && a in start && m[a] == start[a] && a !in locals
    ensures Shortened(start, Pruned(m[a := Cap(m[a], k)], a), locals)
  {
    assert Prefixed(start[a], Cap(m[a], k));
  }

  lemma Shorter(before: Lists, after: Lists, locals: set<Address>)
    requires Shortened(before, after, locals)
    ensures forall b, n: nat :: Busy(after, b, n) ==> Busy(before, b, n)
  {
  }
}
