/** How many transactions the pool holds, and that few of them are never cut. */
module PoolSizes {
  import opened TxList
  import opened PoolState
  import opened PoolLevels
  import opened PoolSpec
  import opened PoolCuts
  import opened PoolPromote

  lemma {:induction false} LevelAtMost(start: Lists, locals: set<Address>, e: nat)
    ensures Size(Level(start, locals, e)) <= Size(start)
  {
    LevelKeys(start, locals, e);
    forall a | a in start
      ensures |Level(start, locals, e)[a].items| <= |start[a].items|
    {
      LowestSize(start[a].items, e);
    }
    TotalAtMost(start.Keys, Level(start, locals, e), start);
  }

  /** With few enough pending transactions none is cut. */
  lemma NoneCut(start: Lists, locals: set<Address>, config: Config, level: nat)
    requires FairLevel(start, locals, config.accountSlots, config.globalSlots, level)
    requires Size(start) <= config.globalSlots
    ensures Level(start, locals, level) == start
  {
    LevelAtMost(start, locals, level + 1);
  }

  /** The hashes of the transactions in the lists of these accounts. */
  ghost function HashesOf(keys: set<Address>, m: Lists): set<nat>
    requires keys <= m.Keys
  {
    set a, n | a in keys && n in m[a].items :: m[a].items[n].hash
  }

  /** Hashes tell the transactions in the lists apart. */
  ghost predicate Apart(m: Lists) {
    forall a, b, n, k ::
      a in m && b in m && n in m[a].items && k in m[b].items && m[a].items[n].hash == m[b].items[k].hash ==>
        a == b && n == k
  }

  ghost function HashSet(items: Items): set<nat> {
    set n | n in items :: items[n].hash
  }

  lemma {:induction false} HashesOne(items: Items)
    requires forall n, k :: n in items && k in items && items[n].hash == items[k].hash ==> n == k
    ensures |HashSet(items)| == |items|
  {
    if items == map[] {
      assert HashSet(items) == {};
    } else {
      var n :| n in items;
      var rest := items - {n};
      HashesOne(rest);
      FewerKeys(items, n);
      forall k | k in items
        ensures items[k].hash in HashSet(rest) + {items[n].hash}
      {
        assert k != n ==> rest[k].hash in HashSet(rest);
      }
      assert HashSet(items) == HashSet(rest) + {items[n].hash};
    }
  }

  lemma {:induction false} HashesCount(keys: set<Address>, m: Lists)
    requires keys <= m.Keys && Apart(m)
    ensures |HashesOf(keys, m)| == Total(keys, m)
  {
    if keys == {} {
      assert HashesOf(keys, m) == {};
    } else {
      var a :| a in keys;
      TotalWithout(keys, m, a);
      HashesCount(keys - {a}, m);
      HashesOne(m[a].items);
      HashesSplit(keys, m, a);
    }
  }

  lemma HashesSplit(keys: set<Address>, m: Lists, a: Address)
    requires keys <= m.Keys && Apart(m) && a in keys
    ensures HashesOf(keys, m) == HashesOf(keys - {a}, m) + HashSet(m[a].items)
    ensures HashesOf(keys - {a}, m) !! HashSet(m[a].items)
  {
  }

  lemma FiledApart(all: Lookup, m: Lists, strict: bool)
    requires Filed(m, strict) && forall tx :: Holds(m, tx) ==> tx.hash in all && all[tx.hash] == tx
    ensures Apart(m) && HashesOf(m.Keys, m) <= all.Keys
  {
    forall a, n | a in m && n in m[a].items
      ensures var tx := m[a].items[n]; tx.hash in all && all[tx.hash] == tx && tx.sender == a && tx.nonce == n
    {
      assert FiledAt(m, a, strict) && Holds(m, m[a].items[n]);
    }
  }

  lemma PartApart(all: Lookup, pending: Lists, queue: Lists)
    requires Part(all, pending, queue, {})
    ensures Apart(pending) && Apart(queue)
  {
    FiledApart(all, pending, true);
    FiledApart(all, queue, false);
  }

  /** The pool holds what is pending and what is queued. */
  lemma SizesAdd(all: Lookup, pending: Lists, queue: Lists)
    requires Part(all, pending, queue, {})
    ensures Size(pending) + Size(queue) == |all|
  {
    hide Part, HashesOf, Apart;
    PartApart(all, pending, queue);
    HashesCount(pending.Keys, pending);
    HashesCount(queue.Keys, queue);
    TwoPlaces(all, pending, queue);
    TwoParts(all, HashesOf(pending.Keys, pending), HashesOf(queue.Keys, queue));
  }

  lemma TwoParts(all: Lookup, up: set<nat>, down: set<nat>)
    requires forall h :: (h in all <==> h in up || h in down) && !(h in up && h in down)
    ensures |up| + |down| == |all|
  {
    assert all.Keys == up + down && up !! down;
    assert |all| == |all.Keys|;
  }

  lemma TwoPlaces(all: Lookup, pending: Lists, queue: Lists)
    requires Part(all, pending, queue, {})
    ensures var up, down := HashesOf(pending.Keys, pending), HashesOf(queue.Keys, queue);
      forall h :: (h in all <==> h in up || h in down) && !(h in up && h in down)
  {
    hide HashesOf;
    var up, down := HashesOf(pending.Keys, pending), HashesOf(queue.Keys, queue);
    forall h
      ensures (h in all <==> h in up || h in down) && !(h in up && h in down)
    {
      HashPlace(all, pending, queue, h);
    }
  }

  lemma HashPlace(all: Lookup, pending: Lists, queue: Lists, h: nat)
    requires Part(all, pending, queue, {})
    ensures h in HashesOf(pending.Keys, pending) <==> h in all && Holds(pending, all[h])
    ensures h in HashesOf(queue.Keys, queue) <==> h in all && Holds(queue, all[h])
    ensures h in all ==> (Holds(pending, all[h]) <==> !Holds(queue, all[h]))
  {
    if h in HashesOf(pending.Keys, pending) {
      var a, n :| a in pending && n in pending[a].items && pending[a].items[n].hash == h;
      assert FiledAt(pending, a, true) && Holds(pending, pending[a].items[n]);
    }
    if h in HashesOf(queue.Keys, queue) {
      var a, n :| a in queue && n in queue[a].items && queue[a].items[n].hash == h;
      assert FiledAt(queue, a, false) && Holds(queue, queue[a].items[n]);
    }
    if h in all && Holds(pending, all[h]) && Holds(queue, all[h]) {
      assert Busy(pending, all[h].sender, all[h].nonce) && Busy(queue, all[h].sender, all[h].nonce);
    }
  }

  lemma FewerHashes(before: Lookup, after: Lookup)
    requires forall h :: h in after ==> h in before
    ensures |after| <= |before|
  {
    TxList.Subset(after.Keys, before.Keys);
    assert |after| == |after.Keys| && |before| == |before.Keys|;
  }

  /** Few transactions in the pool are few pending ones. */
  lemma CulledFits(before: Books, after: Books, chain: Chain, config: Config, locals: set<Address>,
                   accounts: set<Address>, cull: Cull)
    requires Culled(before, after, chain, config, locals, accounts, cull) && |before.all| <= config.globalSlots
    ensures Size(cull.promoted.pending) <= config.globalSlots
  {
    hide Part, Promoted, Truncated, FairLevel, Size;
    SizesAdd(cull.promoted.all, cull.promoted.pending, cull.promoted.queue);
    FewerHashes(before.all, cull.promoted.all);
  }

  lemma NotAbove(cull: Cull, locals: set<Address>, tx: Tx)
    requires Level(cull.promoted.pending, locals, cull.level) == cull.promoted.pending && tx.sender !in locals
    ensures !AboveLevel(tx, cull)
  {
    if Holds(cull.promoted.pending, tx) {
      var l := cull.promoted.pending[tx.sender];
      assert Level(cull.promoted.pending, locals, cull.level)[tx.sender] == l;
      assert tx.nonce in Lowest(l.items, cull.level);
    }
  }

  /** While the pool is within its limits, promotion loses only spent transactions and those over the queue limit of
      a remote account. */
  lemma RoomyLoses(before: Books, after: Books, chain: Chain, config: Config, accounts: set<Address>, cull: Cull)
    requires Reprocessed(before, after, chain, config, accounts, cull)
    requires |before.all| <= config.globalSlots && |before.all| <= config.globalQueue
    ensures forall h :: h in before.all && h !in after.all ==>
      var tx := before.all[h]; Spent(tx, chain) || (tx.sender !in before.locals && OverLimit(tx, before, chain, config))
  {
    hide Part, Promoted, Truncated, FairLevel, Level, Size, OverLimit, Spent, AboveLevel;
    SizesAdd(cull.promoted.all, cull.promoted.pending, cull.promoted.queue);
    FewerHashes(before.all, cull.promoted.all);
    NoneCut(cull.promoted.pending, before.locals, config, cull.level);
    forall h | h in before.all && h !in after.all
      ensures var tx := before.all[h];
        Spent(tx, chain) || (tx.sender !in before.locals && OverLimit(tx, before, chain, config))
    {
      var tx := before.all[h];
      assert Excused(tx, before, chain, config, before.locals, cull);
      if tx.sender !in before.locals {
        NotAbove(cull, before.locals, tx);
      }
    }
  }
}
