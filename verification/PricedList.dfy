/** txPricedList: a price heap that keeps stale entries and still answers like a full scan. */
module PricedList {
  import opened TxList
  import opened Heap

  type Lookup = map<nat, Tx>

  /** priceHeap.Less: cheaper first, and among equal prices the higher nonce first. */
  predicate PriceLess(a: Tx, b: Tx) {
    a.price < b.price || (a.price == b.price && a.nonce > b.nonce)
  }

  lemma PriceOrder()
    ensures WeakOrder(PriceLess)
  {
  }

  /** The pool's lookup files transactions under their own hashes, and hashes do not collide. */
  ghost predicate Hashed(all: Lookup, items: seq<Tx>) {
    && (forall h :: h in all ==> all[h].hash == h)
    && (forall i :: 0 <= i < |items| && items[i].hash in all ==> all[items[i].hash] == items[i])
  }

  predicate Live(all: Lookup, tx: Tx) {
    tx.hash in all
  }

  /** Every live transaction has an entry in the heap. */
  ghost predicate Covered(all: Lookup, items: seq<Tx>) {
    forall h :: h in all ==> all[h] in items
  }

  ghost predicate Distinct(items: seq<Tx>) {
    forall i, j :: 0 <= i < j < |items| ==> items[i] != items[j]
  }

  class Priced {
    var items: seq<Tx>
    var stales: int

    ghost predicate Valid(all: Lookup)
      reads this
    {
      IsHeap(PriceLess, items) && Hashed(all, items) && Covered(all, items)
    }

    /** The counter makes up the difference between the heap and the live transactions. */
    ghost predicate Balanced(all: Lookup)
      reads this
    {
      |items| == |all| + stales
    }

    /** And no entry is there twice. */
    ghost predicate Exact(all: Lookup)
      reads this
    {
      Distinct(items) && Balanced(all)
    }

    constructor ()
      ensures Valid(map[]) && Exact(map[]) && items == [] && stales == 0
    {
      items, stales := [], 0;
    }

    method Put(all: Lookup, tx: Tx)
      requires tx.hash in all && all[tx.hash] == tx && Hashed(all, items) && Covered(all - {tx.hash}, items)
      requires IsHeap(PriceLess, items)
      modifies this
      ensures Valid(all) && stales == old(stales) && multiset(items) == multiset(old(items)) + multiset{tx}
      ensures old(Balanced(all - {tx.hash})) ==> Balanced(all)
      ensures old(Exact(all - {tx.hash})) && tx !in old(items) ==> Exact(all)
    {
      OneLess(all, tx.hash);
      DistinctMore(old(items), tx);
      PriceOrder();
      items := Push(PriceLess, items, tx);
      SameElements(old(items) + [tx], items);
      DistinctSub(items, old(items) + [tx]);
      assert (old(items) + [tx])[|old(items)|] == tx;
      forall h | h in all
        ensures all[h] in items
      {
        if h != tx.hash {
          assert all[h] == (all - {tx.hash})[h];
        }
      }
      forall i | 0 <= i < |items| && items[i].hash in all
        ensures all[items[i].hash] == items[i]
      {
        assert items[i] in old(items) + [tx];
      }
    }

    /** Take the least entry off the heap. */
    method PopLeast() returns (tx: Tx)
      requires IsHeap(PriceLess, items) && 0 < |items|
      modifies `items
      ensures tx == old(items)[0] && IsHeap(PriceLess, items)
      ensures multiset(items) == multiset(old(items)) - multiset{tx} && |items| == |old(items)| - 1
      ensures forall x :: x in multiset(old(items)) ==> !PriceLess(x, tx)
    {
      PriceOrder();
      tx := items[0];
      forall x | x in multiset(items)
        ensures !PriceLess(x, tx)
      {
        var i :| 0 <= i < |items| && items[i] == x;
        RootIsLeast(PriceLess, items, i);
      }
      items := Heap.Remove(PriceLess, items, 0);
    }

    /** Underpriced: a remote transaction that no live one is cheaper than. */
    method Underpriced(all: Lookup, locals: set<Address>, tx: Tx) returns (r: bool)
      requires Valid(all)
      modifies this
      ensures Valid(all) && Within(items, old(items)) && (old(Balanced(all)) ==> Balanced(all))
      ensures old(Exact(all)) ==> Exact(all)
      ensures r == Undercuts(all, locals, tx)
      ensures r <==> tx.sender !in locals && all != map[] && forall h :: h in all ==> tx.price <= all[h].price
    {
      if tx.sender in locals {
        return false;
      }
      DropStaleHeads(all);
      if |items| == 0 {
        return false;
      }
      r := items[0].price >= tx.price;
      CheapestIsLive(all, items);
    }

    /** One round of the sweeps in Cap and Discard: the next entry, gone if stale. */
    method PopNext(all: Lookup, ghost start: seq<Tx>, ghost save: seq<Tx>, ghost drop: seq<Tx>,
                   ghost gone0: multiset<Tx>)
        returns (tx: Tx, live: bool, ghost gone: multiset<Tx>)
      requires IsHeap(PriceLess, items) && 0 < |items| && Swept(all, start, items, save, drop, gone0)
      modifies this
      ensures IsHeap(PriceLess, items) && |items| == |old(items)| - 1
      ensures live == Live(all, tx) && stales == if live then old(stales) else old(stales) - 1
      ensures if live then
          && gone == gone0
          && Swept(all, start, items, save + [tx], drop, gone) && Swept(all, start, items, save, drop + [tx], gone)
        else Swept(all, start, items, save, drop, gone)
      ensures forall x :: x in multiset(items) ==> !PriceLess(x, tx)
    {
      hide Swept, IsHeap;
      tx := PopLeast();
      live := Live(all, tx);
      SweptPop(all, start, old(items), items, save, drop, gone0, tx);
      gone := gone0;
      if !live {
        stales := stales - 1;
        gone := gone + multiset{tx};
      }
    }

    /** Cap: exactly the live remote transactions below the threshold leave the heap. */
    method Cap(all: Lookup, locals: set<Address>, threshold: nat) returns (drop: seq<Tx>)
      requires Valid(all)
      modifies this
      ensures forall tx :: tx in drop <==> LiveRemote(all, locals, tx) && tx.price < threshold
      ensures Valid(all - Hashes(drop)) && Within(items, old(items))
      ensures old(Balanced(all)) ==> (Balanced(all - Hashes(drop)) <==> Distinct(drop))
      ensures old(Exact(all)) ==> Distinct(drop) && Exact(all - Hashes(drop))
    {
      hide Swept;
      NothingSwept(all, items);
      drop := [];
      var save: seq<Tx>, done := [], false;
      ghost var gone: multiset<Tx> := multiset{};
      while 0 < |items| && !done
        invariant IsHeap(PriceLess, items) && Swept(all, old(items), items, save, drop, gone)
        invariant |items| + |save| + |drop| - stales == |old(items)| - old(stales)
        invariant forall x :: x in multiset(drop) ==> x.sender !in locals && x.price < threshold
        invariant forall x :: x in multiset(save) && x.sender !in locals ==> threshold <= x.price
        invariant done ==> forall x :: x in multiset(items) ==> threshold <= x.price
        decreases |items|
      {
        var tx, live;
        tx, live, gone := PopNext(all, old(items), save, drop, gone);
        if live {
          if tx.price >= threshold {
            save := save + [tx];
            done := true;
          } else if tx.sender in locals {
            save := save + [tx];
          } else {
            drop := drop + [tx];
          }
        }
      }
      ghost var left := items;
      SweptBelow(all, old(items), left, save, drop, gone, locals, threshold);
      Reinsert(save);
      SweepEnds(all, old(items), left, items, save, drop, gone);
      SweepFinds(all, old(items), left, save, drop, gone);
      SweepCount(all, old(items), drop);
    }

    /** Discard: up to `count` live remote transactions leave the heap, the least first. */
    method Discard(all: Lookup, locals: set<Address>, count: int) returns (drop: seq<Tx>)
      requires Valid(all)
      modifies this
      ensures Cheapest(all, locals, count, drop) && forall tx :: tx in drop ==> tx.sender !in locals
      ensures Valid(all - Hashes(drop)) && Within(items, old(items))
      ensures old(Balanced(all)) ==> (Balanced(all - Hashes(drop)) <==> Distinct(drop))
      ensures old(Exact(all)) ==> Distinct(drop) && Exact(all - Hashes(drop))
    {
      hide Swept, Cheapest;
      NothingSwept(all, items);
      drop := [];
      var save: seq<Tx>, left := [], count;
      ghost var gone: multiset<Tx> := multiset{};
      while 0 < |items| && left > 0
        invariant IsHeap(PriceLess, items) && Swept(all, old(items), items, save, drop, gone)
        invariant |items| + |save| + |drop| - stales == |old(items)| - old(stales)
        invariant forall x :: x in multiset(drop) ==> x.sender !in locals
        invariant forall x :: x in multiset(save) ==> x.sender in locals
        invariant count <= 0 ==> drop == [] && left == count
        invariant count > 0 ==> |drop| + left == count && left >= 0
        decreases |items|
      {
        var tx, live;
        tx, live, gone := PopNext(all, old(items), save, drop, gone);
        if live {
          if tx.sender in locals {
            save := save + [tx];
          } else {
            drop := drop + [tx];
            left := left - 1;
          }
        }
      }
      ghost var rest := items;
      SweptCheapest(all, old(items), rest, save, drop, gone, locals, count, left);
      Reinsert(save);
      SweepEnds(all, old(items), rest, items, save, drop, gone);
      SweepFinds(all, old(items), rest, save, drop, gone);
      SweepCount(all, old(items), drop);
    }

    /** One event of a run. */
    method Happen(all: Lookup, events: seq<Event>, i: nat) returns (after: Lookup, answer: bool)
      requires i < |events| && Injective(events) && Valid(all) && AllEntered(events, i, all, items)
      modifies this
      ensures Valid(after) && Happens(all, after, answer, events[i]) && Remains(all, after, events[i])
      ensures forall x :: x in items ==> x in old(items) || events[i] == Enter(x)
      ensures EnterOnce(events) && old(Exact(all)) ==> Exact(after)
    {
      hide IsHeap, Hashed, Covered, Distinct, Injective, EnterOnce, AllEntered, Cheapest, Happens, Remains, LiveRemote;
      after, answer := all, false;
      NoEffect(all, events[i]);
      match events[i] {
        case Enter(tx) =>
          if tx.hash !in all {
            NewEntry(events, i, all, items, tx);
            after := EnterNew(all, tx);
          }
        case Leave(hash) =>
          if hash in all {
            after := LeaveKnown(all, hash);
          }
        case Ask(tx, locals) =>
          answer := Underpriced(all, locals, tx);
          Answered(all, locals, tx);
        case Raise(threshold, locals) =>
          HashedAll(all, items);
          var drop := Cap(all, locals, threshold);
          after := all - Hashes(drop);
          Raised(all, locals, threshold, drop);
        case MakeRoom(count, locals) =>
          var drop := Discard(all, locals, count);
          after := all - Hashes(drop);
          RoomMade(all, locals, count, drop);
      }
    }

    method EnterNew(all: Lookup, tx: Tx) returns (after: Lookup)
      requires Valid(all) && tx.hash !in all && Hashed(all[tx.hash := tx], items)
      modifies this
      ensures Valid(after) && Happens(all, after, false, Enter(tx)) && Remains(all, after, Enter(tx))
      ensures forall x :: x in items ==> x in old(items) || x == tx
      ensures tx !in old(items) && old(Exact(all)) ==> Exact(after)
    {
      after := all[tx.hash := tx];
      assert after - {tx.hash} == all;
      Put(after, tx);
      SameElements(old(items) + [tx], items);
    }

    method LeaveKnown(all: Lookup, hash: nat) returns (after: Lookup)
      requires Valid(all) && hash in all
      modifies this
      ensures Valid(after) && Happens(all, after, false, Leave(hash)) && Remains(all, after, Leave(hash))
      ensures Within(items, old(items)) && (old(Exact(all)) ==> Exact(after))
    {
      OneLess(all, hash);
      LeaveValid(all, items, hash);
      after := all - {hash};
      Removed(after);
    }

    /** Removed: after the pool has dropped a transaction; too many stale entries rebuild the heap. */
    method Removed(all: Lookup)
      requires Valid(all)
      modifies this
      ensures Valid(all) && Within(items, old(items))
      ensures if old(stales) + 1 <= |old(items)| / 4 then items == old(items) && stales == old(stales) + 1
        else stales == 0 && |items| == |all| && Distinct(items)
      ensures |old(items)| == |all| + 1 + old(stales) ==> Balanced(all) && (Distinct(old(items)) ==> Exact(all))
    {
      stales := stales + 1;
      if stales <= |items| / 4 {
        return;
      }
      var fresh' := Values(all);
      stales := 0;
      PriceOrder();
      items := Heap.Init(PriceLess, fresh');
      Permuted(all, fresh', items);
      SameElements(fresh', items);
    }

    method Reinsert(save: seq<Tx>)
      requires IsHeap(PriceLess, items)
      modifies `items
      ensures IsHeap(PriceLess, items) && multiset(items) == multiset(old(items)) + multiset(save)
      ensures |items| == |old(items)| + |save|
    {
      PriceOrder();
      for i := 0 to |save|
        invariant IsHeap(PriceLess, items) && |items| == |old(items)| + i
        invariant multiset(items) == multiset(old(items)) + multiset(save[..i])
      {
        assert save[..i + 1] == save[..i] + [save[i]];
        items := Push(PriceLess, items, save[i]);
      }
      assert save[..|save|] == save;
    }

    method DropStaleHeads(all: Lookup)
      requires Valid(all)
      modifies this
      ensures Valid(all) && Within(items, old(items)) && (old(Balanced(all)) ==> Balanced(all))
      ensures old(Exact(all)) ==> Exact(all)
      ensures |items| > 0 ==> Live(all, items[0])
    {
      while 0 < |items| && !Live(all, items[0])
        invariant Valid(all) && Within(items, old(items))
        invariant (old(Balanced(all)) ==> Balanced(all)) && (old(Exact(all)) ==> Exact(all))
        decreases |items|
      {
        ghost var before := items;
        var tx := PopLeast();
        stales := stales - 1;
        StillValid(all, before, items, tx);
        DistinctSub(items, before);
        WithinSub(items, before);
      }
    }
  }

  /** A sweep so far: every entry is still in the heap, saved, dropped or was stale, and what was taken
      off does not rank after what is left. */
  ghost predicate Swept(all: Lookup, start: seq<Tx>, items: seq<Tx>, save: seq<Tx>, drop: seq<Tx>, gone: multiset<Tx>) {
    && multiset(start) == multiset(items) + multiset(save) + multiset(drop) + gone
    && (forall x :: x in gone ==> !Live(all, x))
    && (forall x :: x in multiset(save) + multiset(drop) ==> Live(all, x))
    && (forall x, y :: x in multiset(items) && y in multiset(save) + multiset(drop) ==> !PriceLess(x, y))
  }

  lemma NothingSwept(all: Lookup, items: seq<Tx>)
    ensures Swept(all, items, items, [], [], multiset{})
  {
  }

  /** The next entry may be saved or dropped if it is live, and vanish if not. */
  lemma SweptPop(all: Lookup, start: seq<Tx>, before: seq<Tx>, after: seq<Tx>, save: seq<Tx>, drop: seq<Tx>,
                 gone: multiset<Tx>, tx: Tx)
    requires Swept(all, start, before, save, drop, gone) && tx in multiset(before)
    requires multiset(after) == multiset(before) - multiset{tx}
    requires forall x :: x in multiset(before) ==> !PriceLess(x, tx)
    ensures Live(all, tx) ==>
      Swept(all, start, after, save + [tx], drop, gone) && Swept(all, start, after, save, drop + [tx], gone)
    ensures !Live(all, tx) ==> Swept(all, start, after, save, drop, gone + multiset{tx})
  {
    assert multiset(save + [tx]) == multiset(save) + multiset{tx};
    assert multiset(drop + [tx]) == multiset(drop) + multiset{tx};
  }

  ghost predicate LiveRemote(all: Lookup, locals: set<Address>, tx: Tx) {
    tx.hash in all && all[tx.hash] == tx && tx.sender !in locals
  }

  /** These remote transactions are the cheapest, with the highest nonces among those of one price, and there are
      `count` of them if there are so many. */
  ghost predicate Cheapest(all: Lookup, locals: set<Address>, count: int, drop: seq<Tx>) {
    && (forall tx :: tx in drop ==> LiveRemote(all, locals, tx))
    && (forall x, d :: LiveRemote(all, locals, x) && x !in drop && d in drop ==>
          d.price < x.price || (d.price == x.price && x.nonce <= d.nonce))
    && (if count <= 0 then drop == []
        else |drop| <= count && (|drop| == count || forall x :: LiveRemote(all, locals, x) ==> x in drop))
  }

  lemma OnlyLocalsLeft(all: Lookup, locals: set<Address>, count: int, drop: seq<Tx>)
    requires Cheapest(all, locals, count, drop) && 0 < count && forall h :: h in all ==> all[h].hash == h
    ensures |drop| == count || forall h :: h in all - Hashes(drop) ==> all[h].sender in locals
  {
    if |drop| != count {
      forall h | h in all - Hashes(drop)
        ensures all[h].sender in locals
      {
        if LiveRemote(all, locals, all[h]) {
          DroppedHash(drop, all[h]);
        }
      }
    }
  }

  /** A remote transaction that no live one is cheaper than. */
  ghost predicate Undercuts(all: Lookup, locals: set<Address>, tx: Tx) {
    tx.sender !in locals && all != map[] && forall h :: h in all ==> tx.price <= all[h].price
  }

  /** What an event does to the lookup, and what it answers. */
  ghost predicate Happens(before: Lookup, after: Lookup, answer: bool, e: Event) {
    match e
    case Enter(tx) => after == if tx.hash in before then before else before[tx.hash := tx]
    case Leave(hash) => after == before - {hash}
    case Ask(tx, locals) => after == before && answer == Undercuts(before, locals, tx)
    case Raise(threshold, locals) =>
      forall h :: (h in after <==> h in before && (before[h].sender in locals || threshold <= before[h].price)) &&
        (h in after ==> after[h] == before[h])
    case MakeRoom(count, locals) =>
      exists drop :: Cheapest(before, locals, count, drop) && after == before - Hashes(drop)
  }

  ghost predicate AllHappen(trace: seq<Lookup>, answers: seq<bool>, events: seq<Event>) {
    && |trace| == |events| + 1 && |answers| == |events|
    && forall i: nat :: i < |events| ==> Happens(trace[i], trace[i + 1], answers[i], events[i])
  }

  lemma HappensMore(trace: seq<Lookup>, answers: seq<bool>, events: seq<Event>, after: Lookup, answer: bool, e: Event)
    requires AllHappen(trace, answers, events) && Happens(trace[|events|], after, answer, e)
    ensures AllHappen(trace + [after], answers + [answer], events + [e])
  {
    hide Happens;
    var trace', answers', events' := trace + [after], answers + [answer], events + [e];
    forall i: nat | i < |events'|
      ensures Happens(trace'[i], trace'[i + 1], answers'[i], events'[i])
    {
      assert i < |events| ==> Happens(trace[i], trace[i + 1], answers[i], events[i]);
    }
  }

  ghost predicate Remains(before: Lookup, after: Lookup, e: Event) {
    forall h :: h in after ==> (h in before && after[h] == before[h]) || e == Enter(after[h])
  }

  lemma NoEffect(all: Lookup, e: Event)
    ensures Remains(all, all, e)
    ensures e.Enter? && e.tx.hash in all ==> Happens(all, all, false, e)
    ensures e.Leave? && e.hash !in all ==> Happens(all, all, false, e)
  {
    assert e.Leave? && e.hash !in all ==> all - {e.hash} == all;
  }

  lemma Answered(all: Lookup, locals: set<Address>, tx: Tx)
    ensures Happens(all, all, Undercuts(all, locals, tx), Ask(tx, locals))
  {
  }

  lemma HashedAll(all: Lookup, items: seq<Tx>)
    requires Hashed(all, items)
    ensures forall h :: h in all ==> all[h].hash == h
  {
  }

  lemma Raised(all: Lookup, locals: set<Address>, threshold: nat, drop: seq<Tx>)
    requires forall tx :: tx in drop <==> LiveRemote(all, locals, tx) && tx.price < threshold
    requires forall h :: h in all ==> all[h].hash == h
    ensures var e := Raise(threshold, locals);
      Happens(all, all - Hashes(drop), false, e) && Remains(all, all - Hashes(drop), e)
  {
    CappedHashes(all, locals, threshold, drop);
  }

  lemma RoomMade(all: Lookup, locals: set<Address>, count: int, drop: seq<Tx>)
    requires Cheapest(all, locals, count, drop)
    ensures var e := MakeRoom(count, locals);
      Happens(all, all - Hashes(drop), false, e) && Remains(all, all - Hashes(drop), e)
  {
    hide Cheapest;
  }

  /** The sweep of Cap has found everything below the threshold. */
  lemma SweptBelow(all: Lookup, start: seq<Tx>, rest: seq<Tx>, save: seq<Tx>, drop: seq<Tx>, gone: multiset<Tx>,
                   locals: set<Address>, threshold: nat)
    requires Hashed(all, start) && Covered(all, start) && Swept(all, start, rest, save, drop, gone)
    requires forall x :: x in multiset(drop) ==> x.sender !in locals && x.price < threshold
    requires forall x :: x in multiset(save) && x.sender !in locals ==> threshold <= x.price
    requires forall x :: x in multiset(rest) ==> threshold <= x.price
    ensures forall tx :: tx in drop <==> LiveRemote(all, locals, tx) && tx.price < threshold
  {
    SweepFinds(all, start, rest, save, drop, gone);
    hide Swept;
    forall tx | LiveRemote(all, locals, tx) && tx.price < threshold
      ensures tx in drop
    {
      assert all[tx.hash] == tx;
    }
  }

  /** The sweep of Discard has found the cheapest. */
  lemma SweptCheapest(all: Lookup, start: seq<Tx>, rest: seq<Tx>, save: seq<Tx>, drop: seq<Tx>, gone: multiset<Tx>,
                      locals: set<Address>, count: int, left: int)
    requires Hashed(all, start) && Covered(all, start) && Swept(all, start, rest, save, drop, gone)
    requires forall x :: x in multiset(drop) ==> x.sender !in locals
    requires forall x :: x in multiset(save) ==> x.sender in locals
    requires rest == [] || left <= 0
    requires if count <= 0 then drop == [] else |drop| + left == count && left >= 0
    ensures Cheapest(all, locals, count, drop)
  {
    SweepFinds(all, start, rest, save, drop, gone);
    hide Swept;
    forall x, d | LiveRemote(all, locals, x) && x !in drop && d in drop
      ensures d.price < x.price || (d.price == x.price && x.nonce <= d.nonce)
    {
      assert all[x.hash] == x && !PriceLess(x, d);
    }
  }

  /** Which hashes are below the threshold. */
  lemma CappedHashes(all: Lookup, locals: set<Address>, price: nat, drop: seq<Tx>)
    requires forall tx :: tx in drop <==> LiveRemote(all, locals, tx) && tx.price < price
    requires forall h :: h in all ==> all[h].hash == h
    ensures forall h :: h in all ==> (h in Hashes(drop) <==> all[h].sender !in locals && all[h].price < price)
  {
    forall h | h in all
      ensures h in Hashes(drop) <==> all[h].sender !in locals && all[h].price < price
    {
      if all[h].sender !in locals && all[h].price < price {
        assert LiveRemote(all, locals, all[h]);
        DroppedHash(drop, all[h]);
      }
      if h in Hashes(drop) {
        var i :| 0 <= i < |drop| && drop[i].hash == h;
        assert drop[i] in drop;
      }
    }
  }

  function Hashes(txs: seq<Tx>): set<nat> {
    set i | 0 <= i < |txs| :: txs[i].hash
  }

  /** Where a live transaction is after a sweep. */
  lemma SweepFinds(all: Lookup, start: seq<Tx>, items: seq<Tx>, save: seq<Tx>, drop: seq<Tx>, gone: multiset<Tx>)
    requires Hashed(all, start) && Covered(all, start) && Swept(all, start, items, save, drop, gone)
    ensures forall h :: h in all ==> all[h] in multiset(items) || all[h] in multiset(save) || all[h] in drop
    ensures forall x :: x in drop ==> x.hash in all && all[x.hash] == x && x in multiset(drop)
    ensures forall x, y :: x in multiset(items) && y in drop ==> !PriceLess(x, y)
  {
    forall h | h in all
      ensures all[h] in multiset(items) || all[h] in multiset(save) || all[h] in drop
    {
      assert all[h] in multiset(start) && all[h] !in gone;
      assert all[h] in drop <==> all[h] in multiset(drop);
    }
    forall x | x in drop
      ensures x.hash in all && all[x.hash] == x && x in multiset(drop)
    {
      assert x in multiset(save) + multiset(drop) && x in multiset(start);
      var i :| 0 <= i < |start| && start[i] == x;
    }
  }

  /** The heap after a sweep: everything live but the dropped ones, without new duplicates. */
  lemma SweepEnds(all: Lookup, start: seq<Tx>, left: seq<Tx>, items: seq<Tx>, save: seq<Tx>, drop: seq<Tx>,
                  gone: multiset<Tx>)
    requires Hashed(all, start) && Covered(all, start) && Swept(all, start, left, save, drop, gone)
    requires multiset(items) == multiset(left) + multiset(save)
    ensures Hashed(all - Hashes(drop), items) && Covered(all - Hashes(drop), items)
    ensures Distinct(start) ==> Distinct(drop) && Distinct(items)
    ensures Within(items, start)
  {
    WithinSub(items, start);
    SweepFinds(all, start, left, save, drop, gone);
    forall h | h in all - Hashes(drop)
      ensures all[h] in items
    {
      DroppedHash(drop, all[h]);
      assert all[h] in multiset(items);
    }
    forall i | 0 <= i < |items| && items[i].hash in all
      ensures all[items[i].hash] == items[i]
    {
      assert items[i] in multiset(items) && items[i] in multiset(start);
      assert items[i] in start;
    }
    DistinctSub(drop, start);
    DistinctSub(items, start);
  }

  lemma Permuted(all: Lookup, a: seq<Tx>, b: seq<Tx>)
    requires Hashed(all, a) && Covered(all, a) && Distinct(a) && multiset(b) == multiset(a)
    ensures Hashed(all, b) && Covered(all, b) && Distinct(b)
  {
    SameElements(a, b);
    DistinctSub(b, a);
    forall i | 0 <= i < |b| && b[i].hash in all
      ensures all[b[i].hash] == b[i]
    {
      assert b[i] in a;
    }
  }

  lemma HashesMore(txs: seq<Tx>, tx: Tx)
    ensures Hashes(txs + [tx]) == Hashes(txs) + {tx.hash}
  {
    var more := txs + [tx];
    assert more[|txs|] == tx;
    forall i | 0 <= i < |txs|
      ensures txs[i].hash in Hashes(more)
    {
      assert more[i] == txs[i];
    }
  }

  lemma DroppedHash(drop: seq<Tx>, tx: Tx)
    ensures tx in drop ==> tx.hash in Hashes(drop)
  {
  }

  /** Part of a sequence without duplicates has none. */
  lemma DistinctSub(t: seq<Tx>, s: seq<Tx>)
    requires multiset(t) <= multiset(s)
    ensures Distinct(s) ==> Distinct(t)
  {
    if Distinct(s) {
      forall i, j | 0 <= i < j < |t|
        ensures t[i] != t[j]
      {
        AtMostOnce(s, t[i]);
        if t[i] == t[j] {
          CountTwice(t, i, j);
        }
      }
    }
  }

  lemma CountTwice(t: seq<Tx>, i: nat, j: nat)
    requires i < j < |t| && t[i] == t[j]
    ensures multiset(t)[t[i]] >= 2
  {
    assert t == t[..i] + [t[i]] + t[i + 1..j] + [t[j]] + t[j + 1..];
  }

  ghost predicate Within(after: seq<Tx>, before: seq<Tx>) {
    forall x :: x in after ==> x in before
  }

  lemma WithinSub(after: seq<Tx>, before: seq<Tx>)
    requires multiset(after) <= multiset(before)
    ensures Within(after, before)
  {
    forall x | x in after
      ensures x in before
    {
      assert x in multiset(after) && x in multiset(before);
    }
  }

  lemma DistinctMore(s: seq<Tx>, x: Tx)
    ensures Distinct(s) && x !in s ==> Distinct(s + [x])
  {
  }

  lemma {:induction false} AtMostOnce(s: seq<Tx>, x: Tx)
    requires Distinct(s)
    ensures multiset(s)[x] <= 1
  {
    if s != [] {
      var k := |s| - 1;
      AtMostOnce(s[..k], x);
      assert s == s[..k] + [s[k]];
      assert s[k] !in s[..k];
    }
  }

  /** The transactions of the lookup, each once (txLookup.Range). */
  method Values(all: Lookup) returns (s: seq<Tx>)
    requires forall h :: h in all ==> all[h].hash == h
    ensures |s| == |all| && Distinct(s)
    ensures Hashed(all, s) && Covered(all, s)
    ensures forall x :: x in s ==> x.hash in all
  {
    s := [];
    var rest := all.Keys;
    assert |rest| == |all|;
    while rest != {}
      invariant rest <= all.Keys && |s| + |rest| == |all| && Distinct(s)
      invariant forall i :: 0 <= i < |s| ==> s[i].hash in all && all[s[i].hash] == s[i] && s[i].hash !in rest
      invariant forall h :: h in all && h !in rest ==> all[h] in s
    {
      var h :| h in rest;
      s := s + [all[h]];
      rest := rest - {h};
    }
  }

  lemma SameElements(a: seq<Tx>, b: seq<Tx>)
    requires multiset(a) == multiset(b)
    ensures forall x :: x in a <==> x in b
  {
    forall x
      ensures x in a <==> x in b
    {
      assert x in a <==> x in multiset(a);
      assert x in b <==> x in multiset(b);
    }
  }

  /** Removing a stale entry loses no live one. */
  lemma StillValid(all: Lookup, before: seq<Tx>, after: seq<Tx>, tx: Tx)
    requires Hashed(all, before) && Covered(all, before) && !Live(all, tx)
    requires multiset(after) == multiset(before) - multiset{tx}
    ensures Hashed(all, after) && Covered(all, after)
  {
    forall h | h in all
      ensures all[h] in after
    {
      assert all[h] in multiset(before) && all[h] != tx;
      assert all[h] in multiset(after);
    }
    forall i | 0 <= i < |after| && after[i].hash in all
      ensures all[after[i].hash] == after[i]
    {
      assert after[i] in multiset(after);
      assert after[i] in multiset(before);
    }
  }

  lemma CheapestIsLive(all: Lookup, items: seq<Tx>)
    requires IsHeap(PriceLess, items) && Hashed(all, items) && Covered(all, items) && |items| > 0 && Live(all, items[0])
    ensures forall h :: h in all ==> items[0].price <= all[h].price
    ensures items[0].hash in all && all[items[0].hash] == items[0]
  {
    PriceOrder();
    forall h | h in all
      ensures items[0].price <= all[h].price
    {
      var i :| 0 <= i < |items| && items[i] == all[h];
      RootIsLeast(PriceLess, items, i);
    }
  }

  ghost function Elements(items: seq<Tx>): set<Tx> {
    set i | 0 <= i < |items| :: items[i]
  }

  lemma {:induction false} ElementCount(items: seq<Tx>)
    requires Distinct(items)
    ensures |Elements(items)| == |items|
  {
    if items != [] {
      var k := |items| - 1;
      ElementCount(items[..k]);
      assert Elements(items) == Elements(items[..k]) + {items[k]};
      assert items[k] !in Elements(items[..k]);
    }
  }

  lemma OneLess(all: Lookup, h: nat)
    requires h in all
    ensures |all - {h}| == |all| - 1
  {
    assert (all - {h}).Keys == all.Keys - {h};
    assert |all| == |all.Keys| && |all - {h}| == |(all - {h}).Keys|;
  }

  lemma {:induction false} ValueCount(all: Lookup)
    requires forall h :: h in all ==> all[h].hash == h
    ensures |all.Values| == |all|
  {
    if h :| h in all {
      var rest := all - {h};
      ValueCount(rest);
      OneLess(all, h);
      forall v | v in all.Values
        ensures v in rest.Values + {all[h]}
      {
        var k :| k in all && all[k] == v;
        assert k != h ==> rest[k] == v;
      }
      assert all.Values == rest.Values + {all[h]};
    }
  }

  /** If no transaction entered twice, the counter is exactly the number of stale entries. */
  lemma HeapLength(all: Lookup, items: seq<Tx>, stales: int)
    requires Hashed(all, items) && Covered(all, items) && Distinct(items) && |items| == |all| + stales
    ensures stales == |set x | x in Elements(items) && !Live(all, x)|
  {
    ElementCount(items);
    ValueCount(all);
    var stale := set x | x in Elements(items) && !Live(all, x);
    assert Elements(items) == all.Values + stale;
    assert all.Values !! stale;
  }

  /** A sweep drops as many transactions from the lookup as from the heap, unless one had two entries. */
  lemma SweepCount(all: Lookup, start: seq<Tx>, drop: seq<Tx>)
    requires Hashed(all, start)
    requires forall x :: x in drop ==> x.hash in all && all[x.hash] == x
    ensures |all - Hashes(drop)| == |all| - |drop| <==> Distinct(drop)
    ensures |all - Hashes(drop)| >= |all| - |drop|
  {
    DropCount(all, drop);
    HashCount(drop);
  }

  lemma DropCount(all: Lookup, drop: seq<Tx>)
    requires forall x :: x in drop ==> x.hash in all
    ensures |all - Hashes(drop)| == |all| - |Hashes(drop)|
  {
    assert (all - Hashes(drop)).Keys == all.Keys - Hashes(drop);
    assert |all.Keys| == |all.Keys - Hashes(drop)| + |Hashes(drop)| by {
      assert all.Keys == (all.Keys - Hashes(drop)) + Hashes(drop);
    }
  }

  lemma {:induction false} HashCount(drop: seq<Tx>)
    requires forall i, j :: 0 <= i < |drop| && 0 <= j < |drop| && drop[i].hash == drop[j].hash ==> drop[i] == drop[j]
    ensures |Hashes(drop)| <= |drop| && (|Hashes(drop)| == |drop| <==> Distinct(drop))
  {
    if drop != [] {
      var k := |drop| - 1;
      HashCount(drop[..k]);
      HashesSplit(drop, k);
      LastDistinct(drop);
    }
  }

  lemma LastDistinct(s: seq<Tx>)
    requires s != []
    ensures Distinct(s) <==> Distinct(s[..|s| - 1]) && s[|s| - 1] !in s[..|s| - 1]
  {
    var k := |s| - 1;
    if Distinct(s[..k]) && s[k] !in s[..k] {
      forall i, j | 0 <= i < j < |s|
        ensures s[i] != s[j]
      {
        assert s[..k][i] == s[i] && (j < k ==> s[..k][j] == s[j]);
      }
    }
  }

  lemma HashesSplit(drop: seq<Tx>, k: nat)
    requires k == |drop| - 1
    requires forall i, j :: 0 <= i < |drop| && 0 <= j < |drop| && drop[i].hash == drop[j].hash ==> drop[i] == drop[j]
    ensures Hashes(drop) == Hashes(drop[..k]) + {drop[k].hash}
    ensures drop[k].hash in Hashes(drop[..k]) <==> drop[k] in drop[..k]
  {
    forall i | 0 <= i < |drop|
      ensures drop[i].hash in Hashes(drop[..k]) + {drop[k].hash}
    {
      assert i < k ==> drop[..k][i].hash in Hashes(drop[..k]);
    }
    if drop[k].hash in Hashes(drop[..k]) {
      var i :| 0 <= i < k && drop[..k][i].hash == drop[k].hash;
      assert drop[i] == drop[k] && drop[..k][i] == drop[k];
    }
  }

  /** What happens to the price list: a transaction enters or leaves the pool, the list is asked about one,
      the price threshold rises, or room is made. */
  datatype Event =
    | Enter(tx: Tx)
    | Leave(hash: nat)
    | Ask(tx: Tx, locals: set<Address>)
    | Raise(threshold: nat, locals: set<Address>)
    | MakeRoom(count: int, locals: set<Address>)

  /** Hashes do not collide. */
  ghost predicate Injective(events: seq<Event>) {
    forall i, j :: 0 <= i < j < |events| && events[i].Enter? && events[j].Enter? ==>
      (events[i].tx.hash == events[j].tx.hash ==> events[i].tx == events[j].tx)
  }

  /** Each hash enters at most once. */
  ghost predicate EnterOnce(events: seq<Event>) {
    forall i, j :: 0 <= i < j < |events| && events[i].Enter? && events[j].Enter? ==>
      events[i].tx.hash != events[j].tx.hash
  }

  ghost predicate Entered(events: seq<Event>, k: nat, tx: Tx)
    requires k <= |events|
  {
    exists i: nat :: i < k && events[i] == Enter(tx)
  }

  /** Whatever is in the heap or in the lookup has entered. */
  ghost predicate AllEntered(events: seq<Event>, k: nat, all: Lookup, items: seq<Tx>)
    requires k <= |events|
  {
    && (forall x :: x in items ==> Entered(events, k, x))
    && (forall h :: h in all ==> Entered(events, k, all[h]))
  }

  lemma NewEntry(events: seq<Event>, k: nat, all: Lookup, items: seq<Tx>, tx: Tx)
    requires k < |events| && events[k] == Enter(tx) && Injective(events) && AllEntered(events, k, all, items)
    requires Hashed(all, items) && tx.hash !in all
    ensures Hashed(all[tx.hash := tx], items) && (EnterOnce(events) ==> tx !in items)
  {
    forall x | x in items && x.hash == tx.hash
      ensures x == tx && !EnterOnce(events)
    {
      assert Entered(events, k, x);
    }
  }

  lemma LeaveValid(all: Lookup, items: seq<Tx>, h: nat)
    requires Hashed(all, items) && Covered(all, items)
    ensures Hashed(all - {h}, items) && Covered(all - {h}, items)
  {
  }

  lemma StillEntered(events: seq<Event>, k: nat, before: seq<Tx>, after: seq<Tx>, known: Lookup, all: Lookup)
    requires k < |events| && AllEntered(events, k, known, before)
    requires forall x :: x in after ==> x in before || events[k] == Enter(x)
    requires Remains(known, all, events[k])
    ensures AllEntered(events, k + 1, all, after)
  {
    forall x | Entered(events, k, x) || events[k] == Enter(x)
      ensures Entered(events, k + 1, x)
    {
      if Entered(events, k, x) {
        var i: nat :| i < k && events[i] == Enter(x);
      }
    }
  }

  /** Over every run every live transaction has its entry; and if no hash enters twice, heap length is live
      count plus stale counter. */
  method Run(events: seq<Event>) returns (p: Priced, answers: seq<bool>, ghost trace: seq<Lookup>)
    requires Injective(events)
    ensures AllHappen(trace, answers, events) && trace[0] == map[]
    ensures p.Valid(trace[|events|]) && (EnterOnce(events) ==> p.Exact(trace[|events|]))
  {
    hide Happens;
    p := new Priced();
    answers := [];
    var all: Lookup := map[];
    trace := [all];
    for i := 0 to |events|
      invariant fresh(p) && p.Valid(all) && AllEntered(events, i, all, p.items)
      invariant EnterOnce(events) ==> p.Exact(all)
      invariant AllHappen(trace, answers, events[..i]) && trace[0] == map[] && trace[i] == all
    {
      ghost var before, known := p.items, all;
      var answer;
      all, answer := p.Happen(all, events, i);
      StillEntered(events, i, before, p.items, known, all);
      HappensMore(trace, answers, events[..i], all, answer, events[i]);
      assert events[..i + 1] == events[..i] + [events[i]];
      trace, answers := trace + [all], answers + [answer];
    }
    assert events[..|events|] == events;
  }
}
