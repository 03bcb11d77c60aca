/** txList over its heap-indexed map: every operation does to the nonce map what TxList says. */
module AccountList {
  import opened TxList
  import opened SortedMap

  class AccountTxs {
    const strict: bool
    const txs: SortedTxs
    var costcap: nat
    var gascap: nat

    ghost function View(): List
      reads this, txs
    {
      List(strict, txs.items, costcap, gascap)
    }

    ghost predicate Valid()
      reads this, txs
    {
      txs.Valid() && Good(View())
    }

    constructor (strict: bool)
      ensures Valid() && View() == Empty(strict) && fresh(txs)
    {
      this.strict := strict;
      txs := new SortedTxs();
      costcap, gascap := 0, 0;
    }

    method Add(tx: Tx, priceBump: nat) returns (inserted: bool, replaced: Option<Tx>)
      requires Valid()
      modifies this, txs
      ensures Valid() && inserted == Accepts(old(View()), tx, priceBump)
      ensures inserted <==> (tx.nonce in old(txs.items) ==>
        var price := old(txs.items)[tx.nonce].price;
        price < tx.price && price * (100 + priceBump) < 100 * (tx.price + 1))
      ensures View() == if inserted then Added(old(View()), tx) else old(View())
      ensures replaced == if inserted then old(txs.Get(tx.nonce)) else None
    {
      replaced := txs.Get(tx.nonce);
      if replaced.Some? {
        var prev := replaced.value;
        var threshold := prev.price * (100 + priceBump) / 100;
        if prev.price >= tx.price || threshold > tx.price {
          return false, None;
        }
      }
      txs.Put(tx);
      if costcap < tx.cost {
        costcap := tx.cost;
      }
      if gascap < tx.gas {
        gascap := tx.gas;
      }
      inserted := true;
    }

    /** Filter: what is over a limit, and, in a strict list, what that leaves unexecutable. */
    method DropUnpayable(costLimit: nat, gasLimit: nat) returns (removed: seq<Tx>, invalids: seq<Tx>)
      requires Valid()
      modifies this, txs
      ensures Valid() && View() == Filter(old(View()), costLimit, gasLimit)
      ensures forall n :: n in txs.items ==> txs.items[n].cost <= costLimit && txs.items[n].gas <= gasLimit
      ensures forall n :: n in old(txs.items) && n !in txs.items ==>
        Over(old(txs.items), costLimit, gasLimit, strict, n)
      ensures Collects(Unpayable(old(txs.items), costLimit, gasLimit), removed)
      ensures Collects(Stranded(old(View()), costLimit, gasLimit), invalids)
    {
      hide Over;
      FilterIsScan(View(), costLimit, gasLimit);
      FilterLimits(View(), costLimit, gasLimit);
      ghost var before := View();
      removed, invalids := [], [];
      if costcap <= costLimit && gascap <= gasLimit {
        AllPayable(View(), costLimit, gasLimit);
      } else {
        costcap, gascap := costLimit, gasLimit;
        removed := txs.FilterOut(OverLimit(costLimit, gasLimit));
        PickedUnpayable(before.items, costLimit, gasLimit);
        if strict && |removed| > 0 {
          var lowest := LowestNonce(removed);
          FirstOver(before.items, removed, lowest, costLimit, gasLimit);
          StrandedAbove(before, txs.items, costLimit, gasLimit, lowest);
          invalids := txs.FilterOut(AboveNonce(lowest));
        } else {
          NothingStranded(before, removed, costLimit, gasLimit);
        }
      }
    }

    /** Remove: in a strict list everything above goes too, and is returned. */
    method Delete(tx: Tx) returns (found: bool, invalids: seq<Tx>)
      requires Valid()
      modifies txs
      ensures Valid() && found == (tx.nonce in old(txs.items)) && View() == Remove(old(View()), tx.nonce)
      ensures Collects(if strict && found then From(old(txs.items), tx.nonce + 1) else map[], invalids)
    {
      hide Good, Collects, Remove, From, Picked, Unpicked;
      RemoveParts(View(), tx.nonce);
      OperationsKeepGood(View(), tx, tx.nonce);
      found := txs.RemoveNonce(tx.nonce);
      invalids := [];
      if found && strict {
        invalids := txs.FilterOut(AboveNonce(tx.nonce));
      }
      CollectsNone();
      assert View() == Remove(old(View()), tx.nonce);
    }
  }

  /** The transaction is over a limit or, in a strict list, one below it is. */
  ghost predicate Over(items: Items, costLimit: nat, gasLimit: nat, strict: bool, n: nat) {
    exists m :: m in items && (m == n || (strict && m < n)) && (costLimit < items[m].cost || gasLimit < items[m].gas)
  }

  lemma FilterLimits(l: List, costLimit: nat, gasLimit: nat)
    requires Good(l)
    ensures var kept := Filter(l, costLimit, gasLimit).items;
      && (forall n :: n in kept ==> kept[n].cost <= costLimit && kept[n].gas <= gasLimit)
      && (forall n :: n in l.items && n !in kept ==> Over(l.items, costLimit, gasLimit, l.strict, n))
  {
    FilterIsScan(l, costLimit, gasLimit);
    forall n | n in l.items && n !in Filter(l, costLimit, gasLimit).items
      ensures Over(l.items, costLimit, gasLimit, l.strict, n)
    {
      if Payable(l.items[n], costLimit, gasLimit) {
        var m :| m in l.items && m < n && !Payable(l.items[m], costLimit, gasLimit);
      }
    }
  }

  lemma CollectsNone()
    ensures Collects(map[], [])
  {
  }

  function OverLimit(costLimit: nat, gasLimit: nat): (f: Tx -> bool)
    ensures forall tx :: f(tx) <==> !Payable(tx, costLimit, gasLimit)
  {
    (tx: Tx) => tx.cost > costLimit || tx.gas > gasLimit
  }

  function AboveNonce(nonce: nat): (f: Tx -> bool)
    ensures forall tx :: f(tx) <==> tx.nonce > nonce
  {
    (tx: Tx) => tx.nonce > nonce
  }

  method LowestNonce(removed: seq<Tx>) returns (lowest: nat)
    requires |removed| > 0
    ensures forall k :: 0 <= k < |removed| ==> lowest <= removed[k].nonce
    ensures exists k :: 0 <= k < |removed| && lowest == removed[k].nonce
  {
    lowest := removed[0].nonce;
    for i := 1 to |removed|
      invariant forall k :: 0 <= k < i ==> lowest <= removed[k].nonce
      invariant exists k :: 0 <= k < i && lowest == removed[k].nonce
    {
      if lowest > removed[i].nonce {
        lowest := removed[i].nonce;
      }
    }
  }

  lemma AllPayable(l: List, costLimit: nat, gasLimit: nat)
    requires Good(l) && l.costcap <= costLimit && l.gascap <= gasLimit
    ensures Unpayable(l.items, costLimit, gasLimit) == map[] && Stranded(l, costLimit, gasLimit) == map[]
  {
  }

  lemma PickedUnpayable(items: Items, costLimit: nat, gasLimit: nat)
    ensures Picked(items, OverLimit(costLimit, gasLimit)) == Unpayable(items, costLimit, gasLimit)
  {
  }

  lemma RemoveParts(l: List, nonce: nat)
    requires Good(l)
    ensures Remove(l, nonce) == l.(items := Remove(l, nonce).items)
    ensures !l.strict || nonce !in l.items ==> Remove(l, nonce).items == l.items - {nonce}
    ensures Picked(l.items - {nonce}, AboveNonce(nonce)) == From(l.items, nonce + 1)
    ensures l.strict && nonce in l.items ==>
      Remove(l, nonce).items == Unpicked(l.items - {nonce}, AboveNonce(nonce))
  {
  }

  /** The payable transactions above an unpayable one, in a strict list. */
  ghost function Stranded(l: List, costLimit: nat, gasLimit: nat): Items {
    map n | n in l.items && l.strict && Payable(l.items[n], costLimit, gasLimit) && n !in Kept(l, costLimit, gasLimit)
      :: l.items[n]
  }

  /** The least nonce over a limit. */
  ghost predicate FirstUnpayable(items: Items, costLimit: nat, gasLimit: nat, lowest: nat) {
    && lowest in items && !Payable(items[lowest], costLimit, gasLimit)
    && forall n :: n in items && n < lowest ==> Payable(items[n], costLimit, gasLimit)
  }

  lemma FirstOver(items: Items, removed: seq<Tx>, lowest: nat, costLimit: nat, gasLimit: nat)
    requires Filed(items) && Collects(Unpayable(items, costLimit, gasLimit), removed)
    requires forall k :: 0 <= k < |removed| ==> lowest <= removed[k].nonce
    requires exists k :: 0 <= k < |removed| && lowest == removed[k].nonce
    ensures FirstUnpayable(items, costLimit, gasLimit, lowest)
  {
    var over := Unpayable(items, costLimit, gasLimit);
    assert forall n :: n in items && !Payable(items[n], costLimit, gasLimit) ==> n in over && over[n] in removed;
    var k :| 0 <= k < |removed| && lowest == removed[k].nonce;
  }

  lemma StrandedAbove(l: List, payable: Items, costLimit: nat, gasLimit: nat, lowest: nat)
    requires Good(l) && l.strict && FirstUnpayable(l.items, costLimit, gasLimit, lowest)
    requires payable == Unpicked(l.items, OverLimit(costLimit, gasLimit))
    ensures Picked(payable, AboveNonce(lowest)) == Stranded(l, costLimit, gasLimit)
    ensures Unpicked(payable, AboveNonce(lowest)) == Kept(l, costLimit, gasLimit)
  {
    forall n | n in l.items
      ensures n in Kept(l, costLimit, gasLimit) <==> n < lowest
    {
      if n > lowest {
        assert lowest in l.items && lowest < n && !Payable(l.items[lowest], costLimit, gasLimit);
      }
    }
  }

  lemma NothingStranded(l: List, removed: seq<Tx>, costLimit: nat, gasLimit: nat)
    requires Good(l) && Collects(Unpayable(l.items, costLimit, gasLimit), removed) && (l.strict ==> removed == [])
    ensures Stranded(l, costLimit, gasLimit) == map[]
    ensures Unpicked(l.items, OverLimit(costLimit, gasLimit)) == Kept(l, costLimit, gasLimit)
  {
    var over := Unpayable(l.items, costLimit, gasLimit);
    assert forall n :: n in over ==> over[n] in removed;
    assert l.strict ==> over.Keys == {};
    forall n | n in l.items
      ensures n in Kept(l, costLimit, gasLimit) <==> Payable(l.items[n], costLimit, gasLimit)
    {
      assert l.strict ==> forall m :: m in l.items ==> (m in over.Keys <==> !Payable(l.items[m], costLimit, gasLimit));
    }
  }
}
