/** The per-account transaction list, as the plain nonce map it stands for. */
module TxList {

  type Address = nat

  /** The parts of a transaction the pool looks at; `hash` identifies it. */
  datatype Tx = Tx(hash: nat, sender: Address, nonce: nat, price: nat, cost: nat, gas: nat)

  type Items = map<nat, Tx>

  /** txList: strict lists hold consecutive nonces. The caps are upper bounds of cost and gas. */
  datatype List = List(strict: bool, items: Items, costcap: nat, gascap: nat)

  function Empty(strict: bool): List {
    List(strict, map[], 0, 0)
  }

  /** Transactions are filed under their nonces, and the caps bound them all. */
  ghost predicate Good(l: List) {
    forall n :: n in l.items ==> l.items[n].nonce == n && l.items[n].cost <= l.costcap && l.items[n].gas <= l.gascap
  }

  /** The nonces are consecutive. */
  ghost predicate Contiguous(items: Items) {
    forall i, j, k :: i in items && k in items && i <= j <= k ==> j in items
  }

  /** Whether a transaction at an occupied nonce may be replaced (txList.Add). */
  predicate Outbids(prev: Tx, tx: Tx, priceBump: nat): (r: bool)
    ensures r <==> prev.price < tx.price && prev.price * (100 + priceBump) < 100 * (tx.price + 1)
  {
    prev.price < tx.price && prev.price * (100 + priceBump) / 100 <= tx.price
  }

  predicate Accepts(l: List, tx: Tx, priceBump: nat) {
    tx.nonce in l.items ==> Outbids(l.items[tx.nonce], tx, priceBump)
  }

  function Added(l: List, tx: Tx): List {
    List(l.strict, l.items[tx.nonce := tx],
         if l.costcap < tx.cost then tx.cost else l.costcap,
         if l.gascap < tx.gas then tx.gas else l.gascap)
  }

  /** The transactions below a nonce, and the others. */
  function Below(items: Items, threshold: nat): Items {
    map n | n in items && n < threshold :: items[n]
  }

  function From(items: Items, threshold: nat): Items {
    map n | n in items && threshold <= n :: items[n]
  }

  function Forward(l: List, threshold: nat): List {
    l.(items := From(l.items, threshold))
  }

  predicate Payable(tx: Tx, costLimit: nat, gasLimit: nat) {
    tx.cost <= costLimit && tx.gas <= gasLimit
  }

  /** The transactions over a limit. */
  function Unpayable(items: Items, costLimit: nat, gasLimit: nat): Items {
    map n | n in items && !Payable(items[n], costLimit, gasLimit) :: items[n]
  }

  /** Those left by the limits; a strict list also loses everything above the first one over a limit. */
  function Kept(l: List, costLimit: nat, gasLimit: nat): Items {
    map n | n in l.items && Payable(l.items[n], costLimit, gasLimit) &&
      (l.strict ==> forall m :: m in l.items && m < n ==> Payable(l.items[m], costLimit, gasLimit)) :: l.items[n]
  }

  /** What txList.Filter leaves: with the caps in force the scan is skipped. */
  function Filter(l: List, costLimit: nat, gasLimit: nat): List {
    if l.costcap <= costLimit && l.gascap <= gasLimit then l
    else List(l.strict, Kept(l, costLimit, gasLimit), costLimit, gasLimit)
  }

  function Smaller(items: Items, n: nat): set<nat> {
    set m | m in items && m < n
  }

  /** How many smaller nonces there are. */
  function Rank(items: Items, n: nat): nat {
    |Smaller(items, n)|
  }

  function Lowest(items: Items, k: nat): Items {
    map n | n in items && Rank(items, n) < k :: items[n]
  }

  function Cap(l: List, k: nat): List {
    l.(items := Lowest(l.items, k))
  }

  /** Removal by nonce; a strict list also loses everything above it. */
  function Remove(l: List, nonce: nat): List {
    l.(items := map n | n in l.items && n != nonce && (l.strict && nonce in l.items ==> n < nonce) :: l.items[n])
  }

  predicate IsLeast(items: Items, n: nat) {
    n in items && forall m :: m in items ==> n <= m
  }

  /** The run of consecutive nonces from the least one, if that is not above `start`. */
  ghost predicate Ready(items: Items, start: nat, n: nat) {
    exists least: nat :: IsLeast(items, least) && least <= start && least <= n &&
      forall m :: least <= m <= n ==> m in items
  }

  /** The caps make Filter cheaper, never different: it returns what a full scan would. */
  lemma FilterIsScan(l: List, costLimit: nat, gasLimit: nat)
    requires Good(l)
    ensures Filter(l, costLimit, gasLimit).items == Kept(l, costLimit, gasLimit)
    ensures Good(Filter(l, costLimit, gasLimit))
  {
    assert Kept(l, costLimit, gasLimit) == Filter(l, costLimit, gasLimit).items;
  }

  /** Every operation keeps the nonce filing and the caps. */
  lemma OperationsKeepGood(l: List, tx: Tx, k: nat)
    requires Good(l)
    ensures Good(Added(l, tx)) && Good(Forward(l, k)) && Good(Cap(l, k)) && Good(Remove(l, k))
  {
  }

  lemma {:induction false} RankMonotone(items: Items, m: nat, n: nat)
    requires m in items && m < n
    ensures Rank(items, m) < Rank(items, n)
  {
    Subset(Smaller(items, m) + {m}, Smaller(items, n));
  }

  lemma {:induction false} Subset(a: set<nat>, b: set<nat>)
    requires a <= b
    ensures |a| <= |b|
  {
    if a != {} {
      var x :| x in a;
      Subset(a - {x}, b - {x});
    }
  }

  /** On a strict list with consecutive nonces every removal leaves consecutive nonces. */
  lemma RemovalsStayContiguous(l: List, costLimit: nat, gasLimit: nat, k: nat)
    requires Good(l) && l.strict && Contiguous(l.items)
    ensures Contiguous(Forward(l, k).items)
    ensures Contiguous(Filter(l, costLimit, gasLimit).items)
    ensures Contiguous(Cap(l, k).items)
    ensures Contiguous(Remove(l, k).items)
  {
    var low := Lowest(l.items, k);
    forall i, j, h | i in low && h in low && i <= j <= h
      ensures j in low
    {
      if j < h {
        RankMonotone(l.items, j, h);
      }
    }
  }
}
