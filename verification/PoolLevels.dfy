/** Levels of the fair allocation: every account keeps its lowest nonces up to a common level. */
module PoolLevels {
  import opened TxList
  import opened PoolState

  /** How many transactions the lists of these accounts hold. */
  ghost function Total(keys: set<Address>, m: Lists): nat
    requires keys <= m.Keys
  {
    if keys == {} then 0 else var a :| a in keys; |m[a].items| + Total(keys - {a}, m)
  }

  ghost function Size(m: Lists): nat {
    Total(m.Keys, m)
  }

  lemma {:induction false} TotalWithout(keys: set<Address>, m: Lists, a: Address)
    requires a in keys && keys <= m.Keys
    ensures Total(keys, m) == |m[a].items| + Total(keys - {a}, m)
  {
    var b :| b in keys && Total(keys, m) == |m[b].items| + Total(keys - {b}, m);
    if b != a {
      TotalWithout(keys - {b}, m, a);
      TotalWithout(keys - {a}, m, b);
      assert keys - {b} - {a} == keys - {a} - {b};
    }
  }

  lemma {:induction false} TotalSame(keys: set<Address>, m: Lists, m': Lists)
    requires keys <= m.Keys && keys <= m'.Keys && forall a :: a in keys ==> m[a].items == m'[a].items
    ensures Total(keys, m) == Total(keys, m')
  {
    if keys != {} {
      var a :| a in keys;
      TotalWithout(keys, m, a);
      TotalWithout(keys, m', a);
      TotalSame(keys - {a}, m, m');
    }
  }

  lemma {:induction false} TotalAtMost(keys: set<Address>, m: Lists, m': Lists)
    requires keys <= m.Keys && keys <= m'.Keys && forall a :: a in keys ==> |m[a].items| <= |m'[a].items|
    ensures Total(keys, m) <= Total(keys, m')
  {
    if keys != {} {
      var a :| a in keys;
      TotalWithout(keys, m, a);
      TotalWithout(keys, m', a);
      TotalAtMost(keys - {a}, m, m');
    }
  }

  /** Changing one list changes the size by the difference. */
  lemma SizeUpdate(m: Lists, a: Address, l: List)
    requires a in m
    ensures Size(m[a := l]) == Size(m) - |m[a].items| + |l.items|
  {
    var m' := m[a := l];
    assert m'.Keys == m.Keys;
    TotalWithout(m.Keys, m, a);
    TotalWithout(m.Keys, m', a);
    TotalSame(m.Keys - {a}, m, m');
  }

  lemma SizeDropEmpty(m: Lists, a: Address)
    requires a in m && m[a].items == map[]
    ensures Size(m - {a}) == Size(m)
  {
    TotalWithout(m.Keys, m, a);
    assert (m - {a}).Keys == m.Keys - {a};
    TotalSame(m.Keys - {a}, m, m - {a});
  }

  lemma ListAtMostSize(m: Lists, a: Address)
    requires a in m
    ensures |m[a].items| <= Size(m)
  {
    TotalWithout(m.Keys, m, a);
  }

  ghost predicate Greatest(items: Items, n: nat) {
    n in items && forall m :: m in items ==> m <= n
  }

  lemma {:induction false} HasGreatest(keys: set<nat>) returns (n: nat)
    requires keys != {}
    ensures n in keys && forall m :: m in keys ==> m <= n
  {
    n :| n in keys;
    var rest := keys - {n};
    assert forall m :: m in keys ==> m == n || m in rest;
    if rest != {} {
      var k := HasGreatest(rest);
      if n < k {
        n := k;
      }
    }
  }

  lemma RankBounded(items: Items, n: nat)
    requires n in items
    ensures Rank(items, n) < |items|
  {
    var rest := items.Keys - {n};
    Subset(Smaller(items, n), rest);
  }

  lemma KeepsAll(items: Items, k: nat)
    requires |items| <= k
    ensures Lowest(items, k) == items
  {
    forall n | n in items
      ensures Rank(items, n) < k
    {
      RankBounded(items, n);
    }
  }

  /** Without the greatest nonce the ranks of the others stay. */
  lemma LowestOfFewer(items: Items, top: nat, k: nat)
    requires Greatest(items, top) && k < |items|
    ensures Lowest(items, k) == Lowest(items - {top}, k)
  {
    assert Smaller(items, top) == items.Keys - {top};
    forall n | n in items && n != top
      ensures Rank(items, n) == Rank(items - {top}, n)
    {
      assert Smaller(items, n) == Smaller(items - {top}, n);
    }
  }

  lemma FewerKeys(items: Items, n: nat)
    requires n in items
    ensures |items - {n}| == |items| - 1
  {
    assert (items - {n}).Keys == items.Keys - {n};
  }

  lemma {:induction false} LowestSize(items: Items, k: nat)
    ensures |Lowest(items, k)| == if |items| <= k then |items| else k
    decreases |items|
  {
    if |items| <= k {
      KeepsAll(items, k);
    } else {
      var top := HasGreatest(items.Keys);
      FewerKeys(items, top);
      LowestOfFewer(items, top, k);
      LowestSize(items - {top}, k);
    }
  }

  /** Dropping the greatest of the k lowest leaves the k - 1 lowest. */
  lemma LowestNext(items: Items, k: nat, top: nat)
    requires 0 < k <= |items| && Greatest(Lowest(items, k), top)
    ensures Lowest(items, k) - {top} == Lowest(items, k - 1)
  {
    var low := Lowest(items, k);
    LowestSize(items, k);
    forall n | n in items && n < top
      ensures n in low
    {
      RankMonotone(items, n, top);
    }
    assert Smaller(items, top) == low.Keys - {top};
    forall n | n in items && n != top
      ensures Rank(items, n) != k - 1
    {
      if n < top {
        RankMonotone(items, n, top);
      } else {
        RankMonotone(items, top, n);
      }
    }
  }

  /** Every account that is not local cut to its lowest `e` nonces. */
  ghost function Level(start: Lists, locals: set<Address>, e: nat): Lists {
    map a | a in start :: if a in locals then start[a] else Cap(start[a], e)
  }

  /** The level the eviction must reach: it is the highest one that fits, but never below the slots
      that every account is granted. */
  ghost predicate FairLevel(start: Lists, locals: set<Address>, accountSlots: nat, globalSlots: nat, e: nat) {
    && accountSlots <= e
    && (Size(Level(start, locals, e)) <= globalSlots || e == accountSlots)
    && (Level(start, locals, e) != start ==> Size(Level(start, locals, e + 1)) > globalSlots)
  }

  /** The remote accounts with at least `e` transactions. */
  ghost predicate Reaching(start: Lists, locals: set<Address>, e: nat, a: Address) {
    a in start && a !in locals && e <= |start[a].items|
  }

  ghost predicate Over(start: Lists, locals: set<Address>, e: nat, a: Address) {
    a in start && a !in locals && e < |start[a].items|
  }

  lemma LevelWhole(start: Lists, locals: set<Address>, e: nat)
    requires forall a :: !Over(start, locals, e, a)
    ensures Level(start, locals, e) == start
  {
    forall a | a in start && a !in locals
      ensures Cap(start[a], e) == start[a]
    {
      assert !Over(start, locals, e, a);
      KeepsAll(start[a].items, e);
    }
  }

  lemma LevelSizes(start: Lists, locals: set<Address>, e: nat, a: Address)
    requires a in start
    ensures a in Level(start, locals, e)
    ensures |Level(start, locals, e)[a].items| == if a in locals || |start[a].items| <= e then |start[a].items| else e
  {
    LowestSize(start[a].items, e);
  }

  lemma LevelMonotone(start: Lists, locals: set<Address>, e: nat, f: nat)
    requires e <= f
    ensures Size(Level(start, locals, e)) <= Size(Level(start, locals, f))
  {
    forall a | a in start
      ensures |Level(start, locals, e)[a].items| <= |Level(start, locals, f)[a].items|
    {
      LevelSizes(start, locals, e, a);
      LevelSizes(start, locals, f, a);
    }
    assert Level(start, locals, e).Keys == start.Keys == Level(start, locals, f).Keys;
    TotalAtMost(start.Keys, Level(start, locals, e), Level(start, locals, f));
  }

  lemma FairBelow(start: Lists, locals: set<Address>, accountSlots: nat, globalSlots: nat, e: nat, f: nat)
    requires FairLevel(start, locals, accountSlots, globalSlots, e)
    requires FairLevel(start, locals, accountSlots, globalSlots, f)
    requires e < f
    ensures Level(start, locals, e) == start && Level(start, locals, f) == start
  {
    LevelMonotone(start, locals, e + 1, f);
    assert Level(start, locals, e) == start;
    forall a
      ensures !Over(start, locals, f, a)
    {
      if a in start && a !in locals {
        LevelSizes(start, locals, e, a);
      }
    }
    LevelWhole(start, locals, f);
  }

  /** There is one fair allocation: two fair levels keep the same transactions. */
  lemma FairLevelUnique(start: Lists, locals: set<Address>, accountSlots: nat, globalSlots: nat, e: nat, f: nat)
    requires FairLevel(start, locals, accountSlots, globalSlots, e)
    requires FairLevel(start, locals, accountSlots, globalSlots, f)
    ensures Level(start, locals, e) == Level(start, locals, f)
  {
    if e < f {
      FairBelow(start, locals, accountSlots, globalSlots, e, f);
    } else if f < e {
      FairBelow(start, locals, accountSlots, globalSlots, f, e);
    }
  }

  /** Locals keep everything, and every account as many as it is granted. */
  ghost predicate Granted(before: Lists, after: Lists, locals: set<Address>, slots: nat) {
    && after.Keys == before.Keys
    && forall a :: a in before ==>
         if a in locals || |before[a].items| <= slots then after[a].items == before[a].items
         else slots <= |after[a].items| <= |before[a].items|
  }

  ghost predicate NobodyOver(pending: Lists, locals: set<Address>, slots: nat) {
    forall a :: a in pending && a !in locals ==> |pending[a].items| <= slots
  }

  lemma LevelGrants(start: Lists, locals: set<Address>, slots: nat, e: nat)
    requires slots <= e
    ensures Granted(start, Level(start, locals, e), locals, slots)
    ensures NobodyOver(Level(start, locals, e), locals, e)
  {
    hide Lowest;
    var level := Level(start, locals, e);
    forall a | a in start
      ensures if a in locals || |start[a].items| <= slots then level[a].items == start[a].items
        else slots <= |level[a].items| <= |start[a].items|
      ensures a in locals || |level[a].items| <= e
    {
      LevelSizes(start, locals, e, a);
      if |start[a].items| <= e {
        KeepsAll(start[a].items, e);
      }
    }
  }

  lemma LevelAtMost(start: Lists, locals: set<Address>, e: nat)
    ensures Size(Level(start, locals, e)) <= Size(start)
  {
    hide Cap;
    forall a | a in start
      ensures |Level(start, locals, e)[a].items| <= |start[a].items|
    {
      LevelSizes(start, locals, e, a);
    }
    assert Level(start, locals, e).Keys == start.Keys;
    TotalAtMost(start.Keys, Level(start, locals, e), start);
  }

  /** What a fair level means for the accounts. */
  lemma FairGrants(start: Lists, locals: set<Address>, accountSlots: nat, globalSlots: nat, e: nat)
    requires FairLevel(start, locals, accountSlots, globalSlots, e)
    ensures Granted(start, Level(start, locals, e), locals, accountSlots)
    ensures Size(start) <= globalSlots ==> Level(start, locals, e) == start
    ensures Size(Level(start, locals, e)) <= globalSlots || NobodyOver(Level(start, locals, e), locals, accountSlots)
  {
    hide Granted, NobodyOver, Level, Size;
    LevelGrants(start, locals, accountSlots, e);
    LevelAtMost(start, locals, e + 1);
  }

  /** In the middle of a round: the accounts already served are one below the level. */
  ghost function Halfway(start: Lists, locals: set<Address>, e: nat, served: set<Address>): Lists
    requires 0 < e
  {
    map a | a in start ::
      if a in locals then start[a] else Cap(start[a], if a in served then e - 1 else e)
  }

  lemma RoundBegins(start: Lists, locals: set<Address>, e: nat)
    requires 0 < e
    ensures Halfway(start, locals, e, {}) == Level(start, locals, e)
  {
  }

  lemma RoundStep(start: Lists, locals: set<Address>, e: nat, served: set<Address>, a: Address, top: nat)
    requires 0 < e && a in start && a !in locals && a !in served && e <= |start[a].items|
    requires Greatest(Halfway(start, locals, e, served)[a].items, top)
    ensures var m := Halfway(start, locals, e, served);
      m[a := Without(m[a], top)] == Halfway(start, locals, e, served + {a})
  {
    LowestNext(start[a].items, e, top);
  }

  lemma RoundEnds(start: Lists, locals: set<Address>, e: nat, served: set<Address>)
    requires 0 < e && forall a :: Reaching(start, locals, e, a) ==> a in served
    ensures Halfway(start, locals, e, served) == Level(start, locals, e - 1)
  {
    forall a | a in start && a !in locals && a !in served
      ensures Cap(start[a], e) == Cap(start[a], e - 1)
    {
      assert !Reaching(start, locals, e, a);
      KeepsAll(start[a].items, e);
      KeepsAll(start[a].items, e - 1);
    }
  }

  /** Nothing was dropped without need: one level higher would not fit. */
  ghost predicate Justified(start: Lists, locals: set<Address>, globalSlots: nat, e: nat) {
    Level(start, locals, e) != start ==> Size(Level(start, locals, e + 1)) > globalSlots
  }

  ghost predicate Distinct(s: seq<Address>) {
    forall i, j :: 0 <= i < j < |s| ==> s[i] != s[j]
  }

  /** The next offender: an account with the longest list. */
  method Longest(accounts: set<Address>, m: Lists) returns (a: Address)
    requires accounts != {} && accounts <= m.Keys
    ensures a in accounts && forall b :: b in accounts ==> |m[b].items| <= |m[a].items|
  {
    a :| a in accounts;
    var rest := accounts - {a};
    while rest != {}
      invariant rest <= accounts && a in accounts
      invariant forall b :: b in accounts && b !in rest ==> |m[b].items| <= |m[a].items|
      decreases rest
    {
      var b :| b in rest;
      if |m[a].items| < |m[b].items| {
        a := b;
      }
      rest := rest - {b};
    }
  }

  method Count(m: Lists) returns (n: nat)
    ensures n == Size(m)
  {
    n := 0;
    var rest := m.Keys;
    while rest != {}
      invariant rest <= m.Keys && n + Total(rest, m) == Size(m)
      decreases rest
    {
      var a :| a in rest;
      TotalWithout(rest, m, a);
      n := n + |m[a].items|;
      rest := rest - {a};
    }
  }

  method Maximum(keys: set<nat>) returns (top: nat)
    requires keys != {}
    ensures top in keys && forall n :: n in keys ==> n <= top
  {
    top :| top in keys;
    var rest := keys - {top};
    while rest != {}
      invariant rest <= keys && top in keys && forall n :: n in keys && n !in rest ==> n <= top
      decreases rest
    {
      var n :| n in rest;
      if top < n {
        top := n;
      }
      rest := rest - {n};
    }
  }
}
