/** txSortedMap: a nonce map with an array heap of its keys and a lazily maintained sorted cache. */
module SortedMap {
  import opened TxList
  import opened Heap

  datatype Option<T> = None | Some(value: T)

  predicate NonceLess(a: nat, b: nat) {
    a < b
  }

  /** The transactions of the map in nonce order, each once. */
  ghost predicate Lists(items: Items, s: seq<Tx>) {
    && (forall i, j :: 0 <= i < j < |s| ==> s[i].nonce < s[j].nonce)
    && (forall i :: 0 <= i < |s| ==> s[i].nonce in items && items[s[i].nonce] == s[i])
    && (forall n :: n in items ==> items[n] in s)
  }

  ghost predicate Filed(items: Items) {
    forall n :: n in items ==> items[n].nonce == n
  }

  /** The heap holds exactly the keys, without duplicates. */
  ghost predicate Indexes(items: Items, index: seq<nat>) {
    IsHeap(NonceLess, index) && multiset(index) == multiset(items.Keys)
  }

  lemma NonceOrder()
    ensures WeakOrder(NonceLess)
  {
  }

  /** The head of the index is the least nonce. */
  lemma HeadIsLeast(items: Items, index: seq<nat>)
    requires Indexes(items, index) && 0 < |index|
    ensures IsLeast(items, index[0])
  {
    NonceOrder();
    assert index[0] in multiset(index);
    forall m | m in items
      ensures index[0] <= m
    {
      assert m in multiset(index);
      var i :| 0 <= i < |index| && index[i] == m;
      RootIsLeast(NonceLess, index, i);
    }
  }

  lemma EmptyIndex(items: Items, index: seq<nat>)
    requires Indexes(items, index) && |index| == 0
    ensures items == map[]
  {
    assert forall n :: n in items.Keys <==> n in multiset(items.Keys);
  }

  lemma DropKey(items: Items, n: nat)
    requires n in items
    ensures multiset((items - {n}).Keys) == multiset(items.Keys) - multiset{n}
  {
    assert (items - {n}).Keys == items.Keys - {n};
  }

  lemma AddKey(items: Items, n: nat, tx: Tx)
    ensures n !in items ==> multiset(items[n := tx].Keys) == multiset(items.Keys) + multiset{n}
    ensures n in items ==> items[n := tx].Keys == items.Keys
  {
    assert items[n := tx].Keys == items.Keys + {n};
  }

  /** A nonce-sorted listing is unique. */
  lemma {:induction false} ListsUnique(items: Items, a: seq<Tx>, b: seq<Tx>)
    requires Filed(items) && Lists(items, a) && Lists(items, b)
    ensures a == b
    decreases |a|
  {
    if a != [] {
      assert items[a[0].nonce] in b;
      if b != [] {
        assert items[b[0].nonce] in a;
        FirstIsLeast(items, a);
        FirstIsLeast(items, b);
        assert a[0].nonce == b[0].nonce;
        var n := a[0].nonce;
        TailLists(items, a);
        TailLists(items, b);
        ListsUnique(items - {n}, a[1..], b[1..]);
        assert a == [a[0]] + a[1..] && b == [b[0]] + b[1..];
      }
    }
  }

  lemma FirstIsLeast(items: Items, s: seq<Tx>)
    requires Lists(items, s) && s != [] && Filed(items)
    ensures IsLeast(items, s[0].nonce)
  {
    forall m | m in items
      ensures s[0].nonce <= m
    {
      var i :| 0 <= i < |s| && s[i] == items[m];
    }
  }

  lemma TailLists(items: Items, s: seq<Tx>)
    requires Filed(items) && Lists(items, s) && s != []
    ensures Lists(items - {s[0].nonce}, s[1..])
  {
    forall n | n in items - {s[0].nonce}
      ensures items[n] in s[1..]
    {
      var i :| 0 <= i < |s| && s[i] == items[n];
      assert s[1..][i - 1] == items[n];
    }
  }

  ghost predicate Ascending(s: seq<nat>) {
    forall i, j :: 0 <= i < j < |s| ==> s[i] < s[j]
  }

  /** The keys of the map in ascending order. */
  ghost predicate Enumerates(items: Items, keys: seq<nat>) {
    Ascending(keys) && forall n :: n in items <==> n in keys
  }

  /** A sorted listing cut at nonce `t`. */
  lemma CutAt(items: Items, s: seq<Tx>, k: nat, t: nat)
    requires Filed(items) && Lists(items, s) && k <= |s|
    requires (forall i :: 0 <= i < k ==> s[i].nonce < t) && (forall i :: k <= i < |s| ==> t <= s[i].nonce)
    ensures Lists(Below(items, t), s[..k]) && Lists(From(items, t), s[k..])
  {
    forall n | n in items
      ensures if n < t then items[n] in s[..k] else items[n] in s[k..]
    {
      CutMember(items, s, k, t, n);
    }
  }

  lemma CutMember(items: Items, s: seq<Tx>, k: nat, t: nat, n: nat)
    requires Filed(items) && Lists(items, s) && k <= |s| && n in items
    requires (forall i :: 0 <= i < k ==> s[i].nonce < t) && (forall i :: k <= i < |s| ==> t <= s[i].nonce)
    ensures if n < t then items[n] in s[..k] else items[n] in s[k..]
  {
    var i :| 0 <= i < |s| && s[i] == items[n];
    if n < t {
      assert s[..k][i] == items[n];
    } else {
      assert s[k..][i - k] == items[n];
    }
  }

  /** The sorted listing splits at every nonce. */
  lemma SplitAt(items: Items, s: seq<Tx>, r: seq<Tx>, t: nat)
    requires Filed(items) && Lists(items, s) && Lists(Below(items, t), r)
    ensures |r| <= |s| && s[..|r|] == r && Lists(From(items, t), s[|r|..])
  {
    var k := 0;
    while k < |s| && s[k].nonce < t
      invariant 0 <= k <= |s| && forall i :: 0 <= i < k ==> s[i].nonce < t
    {
      k := k + 1;
    }
    CutAt(items, s, k, t);
    ListsUnique(Below(items, t), s[..k], r);
  }

  /** The rank of a nonce is its place in the sorted listing. */
  lemma {:induction false} RankIsPosition(items: Items, s: seq<nat>, k: nat)
    requires k < |s| && Enumerates(items, s)
    ensures Rank(items, s[k]) == k
  {
    if k == 0 {
      forall m | m in items
        ensures s[0] <= m
      {
        var i :| 0 <= i < |s| && s[i] == m;
      }
      assert Smaller(items, s[k]) == {};
    } else {
      RankIsPosition(items, s, k - 1);
      forall m | m in Smaller(items, s[k])
        ensures m in Smaller(items, s[k - 1]) || m == s[k - 1]
      {
        var i :| 0 <= i < |s| && s[i] == m;
      }
      assert s[k - 1] in items;
      assert Smaller(items, s[k]) == Smaller(items, s[k - 1]) + {s[k - 1]};
    }
  }

  /** The keys of a set in ascending order (sort.Sort over the nonces). */
  method SortedKeys(keys: set<nat>) returns (s: seq<nat>)
    ensures Ascending(s) && forall n :: n in keys <==> n in s
    ensures |s| == |keys|
  {
    s := [];
    var rest := keys;
    while rest != {}
      invariant rest <= keys && |s| + |rest| == |keys|
      invariant forall n :: n in keys <==> n in rest || n in s
      invariant Ascending(s)
      invariant forall i, n :: 0 <= i < |s| && n in rest ==> s[i] < n
    {
      var least := Minimum(rest);
      s := s + [least];
      rest := rest - {least};
    }
  }

  method Minimum(keys: set<nat>) returns (least: nat)
    requires keys != {}
    ensures least in keys && forall n :: n in keys ==> least <= n
  {
    least :| least in keys;
    var rest := keys - {least};
    while rest != {}
      invariant rest <= keys && least in keys && forall n :: n in keys && n !in rest ==> least <= n
      decreases rest
    {
      var n :| n in rest;
      if n < least {
        least := n;
      }
      rest := rest - {n};
    }
  }

  /** The transactions at the given nonces. */
  function Pick(items: Items, keys: seq<nat>): (s: seq<Tx>)
    requires forall i :: 0 <= i < |keys| ==> keys[i] in items
    ensures |s| == |keys| && forall i :: 0 <= i < |keys| ==> s[i] == items[keys[i]]
  {
    seq(|keys|, i requires 0 <= i < |keys| => items[keys[i]])
  }

  lemma PickLists(items: Items, keys: seq<nat>)
    requires Filed(items) && Enumerates(items, keys)
    ensures Lists(items, Pick(items, keys))
  {
    var s := Pick(items, keys);
    forall n | n in items
      ensures items[n] in s
    {
      var i :| 0 <= i < |keys| && keys[i] == n;
      assert s[i] == items[n];
    }
  }

  class SortedTxs {
    var items: Items
    var index: seq<nat>
    var cache: Option<seq<Tx>>

    ghost predicate Valid()
      reads this
    {
      Filed(items) && Indexes(items, index) && (cache.Some? ==> Lists(items, cache.value))
    }

    constructor ()
      ensures Valid() && items == map[]
    {
      items, index, cache := map[], [], None;
    }

    function Get(nonce: nat): Option<Tx>
      reads this
    {
      if nonce in items then Some(items[nonce]) else None
    }

    method Put(tx: Tx)
      requires Valid()
      modifies this
      ensures Valid() && items == old(items)[tx.nonce := tx]
    {
      NonceOrder();
      AddKey(items, tx.nonce, tx);
      if tx.nonce !in items {
        index := Push(NonceLess, index, tx.nonce);
      }
      items, cache := items[tx.nonce := tx], None;
    }

    /** Take the least nonce off the heap and out of the map. */
    method PopLeast() returns (nonce: nat, tx: Tx)
      requires Filed(items) && Indexes(items, index) && 0 < |index|
      modifies `items, `index
      ensures IsLeast(old(items), nonce) && nonce == old(index)[0] && tx == old(items)[nonce]
      ensures items == old(items) - {nonce} && Indexes(items, index) && Filed(items)
      ensures |index| == |old(index)| - 1
    {
      NonceOrder();
      HeadIsLeast(items, index);
      nonce := index[0];
      tx := items[nonce];
      index := Heap.Remove(NonceLess, index, 0);
      DropKey(items, nonce);
      items := items - {nonce};
    }

    /** Forward: everything below the threshold, in nonce order. */
    method Forward(threshold: nat) returns (removed: seq<Tx>)
      requires Valid()
      modifies this
      ensures Valid() && items == From(old(items), threshold)
      ensures Lists(Below(old(items), threshold), removed)
    {
      removed := [];
      ghost var gone: Items := map[];
      while 0 < |index| && index[0] < threshold
        invariant Filed(items) && Indexes(items, index) && cache == old(cache)
        invariant Parts(old(items), gone, items) && Lists(gone, removed)
        invariant forall n :: n in gone ==> n < threshold
        decreases |index|
      {
        var nonce, tx := PopLeast();
        ListsExtend(gone, removed, tx);
        gone := gone[nonce := tx];
        removed := removed + [tx];
      }
      if 0 < |index| { HeadIsLeast(items, index); } else { EmptyIndex(items, index); }
      assert items == From(old(items), threshold);
      assert gone == Below(old(items), threshold);
      if cache.Some? {
        SplitAt(old(items), cache.value, removed, threshold);
        cache := Some(cache.value[|removed|..]);
      }
    }

    /** Ready: the run of consecutive nonces from the least one, unless that is above `start`. */
    method TakeReady(start: nat) returns (ready: seq<Tx>)
      requires Valid()
      modifies this
      ensures Valid()
      ensures items == NotReady(old(items), start)
      ensures Lists(AllReady(old(items), start), ready)
    {
      hide Indexes, Lists, AllReady, NotReady, Within, Outside;
      ready := [];
      if 0 < |index| {
        HeadIsLeast(items, index);
        if index[0] <= start {
          ghost var least := index[0];
          ghost var next;
          ready, next := PopRun();
          ReadyParts(old(items), start, least, next);
          cache := None;
          return;
        }
      } else {
        EmptyIndex(items, index);
      }
      NothingReady(items, start);
    }

    /** Filter: drop what the predicate picks; the heap is rebuilt and the cache forgotten. */
    method FilterOut(f: Tx -> bool) returns (removed: seq<Tx>)
      requires Valid()
      modifies this
      ensures Valid() && items == Unpicked(old(items), f)
      ensures Collects(Picked(old(items), f), removed)
    {
      removed := Extract(f);
      if |removed| > 0 {
        Rebuild();
      } else {
        NothingPicked(old(items), f);
      }
    }

    method Extract(f: Tx -> bool) returns (removed: seq<Tx>)
      requires Filed(items)
      modifies `items
      ensures Filed(items) && items == Unpicked(old(items), f)
      ensures Collects(Picked(old(items), f), removed)
    {
      removed := [];
      var rest := items.Keys;
      ghost var gone: Items := map[];
      while rest != {}
        invariant rest <= old(items).Keys
        invariant forall n :: n in items <==> n in old(items) && (n in rest || !f(old(items)[n]))
        invariant forall n :: n in items ==> items[n] == old(items)[n]
        invariant forall n :: n in gone <==> n in old(items) && n !in rest && f(old(items)[n])
        invariant forall n :: n in gone ==> gone[n] == old(items)[n]
        invariant Collects(gone, removed)
        decreases rest
      {
        var n :| n in rest;
        rest := rest - {n};
        if f(items[n]) {
          CollectsMore(gone, removed, items[n]);
          gone := gone[n := items[n]];
          removed := removed + [items[n]];
          items := items - {n};
        }
      }
      assert gone == Picked(old(items), f);
      assert items == Unpicked(old(items), f);
    }

    /** Make the heap anew from the keys. */
    method Rebuild()
      requires Filed(items)
      modifies `index, `cache
      ensures Valid()
    {
      NonceOrder();
      var keys := SortedKeys(items.Keys);
      KeysOnce(items, keys);
      index := Heap.Init(NonceLess, keys);
      cache := None;
    }

    /** Cap: keep the lowest nonces, return the others from the highest down. */
    method CapAt(threshold: nat) returns (drops: seq<Tx>)
      requires Valid()
      modifies this
      ensures Valid() && items == Lowest(old(items), threshold)
      ensures Lists(Highest(old(items), threshold), Reversed(drops))
    {
      var keys := SortedKeys(items.Keys);
      if |keys| <= threshold {
        AllLow(items, keys, threshold);
        drops := [];
      } else {
        drops := CapDown(keys, threshold);
      }
    }

    method CapDown(keys: seq<nat>, threshold: nat) returns (drops: seq<Tx>)
      requires Valid() && Enumerates(items, keys) && threshold < |keys|
      modifies this
      ensures Valid() && items == Lowest(old(items), threshold)
      ensures Lists(Highest(old(items), threshold), Reversed(drops))
    {
      if cache.Some? {
        CutListing(items, cache.value, keys, threshold);
      }
      drops := DropHighest(keys, threshold);
      CutPick(old(items), keys, threshold);
      ReindexTo(keys[..threshold]);
      if cache.Some? {
        cache := Some(cache.value[..|cache.value| - |drops|]);
      }
    }

    method ReindexTo(keys: seq<nat>)
      requires Enumerates(items, keys)
      modifies `index
      ensures Indexes(items, index)
    {
      NonceOrder();
      KeysOnce(items, keys);
      index := Heap.Init(NonceLess, keys);
    }

    /** Delete the nonces from the top down. */
    method DropHighest(keys: seq<nat>, threshold: nat) returns (drops: seq<Tx>)
      requires Filed(items) && Enumerates(items, keys) && threshold <= |keys|
      modifies `items
      ensures Filed(items) && items == Lowest(old(items), threshold)
      ensures (forall i :: 0 <= i < |keys| ==> keys[i] in old(items))
      ensures drops == Reversed(Pick(old(items), keys)[threshold..])
    {
      drops := [];
      AllLow(items, keys, |keys|);
      assert forall i :: 0 <= i < |keys| ==> keys[i] in keys;
      ghost var all := Pick(items, keys);
      var size := |keys|;
      while size > threshold
        invariant threshold <= size <= |keys| && items == Lowest(old(items), size)
        invariant drops == Reversed(all[size..])
      {
        RankIsPosition(old(items), keys, size - 1);
        LowestShrinks(old(items), keys[size - 1], size - 1);
        ReversedMore(all, size - 1);
        drops := drops + [items[keys[size - 1]]];
        items := items - {keys[size - 1]};
        size := size - 1;
      }
    }

    /** Remove: tells whether the nonce was there. */
    method RemoveNonce(nonce: nat) returns (found: bool)
      requires Valid()
      modifies this
      ensures Valid() && found == (nonce in old(items)) && items == old(items) - {nonce}
    {
      found := nonce in items;
      if !found {
        return;
      }
      NonceOrder();
      DropKey(items, nonce);
      assert nonce in multiset(items.Keys) && nonce in multiset(index);
      var i := 0;
      while index[i] != nonce
        invariant 0 <= i < |index| && index == old(index) && nonce in index[i..]
        decreases |index| - i
      {
        i := i + 1;
      }
      index := Heap.Remove(NonceLess, index, i);
      items := items - {nonce};
      cache := None;
    }

    /** Flatten: the nonce-sorted contents, cached until the next change. */
    method Flatten() returns (txs: seq<Tx>)
      requires Valid()
      modifies `cache
      ensures Valid() && Lists(items, txs)
    {
      if cache.None? {
        var keys := SortedKeys(items.Keys);
        PickLists(items, keys);
        cache := Some(Pick(items, keys));
      }
      txs := cache.value;
    }

    method PopRun() returns (ready: seq<Tx>, ghost stop: nat)
      requires Filed(items) && Indexes(items, index) && 0 < |index|
      modifies `items, `index
      ensures Filed(items) && Indexes(items, index)
      ensures old(index)[0] < stop && stop !in old(items)
      ensures forall n: nat :: old(index)[0] <= n < stop ==> n in old(items)
      ensures items == Outside(old(items), old(index)[0], stop)
      ensures Lists(Within(old(items), old(index)[0], stop), ready)
    {
      hide Indexes, Lists, Parts;
      NothingTaken(items);
      ready := [];
      ghost var gone: Items, least := map[], index[0];
      var next := index[0];
      while 0 < |index| && index[0] == next
        invariant Filed(items) && Indexes(items, index)
        invariant Parts(old(items), gone, items) && Lists(gone, ready)
        invariant least <= next && forall n :: n in gone <==> least <= n < next
        invariant least == next ==> index == old(index) && items == old(items)
        decreases |index|
      {
        ghost var prev := items;
        var nonce, tx := PopLeast();
        TakeNext(old(items), gone, ready, prev, nonce);
        gone := gone[nonce := tx];
        ready := ready + [tx];
        next := next + 1;
      }
      stop := next;
      RunEnds(old(items), gone, items, index, least, next);
    }
  }

  function Reversed<T>(s: seq<T>): (r: seq<T>)
    ensures |r| == |s| && forall i :: 0 <= i < |s| ==> r[i] == s[|s| - 1 - i]
  {
    seq(|s|, i requires 0 <= i < |s| => s[|s| - 1 - i])
  }

  function Highest(items: Items, k: nat): Items {
    map n | n in items && Rank(items, n) >= k :: items[n]
  }

  lemma LowestShrinks(items: Items, m: nat, k: nat)
    requires m in items && Rank(items, m) == k
    ensures Lowest(items, k + 1) - {m} == Lowest(items, k)
  {
    forall n | n in items && n != m
      ensures Rank(items, n) != k
    {
      if n < m {
        RankMonotone(items, n, m);
      } else {
        RankMonotone(items, m, n);
      }
    }
  }

  lemma LowestIsBelow(items: Items, keys: seq<nat>, k: nat)
    requires k < |keys| && Enumerates(items, keys)
    ensures Lowest(items, k) == Below(items, keys[k]) && Highest(items, k) == From(items, keys[k])
    ensures Enumerates(Lowest(items, k), keys[..k])
  {
    forall n | n in items
      ensures Rank(items, n) < k <==> n < keys[k]
      ensures Rank(items, n) < k <==> n in keys[..k]
    {
      RankOfKey(items, keys, k, n);
    }
    forall i | 0 <= i < k
      ensures keys[..k][i] in items
    {
      assert keys[i] in keys;
    }
  }

  lemma RankOfKey(items: Items, keys: seq<nat>, k: nat, n: nat)
    requires k < |keys| && Enumerates(items, keys) && n in items
    ensures Rank(items, n) < k <==> n < keys[k]
    ensures Rank(items, n) < k <==> n in keys[..k]
  {
    var i :| 0 <= i < |keys| && keys[i] == n;
    RankIsPosition(items, keys, i);
    if i < k {
      assert keys[..k][i] == n;
    }
  }

  lemma ReversedMore<T>(s: seq<T>, k: nat)
    requires k < |s|
    ensures Reversed(s[k..]) == Reversed(s[k + 1..]) + [s[k]]
  {
  }

  lemma AllLow(items: Items, keys: seq<nat>, k: nat)
    requires Enumerates(items, keys) && |keys| <= k
    ensures Lowest(items, k) == items && Highest(items, k) == map[]
  {
    forall n | n in items
      ensures Rank(items, n) < k
    {
      var i :| 0 <= i < |keys| && keys[i] == n;
      RankIsPosition(items, keys, i);
    }
  }

  lemma CutPick(items: Items, keys: seq<nat>, k: nat)
    requires Filed(items) && k < |keys| && Enumerates(items, keys)
    requires forall i :: 0 <= i < |keys| ==> keys[i] in items
    ensures Enumerates(Lowest(items, k), keys[..k])
    ensures Lists(Highest(items, k), Reversed(Reversed(Pick(items, keys)[k..])))
  {
    var all := Pick(items, keys);
    PickLists(items, keys);
    LowestIsBelow(items, keys, k);
    CutAt(items, all, k, keys[k]);
    ReversedTwice(all[k..]);
  }

  lemma ReversedTwice<T>(s: seq<T>)
    ensures Reversed(Reversed(s)) == s
  {
  }

  /** The cached listing loses as many entries at the back as were dropped. */
  lemma CutListing(items: Items, s: seq<Tx>, keys: seq<nat>, k: nat)
    requires Filed(items) && Lists(items, s) && k < |keys| && Enumerates(items, keys)
    ensures |s| == |keys| && Lists(Lowest(items, k), s[..k])
  {
    PickLists(items, keys);
    ListsUnique(items, s, Pick(items, keys));
    LowestIsBelow(items, keys, k);
    CutAt(items, s, k, keys[k]);
  }

  ghost function Picked(items: Items, f: Tx -> bool): Items {
    map n | n in items && f(items[n]) :: items[n]
  }

  ghost function Unpicked(items: Items, f: Tx -> bool): Items {
    map n | n in items && !f(items[n]) :: items[n]
  }

  /** The transactions of the map in any order, each once. */
  ghost predicate Collects(items: Items, s: seq<Tx>) {
    && (forall i, j :: 0 <= i < j < |s| ==> s[i].nonce != s[j].nonce)
    && (forall i :: 0 <= i < |s| ==> s[i].nonce in items && items[s[i].nonce] == s[i])
    && (forall n :: n in items ==> items[n] in s)
  }

  lemma NothingPicked(items: Items, f: Tx -> bool)
    requires Collects(Picked(items, f), [])
    ensures Unpicked(items, f) == items
  {
    assert Picked(items, f).Keys == {};
    assert forall n :: n in items && f(items[n]) ==> n in Picked(items, f).Keys;
  }

  lemma CollectsMore(items: Items, s: seq<Tx>, tx: Tx)
    requires Collects(items, s) && tx.nonce !in items
    ensures Collects(items[tx.nonce := tx], s + [tx])
  {
    var t := s + [tx];
    assert t[|s|] == tx;
    forall n | n in items
      ensures items[n] in t
    {
      var i :| 0 <= i < |s| && s[i] == items[n];
      assert t[i] == items[n];
    }
  }

  lemma {:induction false} KeysOnce(items: Items, keys: seq<nat>)
    requires Enumerates(items, keys)
    ensures multiset(keys) == multiset(items.Keys)
  {
    forall n: nat
      ensures multiset(keys)[n] == multiset(items.Keys)[n]
    {
      CountOnce(keys, n);
    }
  }

  lemma {:induction false} CountOnce(keys: seq<nat>, n: nat)
    requires Ascending(keys)
    ensures multiset(keys)[n] == if n in keys then 1 else 0
  {
    if keys != [] {
      var k := |keys| - 1;
      CountOnce(keys[..k], n);
      assert keys == keys[..k] + [keys[k]];
    }
  }

  ghost function Within(items: Items, lo: nat, hi: nat): Items {
    map n | n in items && lo <= n < hi :: items[n]
  }

  ghost function Outside(items: Items, lo: nat, hi: nat): Items {
    map n | n in items && !(lo <= n < hi) :: items[n]
  }

  lemma RunEnds(items0: Items, gone: Items, items: Items, index: seq<nat>, least: nat, next: nat)
    requires Indexes(items, index) && Parts(items0, gone, items) && least < next
    requires forall n :: n in gone <==> least <= n < next
    requires 0 < |index| ==> index[0] != next
    ensures next !in items0 && items == Outside(items0, least, next) && gone == Within(items0, least, next)
    ensures forall n: nat :: least <= n < next ==> n in items0
  {
    if 0 < |index| { HeadIsLeast(items, index); } else { EmptyIndex(items, index); }
    assert next - 1 in gone;
  }

  lemma NothingTaken(items: Items)
    ensures Parts(items, map[], items) && Lists(map[], [])
  {
  }

  /** The least of the rest comes next in the listing of what was taken. */
  lemma TakeNext(items0: Items, gone: Items, ready: seq<Tx>, items: Items, nonce: nat)
    requires Parts(items0, gone, items) && Lists(gone, ready) && Filed(items) && IsLeast(items, nonce)
    ensures Parts(items0, gone[nonce := items[nonce]], items - {nonce})
    ensures Lists(gone[nonce := items[nonce]], ready + [items[nonce]])
  {
    ListsExtend(gone, ready, items[nonce]);
  }

  lemma ReadyParts(items: Items, start: nat, least: nat, next: nat)
    requires IsLeast(items, least) && least <= start && least < next && next !in items
    requires forall n: nat :: least <= n < next ==> n in items
    ensures Outside(items, least, next) == NotReady(items, start)
    ensures Within(items, least, next) == AllReady(items, start)
  {
    ReadyRun(items, start, least, next);
  }

  lemma NothingReady(items: Items, start: nat)
    requires forall least: nat :: IsLeast(items, least) ==> start < least
    ensures NotReady(items, start) == items && Lists(AllReady(items, start), [])
  {
    forall n | n in items
      ensures !Ready(items, start, n)
    {
    }
    assert AllReady(items, start) == map[];
  }

  ghost function AllReady(items: Items, start: nat): Items {
    map n | n in items && Ready(items, start, n) :: items[n]
  }

  ghost function NotReady(items: Items, start: nat): Items {
    map n | n in items && !Ready(items, start, n) :: items[n]
  }

  /** A map taken apart into lower and higher nonces. */
  ghost predicate Parts(items: Items, low: Items, high: Items) {
    && (forall n :: n in items <==> n in low || n in high)
    && (forall n :: n in low ==> n in items && low[n] == items[n])
    && (forall n :: n in high ==> n in items && high[n] == items[n])
    && (forall n, m :: n in low && m in high ==> n < m)
  }

  lemma ListsExtend(items: Items, s: seq<Tx>, tx: Tx)
    requires Lists(items, s) && forall n :: n in items ==> n < tx.nonce
    ensures Lists(items[tx.nonce := tx], s + [tx])
  {
    var t := s + [tx];
    assert t[|s|] == tx;
    forall n | n in items
      ensures items[n] in t
    {
      var i :| 0 <= i < |s| && s[i] == items[n];
      assert t[i] == items[n];
    }
  }

  /** The maximal run: all nonces from the least up to the first gap. */
  lemma ReadyRun(items: Items, start: nat, least: nat, next: nat)
    requires IsLeast(items, least) && least <= start && least < next && next !in items
    requires forall n: nat :: least <= n < next ==> n in items
    ensures forall n: nat :: Ready(items, start, n) <==> least <= n < next
  {
    forall n: nat
      ensures Ready(items, start, n) <==> least <= n < next
    {
      if Ready(items, start, n) {
        var l: nat :| IsLeast(items, l) && l <= start && l <= n && forall m :: l <= m <= n ==> m in items;
        assert l == least;
      }
    }
  }
}
