/** The walks to the last common block of two branches. */
module ChainFork {
  import opened ChainTree

  /** The branches meet at number `i` and at no higher one. */
  ghost predicate Forks(a: seq<Hash>, b: seq<Hash>, i: nat) {
    && i < |a| && i < |b| && a[i] == b[i]
    && forall k :: i < k < |a| && k < |b| ==> a[k] != b[k]
  }

  /** The entries of a line above number `i`, newest first. */
  ghost function Above(line: seq<Hash>, i: nat): seq<Hash>
    requires i < |line|
    decreases |line|
  {
    if i + 1 == |line| then [] else [line[|line| - 1]] + Above(line[..|line| - 1], i)
  }

  lemma {:induction false} AboveGrows(line: seq<Hash>, i: nat)
    requires 0 < i < |line|
    ensures Above(line, i - 1) == Above(line, i) + [line[i]]
    decreases |line|
  {
    if i + 1 < |line| {
      AboveGrows(line[..|line| - 1], i);
    } else {
      assert Above(line[..|line| - 1], i - 1) == [];
    }
  }

  /** The number index and the ancestry entries used by a step down a branch. */
  lemma Down(hs: Headers, line: seq<Hash>, i: nat)
    requires IsLine(hs, line) && 0 < i < |line|
    ensures line[i] in hs && hs[line[i]].number == i && hs[line[i]].parent == line[i - 1]
    ensures line[i - 1] in hs && hs[line[i - 1]].number == i - 1
  {
    assert Entry(hs, line, i) && Entry(hs, line, i - 1);
  }

  function Get(hs: Headers, h: Hash, n: int): Option<Header> {
    if h in hs && hs[h].number == n then Some(hs[h]) else None
  }

  /** A header on a branch whose ancestry is known to be the given line. */
  ghost predicate On(hs: Headers, line: seq<Hash>, x: Header) {
    x.number < |line| && line[x.number] == x.hash && x.hash in hs && hs[x.hash] == x
  }

  lemma RootedStored(hs: Headers, genesis: Hash, h: Hash)
    requires Rooted(hs, genesis, h)
    ensures h in hs
  {
  }

  /** A stored header is rooted exactly if its parent is. */
  lemma ParentRooted(hs: Headers, genesis: Hash, y: Header)
    requires WellKeyed(hs) && y.hash in hs && hs[y.hash] == y && 0 < y.number
    ensures var p := Get(hs, y.parent, y.number - 1);
      && (Rooted(hs, genesis, y.hash) <==> p.Some? && Rooted(hs, genesis, p.value.hash))
      && (p.Some? ==> p.value.hash in hs && hs[p.value.hash] == p.value)
  {
  }

  /** Follow parent links down to number `n`; the ancestry `line`, if it is stored, guides the proof. */
  method Descend(hs: Headers, ghost genesis: Hash, x0: Header, n: nat, ghost line: seq<Hash>, ghost rooted: bool)
      returns (x: Option<Header>, chain: seq<Hash>)
    requires WellKeyed(hs) && n <= x0.number
    requires rooted ==> IsLine(hs, line) && |line| == x0.number + 1 && On(hs, line, x0)
    ensures x.Some? ==> x.value.number == n && (x.value == x0 || x.value.hash in hs)
    ensures forall k :: 0 <= k < |chain| ==> chain[k] == x0.hash || chain[k] in hs
    ensures rooted ==> x.Some? && On(hs, line, x.value) && chain == Above(line, n)
    ensures Get(hs, x0.hash, x0.number) == Some(x0) ==>
      && (x.Some? ==> Get(hs, x.value.hash, n) == x)
      && (Rooted(hs, genesis, x0.hash) <==> x.Some? && Rooted(hs, genesis, x.value.hash))
  {
    hide Rooted;
    var y := x0;
    chain := [];
    while y.number != n
      invariant y == x0 || y.hash in hs
      invariant forall k :: 0 <= k < |chain| ==> chain[k] == x0.hash || chain[k] in hs
      invariant n <= y.number && (rooted ==> On(hs, line, y) && chain == Above(line, y.number))
      invariant Get(hs, x0.hash, x0.number) == Some(x0) ==>
        && Get(hs, y.hash, y.number) == Some(y) && (Rooted(hs, genesis, x0.hash) <==> Rooted(hs, genesis, y.hash))
      decreases y.number
    {
      if Get(hs, x0.hash, x0.number) == Some(x0) {
        ParentRooted(hs, genesis, y);
      }
      if rooted {
        Down(hs, line, y.number);
        AboveGrows(line, y.number);
      }
      chain := chain + [y.hash];
      var p := Get(hs, y.parent, y.number - 1);
      if p.None? { return None, chain; }
      y := p.value;
    }
    x := Some(y);
  }

  /** The parents of two blocks of the same number. */
  lemma BothDown(hs: Headers, la: seq<Hash>, lb: seq<Hash>, a: Header, b: Header)
    requires WellKeyed(hs) && IsLine(hs, la) && IsLine(hs, lb) && la[0] == lb[0]
    requires On(hs, la, a) && On(hs, lb, b) && a.number == b.number && a.hash != b.hash
    ensures 0 < a.number
    ensures Get(hs, a.parent, a.number - 1).Some? && On(hs, la, Get(hs, a.parent, a.number - 1).value)
    ensures Get(hs, b.parent, b.number - 1).Some? && On(hs, lb, Get(hs, b.parent, b.number - 1).value)
  {
    Down(hs, la, a.number);
    Down(hs, lb, b.number);
  }

  /** Both branches have a complete ancestry down to the same genesis. */
  ghost predicate BothRooted(hs: Headers, genesis: Hash, a: Header, b: Header) {
    && Rooted(hs, genesis, a.hash) && Rooted(hs, genesis, b.hash)
    && hs[a.hash] == a && hs[b.hash] == b
  }

  /** FindCommonAncestor: on branches that share a genesis it finds the highest common header. */
  method FindCommonAncestor(hs: Headers, ghost genesis: Hash, a0: Header, b0: Header) returns (r: Option<Header>)
    requires WellKeyed(hs)
    ensures BothRooted(hs, genesis, a0, b0) ==>
      && r.Some? && r.value.hash in hs && hs[r.value.hash] == r.value
      && Forks(Line(hs, genesis, a0.hash), Line(hs, genesis, b0.hash), r.value.number)
      && Line(hs, genesis, a0.hash)[r.value.number] == r.value.hash
  {
    hide Line;
    ghost var rooted := BothRooted(hs, genesis, a0, b0);
    ghost var la, lb := [], [];
    if rooted {
      la, lb := Line(hs, genesis, a0.hash), Line(hs, genesis, b0.hash);
      LineIsLine(hs, genesis, a0.hash);
      LineIsLine(hs, genesis, b0.hash);
    }
    var a, b := a0, b0;
    while a.number > b0.number
      invariant (rooted ==> On(hs, la, a)) && (a.number <= b0.number ==> a == a0 || a.number == b0.number)
      decreases a.number
    {
      if rooted {
        Down(hs, la, a.number);
      }
      r := Get(hs, a.parent, a.number - 1);
      if r.None? { return; }
      a := r.value;
    }
    while a.number < b.number
      invariant (rooted ==> On(hs, lb, b)) && (b.number <= a.number ==> b == b0 || a.number == b.number)
      decreases b.number
    {
      if rooted {
        Down(hs, lb, b.number);
      }
      r := Get(hs, b.parent, b.number - 1);
      if r.None? { return; }
      b := r.value;
    }
    while a.hash != b.hash
      invariant a.number == b.number
      invariant rooted ==> On(hs, la, a) && On(hs, lb, b)
      invariant rooted ==> forall k :: a.number < k < |la| && k < |lb| ==> la[k] != lb[k]
      decreases a.number
    {
      if rooted {
        BothDown(hs, la, lb, a, b);
      }
      r := Get(hs, a.parent, a.number - 1);
      if r.None? { return; }
      var q := Get(hs, b.parent, b.number - 1);
      if q.None? { return None; }
      a, b := r.value, q.value;
    }
    r := Some(a);
  }

  /** The walk of the transaction pool's reset, which is that of FindCommonAncestor keeping the blocks
      it passes: lower the higher branch, then step down both together. */
  method ResetBranches(hs: Headers, ghost genesis: Hash, rem0: Header, add0: Header)
      returns (common: Option<Header>, discarded: seq<Hash>, included: seq<Hash>)
    requires WellKeyed(hs)
    ensures BothRooted(hs, genesis, rem0, add0) ==>
      var a, b := Line(hs, genesis, rem0.hash), Line(hs, genesis, add0.hash);
      && common.Some? && On(hs, a, common.value) && Forks(a, b, common.value.number)
      && discarded == Above(a, common.value.number) && included == Above(b, common.value.number)
  {
    hide Line, Rooted;
    ghost var rooted := BothRooted(hs, genesis, rem0, add0);
    ghost var la, lb := [], [];
    if rooted {
      la, lb := Line(hs, genesis, rem0.hash), Line(hs, genesis, add0.hash);
      LineIsLine(hs, genesis, rem0.hash);
      LineIsLine(hs, genesis, add0.hash);
      RootedStored(hs, genesis, rem0.hash);
      RootedStored(hs, genesis, add0.hash);
    }
    var rem, add := rem0, add0;
    discarded, included := [], [];
    if rem.number > add.number {
      common, discarded := Descend(hs, genesis, rem, add.number, la, rooted);
      if common.None? { return; }
      rem := common.value;
    }
    if add.number > rem.number {
      common, included := Descend(hs, genesis, add, rem.number, lb, rooted);
      if common.None? { return; }
      add := common.value;
    }
    while rem.hash != add.hash
      invariant rem.number == add.number
      invariant rooted ==> On(hs, la, rem) && On(hs, lb, add)
      invariant rooted ==> forall k :: rem.number < k < |la| && k < |lb| ==> la[k] != lb[k]
      invariant rooted ==> discarded == Above(la, rem.number) && included == Above(lb, add.number)
      decreases rem.number
    {
      if rooted {
        BothDown(hs, la, lb, rem, add);
        AboveGrows(la, rem.number);
        AboveGrows(lb, add.number);
      }
      discarded := discarded + [rem.hash];
      var p := Get(hs, rem.parent, rem.number - 1);
      if p.None? { return None, discarded, included; }
      included := included + [add.hash];
      var q := Get(hs, add.parent, add.number - 1);
      if q.None? { return None, discarded, included; }
      rem, add := p.value, q.value;
    }
    common := Some(rem);
  }

  /** The walk of reorg: the two branches above the last common block, newest first. From a rooted block it finds
      one exactly if the other is rooted too. */
  method SplitBranches(hs: Headers, ghost genesis: Hash, old0: Header, new0: Header)
      returns (common: Option<Header>, oldChain: seq<Hash>, newChain: seq<Hash>)
    requires WellKeyed(hs)
    ensures forall k :: 0 <= k < |newChain| ==> newChain[k] == new0.hash || newChain[k] in hs
    ensures Rooted(hs, genesis, old0.hash) && hs[old0.hash] == old0 && Get(hs, new0.hash, new0.number) == Some(new0) ==>
      (common.Some? <==> Rooted(hs, genesis, new0.hash))
    ensures BothRooted(hs, genesis, old0, new0) ==>
      var a, b := Line(hs, genesis, old0.hash), Line(hs, genesis, new0.hash);
      && common.Some? && On(hs, a, common.value) && Forks(a, b, common.value.number)
      && oldChain == Above(a, common.value.number) && newChain == Above(b, common.value.number)
  {
    hide Line, Rooted;
    ghost var stored := Get(hs, old0.hash, old0.number) == Some(old0) && Get(hs, new0.hash, new0.number) == Some(new0);
    if Rooted(hs, genesis, old0.hash) {
      RootedStored(hs, genesis, old0.hash);
    }
    ghost var rooted := BothRooted(hs, genesis, old0, new0);
    ghost var la, lb := [], [];
    if rooted {
      la, lb := Line(hs, genesis, old0.hash), Line(hs, genesis, new0.hash);
      LineIsLine(hs, genesis, old0.hash);
      LineIsLine(hs, genesis, new0.hash);
      RootedStored(hs, genesis, new0.hash);
    }
    var a, b := old0, new0;
    oldChain, newChain := [], [];
    if a.number > b.number {
      common, oldChain := Descend(hs, genesis, a, b.number, la, rooted);
      if common.None? { return; }
      a := common.value;
    } else {
      common, newChain := Descend(hs, genesis, b, a.number, lb, rooted);
      if common.None? { return; }
      b := common.value;
    }
    while a.hash != b.hash
      invariant a.number == b.number && (b == new0 || b.hash in hs)
      invariant forall k :: 0 <= k < |newChain| ==> newChain[k] == new0.hash || newChain[k] in hs
      invariant rooted ==> On(hs, la, a) && On(hs, lb, b)
      invariant rooted ==> forall k :: a.number < k < |la| && k < |lb| ==> la[k] != lb[k]
      invariant rooted ==> oldChain == Above(la, a.number) && newChain == Above(lb, b.number)
      invariant stored ==>
        && Get(hs, a.hash, a.number) == Some(a) && (Rooted(hs, genesis, old0.hash) <==> Rooted(hs, genesis, a.hash))
        && Get(hs, b.hash, b.number) == Some(b) && (Rooted(hs, genesis, new0.hash) <==> Rooted(hs, genesis, b.hash))
      decreases a.number
    {
      if stored && 0 < a.number {
        ParentRooted(hs, genesis, a);
        ParentRooted(hs, genesis, b);
      }
      if rooted {
        BothDown(hs, la, lb, a, b);
        AboveGrows(la, a.number);
        AboveGrows(lb, b.number);
      }
      oldChain, newChain := oldChain + [a.hash], newChain + [b.hash];
      var p, q := Get(hs, a.parent, a.number - 1), Get(hs, b.parent, b.number - 1);
      if p.None? || q.None? { return None, oldChain, newChain; }
      a, b := p.value, q.value;
    }
    common := Some(a);
  }
}
