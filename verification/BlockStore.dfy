/** Canonical chain maintenance in block mode: reorganisations, rewinds and the transaction lookup index. */
module BlockStore {
  import opened ChainTree
  import opened ChainFork
  import HeaderChain

  /** Transactions are identified by their hashes. */
  type Tx = nat

  datatype Position = Position(block: Hash, number: nat, index: nat)

  type Bodies = map<Hash, seq<Tx>>

  ghost predicate At(bodies: Bodies, line: seq<Hash>, tx: Tx, p: Position) {
    && p.number < |line| && line[p.number] == p.block
    && p.block in bodies && p.index < |bodies[p.block]| && bodies[p.block][p.index] == tx
  }

  /** No transaction occurs twice on the chain. */
  ghost predicate Unique(bodies: Bodies, line: seq<Hash>) {
    forall tx, p, q :: At(bodies, line, tx, p) && At(bodies, line, tx, q) ==> p == q
  }

  /** The lookup index holds exactly the positions of the transactions on the chain. */
  ghost predicate Exact(lookup: map<Tx, Position>, bodies: Bodies, line: seq<Hash>) {
    && (forall tx :: tx in lookup ==> At(bodies, line, tx, lookup[tx]))
    && (forall tx, p :: At(bodies, line, tx, p) ==> tx in lookup)
  }

  /** Every transaction on the chain is found; there may be entries for others. */
  ghost predicate Finds(lookup: map<Tx, Position>, bodies: Bodies, line: seq<Hash>) {
    forall tx, p :: At(bodies, line, tx, p) ==> tx in lookup && At(bodies, line, tx, lookup[tx])
  }

  /** An entry that does not point to the chain. */
  ghost predicate Stray(lookup: map<Tx, Position>, bodies: Bodies, line: seq<Hash>, tx: Tx) {
    tx in lookup && !At(bodies, line, tx, lookup[tx])
  }

  lemma NoneStray(lookup: map<Tx, Position>, bodies: Bodies, line: seq<Hash>)
    ensures Exact(lookup, bodies, line) <==>
      Finds(lookup, bodies, line) && forall tx :: !Stray(lookup, bodies, line, tx)
  {
    if forall tx :: !Stray(lookup, bodies, line, tx) {
      forall tx | tx in lookup
        ensures At(bodies, line, tx, lookup[tx])
      {
        assert !Stray(lookup, bodies, line, tx);
      }
    }
  }

  /** The number index names the ancestry of the head, from genesis up to the head. */
  ghost predicate Covers(canon: map<nat, Hash>, line: seq<Hash>) {
    forall i: nat :: i < |line| ==> i in canon && canon[i] == line[i]
  }

  /** The number index is the ancestry of the head and nothing else. */
  ghost predicate Indexes(canon: map<nat, Hash>, line: seq<Hash>) {
    Covers(canon, line) && forall i :: i in canon ==> i < |line|
  }

  /** The numbers of the line name its blocks; every other number keeps what it had. */
  ghost predicate Overlaid(after: map<nat, Hash>, before: map<nat, Hash>, line: seq<Hash>) {
    Covers(after, line) &&
    forall i: nat :: |line| <= i ==> (i in after <==> i in before) && (i in after ==> after[i] == before[i])
  }

  /** An adopted branch leaves the number index exact if and only if no number lay above its head. */
  lemma OverlaidExact(after: map<nat, Hash>, before: map<nat, Hash>, line: seq<Hash>)
    requires Overlaid(after, before, line)
    ensures Indexes(after, line) <==> forall i :: i in before ==> i < |line|
  {
    if i :| i in before && |line| <= i {
      assert i in after;
    }
  }

  /** Setting the head's own number last changes nothing. */
  lemma HeadOverlaid(before: map<nat, Hash>, mid: map<nat, Hash>, after: map<nat, Hash>, line: seq<Hash>, block: Header)
    requires |line| == block.number + 1 && line[block.number] == block.hash && after == mid[block.number := block.hash]
    ensures Overlaid(mid, before, line) || (mid == before && Overlaid(after, mid, line)) ==>
      Overlaid(after, before, line) && Covers(after, line)
  {
  }

  /** The transactions of some blocks. */
  ghost predicate Occurs(bodies: Bodies, blocks: seq<Hash>, tx: Tx) {
    exists k :: 0 <= k < |blocks| && blocks[k] in bodies && tx in bodies[blocks[k]]
  }

  lemma {:induction false} AboveElements(line: seq<Hash>, i: nat, k: nat)
    requires i < |line| && k < |Above(line, i)|
    ensures |Above(line, i)| == |line| - 1 - i && Above(line, i)[k] == line[|line| - 1 - k]
    decreases |line|
  {
    if k > 0 {
      AboveElements(line[..|line| - 1], i, k - 1);
    } else {
      AboveLength(line, i);
    }
  }

  lemma {:induction false} AboveLength(line: seq<Hash>, i: nat)
    requires i < |line|
    ensures |Above(line, i)| == |line| - 1 - i
    decreases |line|
  {
    if i + 1 < |line| {
      AboveLength(line[..|line| - 1], i);
    }
  }

  /** A transaction occurs in the blocks above `i` exactly when it has a position above `i`. */
  lemma OccursAbove(bodies: Bodies, line: seq<Hash>, i: nat, tx: Tx)
    requires i < |line|
    ensures Occurs(bodies, Above(line, i), tx) <==> exists p :: At(bodies, line, tx, p) && i < p.number
  {
    var above := Above(line, i);
    AboveLength(line, i);
    if k :| 0 <= k < |above| && above[k] in bodies && tx in bodies[above[k]] {
      AboveElements(line, i, k);
      var j :| 0 <= j < |bodies[above[k]]| && bodies[above[k]][j] == tx;
      assert At(bodies, line, tx, Position(above[k], |line| - 1 - k, j));
    }
    if p :| At(bodies, line, tx, p) && i < p.number {
      AboveElements(line, i, |line| - 1 - p.number);
    }
  }

  /** `after` is `before` with entries for the transactions of the blocks numbered f+1 .. m written in. */
  ghost predicate Merged(after: map<Tx, Position>, before: map<Tx, Position>, bodies: Bodies, line: seq<Hash>, f: nat,
                         m: nat) {
    && (forall tx :: tx in after ==>
          || (At(bodies, line, tx, after[tx]) && f < after[tx].number <= m)
          || (tx in before && after[tx] == before[tx]))
    && (forall tx :: tx in before ==> tx in after)
    && (forall tx, p :: At(bodies, line, tx, p) && f < p.number <= m ==>
          && tx in after && f < after[tx].number && At(bodies, line, tx, after[tx]))
  }

  /** Rewriting the entries of the new branch and deleting those of transactions that are only on the
      old one turns the index of the old chain into that of the new chain, and leaves no entry astray that was not. */
  lemma ReorgFinds(before: map<Tx, Position>, merged: map<Tx, Position>, after: map<Tx, Position>, bodies: Bodies,
                   a: seq<Hash>, b: seq<Hash>, f: nat)
    requires Finds(before, bodies, a) && Unique(bodies, a)
    requires f < |a| && f < |b| && a[..f + 1] == b[..f + 1]
    requires Merged(merged, before, bodies, b, f, |b| - 1)
    requires forall tx :: tx in after <==>
      (tx in merged && (Occurs(bodies, Above(a, f), tx) ==> Occurs(bodies, Above(b, f), tx)))
    requires forall tx :: tx in after ==> after[tx] == merged[tx]
    ensures Finds(after, bodies, b)
    ensures forall tx :: Stray(after, bodies, b, tx) ==> Stray(before, bodies, a, tx)
  {
    forall tx | Stray(after, bodies, b, tx)
      ensures Stray(before, bodies, a, tx)
    {
      EntrySound(before, merged, bodies, a, b, f, tx);
    }
    forall tx, p | At(bodies, b, tx, p)
      ensures tx in after && At(bodies, b, tx, after[tx])
    {
      EntryComplete(before, merged, bodies, a, b, f, tx, p);
    }
  }

  lemma EntrySound(before: map<Tx, Position>, merged: map<Tx, Position>, bodies: Bodies, a: seq<Hash>, b: seq<Hash>,
                   f: nat, tx: Tx)
    requires f < |a| && f < |b| && a[..f + 1] == b[..f + 1]
    requires Merged(merged, before, bodies, b, f, |b| - 1) && tx in merged
    requires Occurs(bodies, Above(a, f), tx) ==> Occurs(bodies, Above(b, f), tx)
    ensures At(bodies, b, tx, merged[tx]) || Stray(before, bodies, a, tx)
  {
    OccursAbove(bodies, a, f, tx);
    OccursAbove(bodies, b, f, tx);
    if merged[tx].number <= f {
      assert a[merged[tx].number] == a[..f + 1][merged[tx].number] == b[merged[tx].number];
    }
  }

  lemma EntryComplete(before: map<Tx, Position>, merged: map<Tx, Position>, bodies: Bodies, a: seq<Hash>,
                      b: seq<Hash>, f: nat, tx: Tx, p: Position)
    requires Finds(before, bodies, a) && Unique(bodies, a) && f < |a| && f < |b| && a[..f + 1] == b[..f + 1]
    requires Merged(merged, before, bodies, b, f, |b| - 1) && At(bodies, b, tx, p)
    ensures tx in merged && At(bodies, b, tx, merged[tx])
    ensures Occurs(bodies, Above(a, f), tx) ==> Occurs(bodies, Above(b, f), tx)
  {
    OccursAbove(bodies, a, f, tx);
    OccursAbove(bodies, b, f, tx);
    if p.number <= f {
      assert a[..f + 1][p.number] == b[..f + 1][p.number];
      assert At(bodies, a, tx, p);
    }
  }

  class Blocks {
    const genesis: Hash
    var headers: Headers
    var bodies: Bodies
    var tds: map<Hash, nat>
    var canon: map<nat, Hash>
    var lookup: map<Tx, Position>
    var current: Header
    /** Every block ever stored. */
    ghost var known: Headers

    ghost function View(): HeaderChain.Ledger
      reads this
    {
      HeaderChain.Ledger(genesis, headers, tds, canon, current.hash)
    }

    /** The head has its ancestry, others may lack theirs. Stored difficulties are sums over the ancestry that the
        block once had. */
    ghost predicate Stored()
      reads this
    {
      && WellKeyed(headers) && bodies.Keys == headers.Keys && HeaderChain.Known(View(), known)
      && Rooted(headers, genesis, current.hash) && headers[current.hash] == current
    }

    /** The ancestry of the current block. */
    ghost function Chain(): seq<Hash>
      requires Stored()
      reads this
    {
      Line(headers, genesis, current.hash)
    }

    ghost predicate Valid()
      reads this
    {
      && Stored() && Covers(canon, Chain())
      && Unique(bodies, Chain()) && Finds(lookup, bodies, Chain())
    }

    /** The lookup index has exactly the transactions on the chain. */
    ghost predicate Precise()
      requires Stored()
      reads this
    {
      Exact(lookup, bodies, Chain())
    }

    /** No stored block is heavier than the head. */
    ghost predicate Heaviest()
      reads this
    {
      NoneHeavier(tds, current.hash)
    }

    constructor (block: Header)
      requires KeyedBy(block.hash, block) && block.number == 0
      ensures Valid() && Precise() && Heaviest() && Foremost(headers, tds, current) && Indexes(canon, [block.hash])
      ensures current == block && genesis == block.hash && known == headers
      ensures headers == map[block.hash := block] && bodies == map[block.hash := []]
      ensures tds == map[block.hash := block.difficulty]
    {
      genesis := block.hash;
      headers := map[block.hash := block];
      bodies := map[block.hash := []];
      tds := map[block.hash := block.difficulty];
      canon := map[0 := block.hash];
      lookup := map[];
      current := block;
      known := map[block.hash := block];
    }

    /** insert: the block becomes the canonical one of its number, and the head. */
    method Insert(block: Header)
      modifies `canon, `current
      ensures canon == old(canon)[block.number := block.hash] && current == block
    {
      canon := canon[block.number := block.hash];
      current := block;
    }

    /** WriteTxLookupEntries: the block's transactions point into it, the others stay. */
    method WriteLookups(block: Header)
      requires block.hash in bodies
      modifies `lookup
      ensures Rewritten(lookup, old(lookup), bodies[block.hash], block)
    {
      var txs := bodies[block.hash];
      for i := 0 to |txs|
        invariant Rewritten(lookup, old(lookup), txs[..i], block)
      {
        lookup := lookup[txs[i] := Position(block.hash, block.number, i)];
        assert txs[..i + 1] == txs[..i] + [txs[i]];
      }
      assert txs[..|txs|] == txs;
    }

    /** reorg: make the ancestry of the new block canonical, if that is stored. An error changes nothing. */
    method Reorg(oldBlock: Header, newBlock: Header) returns (ok: bool)
      requires Valid() && oldBlock == current && newBlock.hash in headers && headers[newBlock.hash] == newBlock
      modifies `canon, `lookup, `current
      ensures ok <==> Rooted(headers, genesis, newBlock.hash)
      ensures !ok ==> canon == old(canon) && lookup == old(lookup) && current == old(current)
      ensures ok ==> var line := Line(headers, genesis, newBlock.hash);
        && Overlaid(canon, old(canon), line) && Finds(lookup, bodies, line)
        && forall tx :: Stray(lookup, bodies, line, tx) ==> Stray(old(lookup), bodies, old(Chain()), tx)
    {
      hide HeaderChain.Known, Line;
      var common, oldChain, newChain := SplitBranches(headers, genesis, oldBlock, newBlock);
      if common.None? {
        return false;
      }
      ok := true;
      var deleted := Collect(oldChain);
      ghost var a, b, f := Chain(), Line(headers, genesis, newBlock.hash), common.value.number;
      BranchFacts(headers, genesis, oldBlock.hash, newBlock.hash, f);
      var added := AdoptBranch(newChain, b, f);
      ghost var merged := lookup;
      lookup := lookup - (deleted - added);
      ReorgFinds(old(lookup), merged, lookup, bodies, a, b, f);
      RepaintedOverlaid(canon, old(canon), a, b, f);
    }

    method AdoptBlock(block: Header, ghost b: seq<Hash>, ghost f: nat, ghost canon0: map<nat, Hash>,
                      ghost lookup0: map<Tx, Position>)
      requires block.hash in bodies && f < block.number < |b| && b[block.number] == block.hash
      requires Merged(lookup, lookup0, bodies, b, f, block.number - 1)
      requires Repainted(canon, canon0, b, f, block.number - 1)
      modifies `canon, `lookup, `current
      ensures Merged(lookup, lookup0, bodies, b, f, block.number)
      ensures Repainted(canon, canon0, b, f, block.number)
    {
      Insert(block);
      WriteLookups(block);
      MergeStep(lookup, old(lookup), lookup0, bodies, b, f, block);
    }

    /** Insert the new branch, oldest block first. */
    method AdoptBranch(newChain: seq<Hash>, ghost b: seq<Hash>, ghost f: nat) returns (added: set<Tx>)
      requires WellKeyed(headers) && bodies.Keys == headers.Keys
      requires forall k :: 0 <= k < |newChain| ==> newChain[k] in headers
      requires f < |b| && IsLine(headers, b) && newChain == Above(b, f)
      modifies `canon, `lookup, `current
      ensures forall tx :: tx in added <==> Occurs(bodies, newChain, tx)
      ensures Merged(lookup, old(lookup), bodies, b, f, |b| - 1)
      ensures Repainted(canon, old(canon), b, f, |b| - 1)
    {
      hide Merged, Repainted, WellKeyed;
      var i := |newChain|;
      AboveLength(b, f);
      NothingAdopted(lookup, canon, bodies, b, f);
      while i > 0
        invariant 0 <= i <= |newChain|
        invariant Merged(lookup, old(lookup), bodies, b, f, |b| - 1 - i)
        invariant Repainted(canon, old(canon), b, f, |b| - 1 - i)
      {
        i := i - 1;
        var block := headers[newChain[i]];
        AboveElements(b, f, i);
        assert Entry(headers, b, |b| - 1 - i);
        Keyed(headers, newChain[i]);
        AdoptBlock(block, b, f, old(canon), old(lookup));
      }
      added := Collect(newChain);
    }

    /** The block wins, but an ancestor of it has been deleted. */
    ghost predicate Fails(block: Header, prefer: bool)
      requires current.hash in tds
      reads this
    {
      block.parent in tds && Beats(tds, current, block, prefer) && !Rooted(headers, genesis, block.parent)
    }

    /** WriteBlockWithState: store the block, and make its ancestry canonical if it wins. `prefer` is the
        outcome of the tie-break between blocks of equal difficulty and number. If an ancestor is missing then the
        reorganisation fails, with the block stored. */
    method WriteBlock(block: Header, txs: seq<Tx>, prefer: bool) returns (status: Status)
      requires Valid() && AdmissibleBlock(headers, bodies, known, genesis, block, txs)
      modifies this
      ensures Valid() && old(current).hash in old(tds) && current.hash in tds
      ensures status == NonStat <==> block.parent !in old(tds) || old(Fails(block, prefer))
      ensures block.parent !in old(tds) ==> unchanged(this)
      ensures block.parent in old(tds) ==>
        && headers == old(headers)[block.hash := block] && bodies == old(bodies)[block.hash := txs]
        && tds == old(tds)[block.hash := old(tds)[block.parent] + block.difficulty]
        && known == old(known)[block.hash := block]
      ensures status != Canon ==> canon == old(canon) && lookup == old(lookup) && current == old(current)
      ensures status == Canon ==>
        && current == block && Overlaid(canon, old(canon), Chain())
        && (Indexes(canon, Chain()) <==> forall i :: i in old(canon) ==> i <= block.number)
      ensures forall tx :: Stray(lookup, bodies, Chain(), tx) ==> old(Stray(lookup, bodies, Chain(), tx))
      ensures old(Precise()) ==> Precise()
      // The heavier block wins, among equals the one with the lower number, and then the one preferred.
      ensures block.parent in old(tds) ==>
        var td, top, number := tds[block.hash], old(tds)[old(current).hash], old(current).number;
        var adopted := if Rooted(old(headers), genesis, block.parent) then Canon else NonStat;
        && (td > top ==> status == adopted) && (td < top ==> status == Side)
        && (td == top && block.number < number ==> status == adopted)
        && (td == top && block.number > number ==> status == Side)
        && (td == top && block.number == number ==> status == if prefer then adopted else Side)
      // So the head stays a heaviest block and the lowest among those, unless a better one fails.
      ensures old(tds)[old(current).hash] <= tds[current.hash]
      ensures old(Heaviest()) ==>
        (Heaviest() <==> !(old(Fails(block, prefer)) && tds[block.hash] > tds[current.hash]))
      ensures old(Foremost(headers, tds, current)) && block.parent in old(tds) ==>
        (Foremost(headers, tds, current) <==>
          status != NonStat || (tds[block.hash] == tds[current.hash] && block.number == current.number))
    {
      hide HeaderChain.Known, Unique, Exact, Finds, Stray, Covers, Overlaid, Indexes, WellKeyed, Line, Rooted;
      hide Foremost, NoneHeavier, AdmissibleBlock;
      HeadKnown();
      if block.parent !in tds {
        return NonStat;
      }
      BlockKeyed(headers, bodies, known, genesis, block, txs);
      HeaderChain.KnownDifficulty(View(), known, block);
      ghost var rooted := Rooted(headers, genesis, block.parent);
      status := PutBlock(block, txs, prefer);
      Weighs(old(headers), old(tds), old(current), block, prefer, rooted, status);
    }

    /** The same for a block whose parent is known, without the weights. */
    method PutBlock(block: Header, txs: seq<Tx>, prefer: bool) returns (status: Status)
      requires Valid() && AdmissibleBlock(headers, bodies, known, genesis, block, txs)
      requires block.parent in tds && current.hash in tds
      modifies this
      ensures Valid() && current.hash in tds
      ensures status == if !Beats(old(tds), old(current), block, prefer) then Side
                        else if Rooted(old(headers), genesis, block.parent) then Canon else NonStat
      ensures headers == old(headers)[block.hash := block] && bodies == old(bodies)[block.hash := txs]
      ensures tds == old(tds)[block.hash := old(tds)[block.parent] + block.difficulty]
      ensures known == old(known)[block.hash := block]
      ensures status != Canon ==> canon == old(canon) && lookup == old(lookup) && current == old(current)
      ensures status == Canon ==>
        && current == block && Overlaid(canon, old(canon), Chain())
        && (Indexes(canon, Chain()) <==> forall i :: i in old(canon) ==> i <= block.number)
      ensures forall tx :: Stray(lookup, bodies, Chain(), tx) ==> old(Stray(lookup, bodies, Chain(), tx))
      ensures old(Precise()) ==> Precise()
    {
      hide HeaderChain.Known, Unique, Exact, Finds, Stray, Covers, Overlaid, Indexes, WellKeyed, Line, Rooted;
      HeadKnown();
      NoneStray(lookup, bodies, Chain());
      var localTd, externTd := tds[current.hash], tds[block.parent] + block.difficulty;
      StoreBlock(block, txs, externTd);
      NoneStray(lookup, bodies, Chain());
      var reorg := externTd > localTd;
      if !reorg && externTd == localTd {
        if block.number < current.number {
          reorg := true;
        } else if block.number == current.number {
          reorg := prefer;
        }
      }
      if !reorg {
        return Side;
      }
      var ok := MakeHead(block);
      NoneStray(lookup, bodies, Chain());
      if !ok {
        return NonStat;
      }
      status := Canon;
      OverlaidExact(canon, old(canon), Chain());
    }

    lemma HeadKnown()
      requires Stored()
      ensures current.hash in tds && tds.Keys == headers.Keys && bodies.Keys == headers.Keys && current.hash in headers
    {
    }

    /** Reorganise if the parent is not the head, write the lookup entries, set the new head. */
    method MakeHead(block: Header) returns (ok: bool)
      requires Valid() && block.hash in headers && headers[block.hash] == block && 0 < block.number
      requires block.parent in headers && headers[block.parent].number + 1 == block.number
      requires Rooted(headers, genesis, block.hash) ==> Unique(bodies, Line(headers, genesis, block.hash))
      modifies `canon, `lookup, `current
      ensures Valid() && (ok <==> Rooted(headers, genesis, block.hash))
      ensures ok ==> current == block && Overlaid(canon, old(canon), Chain())
      ensures !ok ==> canon == old(canon) && lookup == old(lookup) && current == old(current)
      ensures forall tx :: Stray(lookup, bodies, Chain(), tx) ==> old(Stray(lookup, bodies, Chain(), tx))
    {
      hide HeaderChain.Known, Unique, Finds, Stray, WellKeyed, Covers;
      ok := true;
      if block.parent != current.hash {
        ok := Reorg(current, block);
        if !ok {
          return;
        }
        ghost var written := lookup;
        WriteLookups(block);
        FindsAgain(lookup, written, bodies, Line(headers, genesis, block.hash), block);
      } else {
        ExtendHead(block);
      }
      ghost var before := canon;
      Insert(block);
      HeadOverlaid(old(canon), before, canon, Line(headers, genesis, block.hash), block);
      HeaderChain.OnlyStore(old(View()), View(), known);
    }

    /** WriteTd and WriteBlock: a new block off the chain leaves the indexes right. */
    method StoreBlock(block: Header, txs: seq<Tx>, td: nat)
      requires Valid() && AdmissibleBlock(headers, bodies, known, genesis, block, txs) && block.parent in tds
      requires td == tds[block.parent] + block.difficulty
      modifies `headers, `bodies, `tds, `known
      ensures Valid() && Chain() == old(Chain())
      ensures headers == old(headers)[block.hash := block] && bodies == old(bodies)[block.hash := txs]
      ensures tds == old(tds)[block.hash := td] && known == old(known)[block.hash := block]
      ensures forall tx :: Stray(lookup, bodies, Chain(), tx) <==> old(Stray(lookup, bodies, Chain(), tx))
      ensures Rooted(headers, genesis, block.hash) <==> Rooted(old(headers), genesis, block.parent)
      ensures Rooted(headers, genesis, block.hash) ==> Unique(bodies, Line(headers, genesis, block.hash))
    {
      hide Unique, Finds, Stray, Covers, Line, HeaderChain.Known, Rooted, WellKeyed;
      StoreKeeps(headers, bodies, lookup, genesis, current.hash, block, txs);
      HeaderChain.StoredKnown(View(), known, block);
      HeadKnown();
      NewBlockLine(headers, genesis, block);
      headers := headers[block.hash := block];
      bodies := bodies[block.hash := txs];
      tds := tds[block.hash := td];
      known := known[block.hash := block];
    }

    /** The lookup entries of a block on top of the head. */
    method ExtendHead(block: Header)
      requires Valid() && block.hash in headers && headers[block.hash] == block && block.parent == current.hash
      requires 0 < block.number && Rooted(headers, genesis, block.hash)
      modifies `lookup
      ensures Finds(lookup, bodies, Line(headers, genesis, block.hash))
      ensures forall tx :: Stray(lookup, bodies, Line(headers, genesis, block.hash), tx) ==>
        old(Stray(lookup, bodies, Chain(), tx))
      ensures Overlaid(canon[block.number := block.hash], canon, Line(headers, genesis, block.hash))
    {
      hide HeaderChain.Known, Unique, Finds, Stray, WellKeyed;
      ghost var a, b := Chain(), Line(headers, genesis, block.hash);
      WriteLookups(block);
      NothingAbove(a);
      assert b == a + [block.hash] && b[..|a|] == a[..|a|];
      MergeStep(lookup, old(lookup), old(lookup), bodies, b, |a| - 1, block);
      ReorgFinds(old(lookup), lookup, lookup, bodies, a, b, |a| - 1);
    }

    /** SetHead: the blocks above number `n` are deleted, with their numbers. Their lookup entries stay. */
    method Rewind(n: nat)
      requires Valid()
      modifies `headers, `bodies, `tds, `canon, `current
      ensures Valid()
      ensures var line := old(Chain()); var gone := Cut(line, n);
        && Chain() == Kept(line, n)
        && headers == old(headers) - gone && bodies == old(bodies) - gone && tds == old(tds) - gone
        && canon == map i | i in old(canon) && (i <= n || old(current).number < i) :: old(canon)[i]
      ensures forall tx :: Stray(lookup, bodies, Chain(), tx) <==>
        old(Stray(lookup, bodies, Chain(), tx)) || (tx in lookup && n < lookup[tx].number)
      ensures old(Precise()) ==>
        (Precise() <==> forall h :: h in Cut(old(Chain()), n) ==> h in old(bodies) && old(bodies)[h] == [])
    {
      hide HeaderChain.Known, Unique, Finds, Exact, Stray, Covers, Line, Rooted, WellKeyed, Cut, Kept, IsLine;
      ghost var line, before := Chain(), View();
      LineIsLine(headers, genesis, current.hash);
      HeadKnown();
      CutLine(headers, genesis, current.hash, n);
      CutKnown(View(), known, Cut(line, n));
      CutLookups(headers, bodies, lookup, line, n);
      CutNumbers(canon, line, n, current.number);
      var height := current.number;
      var gone := PopBlocks(n, line);
      headers, bodies, tds := headers - gone, bodies - gone, tds - gone;
      DeleteNumbers(height, n);
      RootedStored(headers, genesis, current.hash);
      HeaderChain.OnlyStore(before.(headers := headers, tds := tds), View(), known);
    }

    /** Step the head back to number `n`, collecting the blocks to delete. */
    method PopBlocks(n: nat, ghost line: seq<Hash>) returns (gone: set<Hash>)
      requires WellKeyed(headers) && IsLine(headers, line) && line[|line| - 1] == current.hash
      requires current.hash in headers && headers[current.hash] == current
      modifies `current
      ensures gone == Cut(line, n) && Kept(line, n) != [] && current.hash == Kept(line, n)[|Kept(line, n)| - 1]
      ensures current.hash in headers && headers[current.hash] == current
    {
      gone := {};
      assert Entry(headers, line, |line| - 1);
      while current.number > n
        invariant current.number < |line| && current.hash == line[current.number]
        invariant current.hash in headers && headers[current.hash] == current
        invariant gone == Cut(line, current.number) && (current.number < |line| - 1 ==> n <= current.number)
        decreases current.number
      {
        assert Entry(headers, line, current.number);
        assert Entry(headers, line, current.number - 1);
        gone := gone + {current.hash};
        current := headers[current.parent];
      }
    }

    method DeleteNumbers(height: nat, n: nat)
      modifies `canon
      ensures canon == map i | i in old(canon) && (i <= n || height < i) :: old(canon)[i]
    {
      var i := height;
      while i > n
        invariant i <= height
        invariant canon == map k | k in old(canon) && (k <= n || k <= i || height < k) :: old(canon)[k]
      {
        canon := canon - {i};
        i := i - 1;
      }
    }

    /** The transactions of the given blocks. */
    method Collect(blocks: seq<Hash>) returns (txs: set<Tx>)
      ensures forall tx :: tx in txs <==> Occurs(bodies, blocks, tx)
    {
      txs := {};
      for i := 0 to |blocks|
        invariant forall tx :: tx in txs <==> Occurs(bodies, blocks[..i], tx)
      {
        assert blocks[..i + 1] == blocks[..i] + [blocks[i]];
        if blocks[i] in bodies {
          txs := txs + set tx | tx in bodies[blocks[i]];
        }
        OccursLast(bodies, blocks[..i], blocks[i]);
      }
      assert blocks[..|blocks|] == blocks;
    }
  }

  /** The blocks of a line above a number. */
  ghost function Cut(line: seq<Hash>, n: nat): set<Hash> {
    set i: nat | n < i < |line| :: line[i]
  }

  /** What is left of a line that is cut above a number. */
  ghost function Kept(line: seq<Hash>, n: nat): seq<Hash> {
    if n < |line| then line[..n + 1] else line
  }

  lemma CutLine(headers: Headers, genesis: Hash, head: Hash, n: nat)
    requires Rooted(headers, genesis, head) && WellKeyed(headers)
    ensures var line := Line(headers, genesis, head); var hs, kept := headers - Cut(line, n), Kept(line, n);
      && WellKeyed(hs) && 0 < |kept| && Rooted(hs, genesis, kept[|kept| - 1])
      && Line(hs, genesis, kept[|kept| - 1]) == kept
  {
    var line := Line(headers, genesis, head);
    var hs, kept := headers - Cut(line, n), Kept(line, n);
    LineIsLine(headers, genesis, head);
    forall i: nat | i < |kept|
      ensures kept[i] in hs
    {
      OffCut(headers, line, n, i);
    }
    LineLinks(headers, genesis, head, |kept| - 1);
    RootedIn(hs, headers, genesis, kept[|kept| - 1]);
    Extend(hs, headers, genesis, kept[|kept| - 1]);
  }

  /** A block is at one place of a line, so the part that stays is not deleted. */
  lemma OffCut(headers: Headers, line: seq<Hash>, n: nat, i: nat)
    requires IsLine(headers, line) && i < |line|
    ensures line[i] in headers && (line[i] in Cut(line, n) <==> n < i)
  {
    assert Entry(headers, line, i);
    if line[i] in Cut(line, n) {
      var j: nat :| n < j < |line| && line[j] == line[i];
      assert Entry(headers, line, j);
    }
  }

  lemma CutKnown(l: HeaderChain.Ledger, known: Headers, gone: set<Hash>)
    requires HeaderChain.Known(l, known)
    ensures HeaderChain.Known(l.(headers := l.headers - gone, tds := l.tds - gone), known)
  {
  }

  lemma CutNumbers(canon: map<nat, Hash>, line: seq<Hash>, n: nat, height: nat)
    requires Covers(canon, line) && |line| == height + 1
    ensures Covers(map i | i in canon && (i <= n || height < i) :: canon[i], Kept(line, n))
  {
  }

  /** A rewind deletes no lookup entries: those of the blocks that are cut go astray. */
  lemma CutLookups(headers: Headers, bodies: Bodies, lookup: map<Tx, Position>, line: seq<Hash>, n: nat)
    requires IsLine(headers, line) && bodies.Keys == headers.Keys && Unique(bodies, line) && Finds(lookup, bodies, line)
    ensures var rest, kept := bodies - Cut(line, n), Kept(line, n);
      && Unique(rest, kept) && Finds(lookup, rest, kept)
      && (forall tx :: Stray(lookup, rest, kept, tx) <==>
            Stray(lookup, bodies, line, tx) || (tx in lookup && n < lookup[tx].number))
      && (Exact(lookup, bodies, line) ==>
            (Exact(lookup, rest, kept) <==> forall h :: h in Cut(line, n) ==> h in bodies && bodies[h] == []))
  {
    var rest, kept := bodies - Cut(line, n), Kept(line, n);
    forall tx, p
      ensures At(rest, kept, tx, p) <==> At(bodies, line, tx, p) && p.number <= n
    {
      if p.number < |line| {
        OffCut(headers, line, n, p.number);
      }
    }
    if Exact(lookup, bodies, line) {
      CutExact(headers, bodies, lookup, line, n);
    }
  }

  lemma CutExact(headers: Headers, bodies: Bodies, lookup: map<Tx, Position>, line: seq<Hash>, n: nat)
    requires IsLine(headers, line) && bodies.Keys == headers.Keys && Unique(bodies, line) && Exact(lookup, bodies, line)
    requires forall tx, p ::
      At(bodies - Cut(line, n), Kept(line, n), tx, p) <==> At(bodies, line, tx, p) && p.number <= n
    ensures Exact(lookup, bodies - Cut(line, n), Kept(line, n)) <==>
      forall h :: h in Cut(line, n) ==> h in bodies && bodies[h] == []
  {
    var rest, kept := bodies - Cut(line, n), Kept(line, n);
    if h :| h in Cut(line, n) && h in bodies && bodies[h] != [] {
      var i: nat :| n < i < |line| && line[i] == h;
      var tx := bodies[h][0];
      assert At(bodies, line, tx, Position(h, i, 0));
      assert lookup[tx] == Position(h, i, 0) && !At(rest, kept, tx, lookup[tx]);
    } else {
      forall i: nat | n < i < |line|
        ensures line[i] in bodies && bodies[line[i]] == []
      {
        OffCut(headers, line, n, i);
      }
      forall tx | tx in lookup
        ensures At(rest, kept, tx, lookup[tx])
      {
        assert At(bodies, line, tx, lookup[tx]);
      }
    }
  }

  /** No stored block is heavier than the head, and none of its weight has a lower number. */
  ghost predicate Foremost(headers: Headers, tds: map<Hash, nat>, head: Header) {
    head.hash in tds && forall h :: h in tds && h in headers ==>
      tds[h] < tds[head.hash] || (tds[h] == tds[head.hash] && head.number <= headers[h].number)
  }

  ghost predicate NoneHeavier(tds: map<Hash, nat>, head: Hash) {
    head in tds && forall h :: h in tds ==> tds[h] <= tds[head]
  }

  datatype Status = NonStat | Canon | Side

  /** The total-difficulty rule with its tie-breaks. */
  ghost predicate Beats(tds: map<Hash, nat>, current: Header, block: Header, prefer: bool)
    requires block.parent in tds && current.hash in tds
  {
    var local, extern := tds[current.hash], tds[block.parent] + block.difficulty;
    extern > local ||
    (extern == local && (block.number < current.number || (block.number == current.number && prefer)))
  }

  /** What the outcome of a write means for the weight of the head. */
  lemma Weighs(headers: Headers, tds: map<Hash, nat>, head: Header, block: Header, prefer: bool, rooted: bool,
               status: Status)
    requires tds.Keys == headers.Keys && head.hash in headers && headers[head.hash] == head && block.parent in tds
    requires block.hash in headers ==> headers[block.hash] == block
    requires block.hash in tds ==> tds[block.hash] == tds[block.parent] + block.difficulty
    requires status == if !Beats(tds, head, block, prefer) then Side else if rooted then Canon else NonStat
    ensures var td, top := tds[block.parent] + block.difficulty, tds[head.hash];
      var adopted := if rooted then Canon else NonStat;
      && (td > top ==> status == adopted) && (td < top ==> status == Side)
      && (td == top && block.number < head.number ==> status == adopted)
      && (td == top && block.number > head.number ==> status == Side)
      && (td == top && block.number == head.number ==> status == if prefer then adopted else Side)
    ensures var td := tds[block.parent] + block.difficulty;
      var hs, more := headers[block.hash := block], tds[block.hash := td];
      var next := if status == Canon then block else head;
      && tds[head.hash] <= more[next.hash]
      && (NoneHeavier(tds, head.hash) ==>
            (NoneHeavier(more, next.hash) <==> !(status == NonStat && td > tds[head.hash])))
      && (Foremost(headers, tds, head) ==>
            (Foremost(hs, more, next) <==>
              status != NonStat || (td == tds[head.hash] && block.number == head.number)))
  {
    var more := tds[block.hash := tds[block.parent] + block.difficulty];
    assert block.hash in more && more[block.hash] == tds[block.parent] + block.difficulty;
    assert more[head.hash] == tds[head.hash];
  }

  lemma BlockKeyed(headers: Headers, bodies: Bodies, known: Headers, genesis: Hash, block: Header, txs: seq<Tx>)
    requires AdmissibleBlock(headers, bodies, known, genesis, block, txs)
    ensures block.hash in headers ==> headers[block.hash] == block
    ensures block.hash in known ==> known[block.hash] == block
    ensures block.hash != ZERO && 0 < block.number < MAX_UINT64
    ensures block.parent in headers ==> headers[block.parent].number + 1 == block.number
  {
  }

  /** What is known of a block handed to WriteBlockWithState: its hash does not collide, its parent, if that is
      stored, has the number below, and no transaction is repeated on its chain. */
  ghost predicate AdmissibleBlock(headers: Headers, bodies: Bodies, known: Headers, genesis: Hash, block: Header,
                                  txs: seq<Tx>) {
    && block.hash != ZERO && 0 < block.number < MAX_UINT64
    && (block.hash in headers ==> headers[block.hash] == block && block.hash in bodies && bodies[block.hash] == txs)
    && (block.hash in known ==> known[block.hash] == block)
    && (block.parent in headers ==> headers[block.parent].number + 1 == block.number)
    && (Rooted(headers, genesis, block.parent) ==>
          Unique(bodies[block.hash := txs], Line(headers, genesis, block.parent) + [block.hash]))
  }

  /** Storing a block does not complete the ancestry of its own parent. */
  lemma StaysUnrooted(headers: Headers, genesis: Hash, block: Header)
    requires 0 < block.number && block.parent in headers && !Rooted(headers, genesis, block.parent)
    requires headers[block.parent].number + 1 == block.number
    requires block.hash in headers ==> headers[block.hash] == block
    ensures !Rooted(headers[block.hash := block], genesis, block.hash)
  {
    if Rooted(headers[block.hash := block], genesis, block.hash) {
      RootedBelow(headers, genesis, block, block.parent);
    }
  }

  lemma {:induction false} RootedBelow(headers: Headers, genesis: Hash, block: Header, h: Hash)
    requires block.hash in headers ==> headers[block.hash] == block
    requires h in headers && headers[h].number < block.number && Rooted(headers[block.hash := block], genesis, h)
    ensures Rooted(headers, genesis, h)
    decreases headers[h].number
  {
    if headers[h].number > 0 {
      RootedBelow(headers, genesis, block, headers[h].parent);
    }
  }

  lemma StoreKeeps(headers: Headers, bodies: Bodies, lookup: map<Tx, Position>, genesis: Hash, head: Hash,
                   block: Header, txs: seq<Tx>)
    requires Rooted(headers, genesis, head) && bodies.Keys == headers.Keys
    requires block.hash in headers ==> headers[block.hash] == block && bodies[block.hash] == txs
    ensures Rooted(headers[block.hash := block], genesis, head)
    ensures Line(headers[block.hash := block], genesis, head) == Line(headers, genesis, head)
    ensures var bodies', line := bodies[block.hash := txs], Line(headers, genesis, head);
      && (Unique(bodies, line) ==> Unique(bodies', line))
      && (Finds(lookup, bodies, line) ==> Finds(lookup, bodies', line))
      && forall tx :: Stray(lookup, bodies', line, tx) <==> Stray(lookup, bodies, line, tx)
  {
    Extend(headers, headers[block.hash := block], genesis, head);
    var line := Line(headers, genesis, head);
    LineIsLine(headers, genesis, head);
    forall i: nat | i < |line|
      ensures line[i] in headers
    {
      assert Entry(headers, line, i);
    }
    SamePositions(bodies, bodies[block.hash := txs], line);
  }

  lemma SamePositions(bodies: Bodies, bodies': Bodies, line: seq<Hash>)
    requires forall i: nat :: i < |line| ==>
      line[i] in bodies && line[i] in bodies' && bodies[line[i]] == bodies'[line[i]]
    ensures forall tx, p :: At(bodies', line, tx, p) <==> At(bodies, line, tx, p)
  {
  }

  /** A new block is rooted exactly if its parent is. */
  lemma NewBlockLine(headers: Headers, genesis: Hash, block: Header)
    requires WellKeyed(headers) && block.hash != ZERO && 0 < block.number < MAX_UINT64
    requires block.parent in headers && headers[block.parent].number + 1 == block.number
    requires block.hash in headers ==> headers[block.hash] == block
    ensures var hs := headers[block.hash := block];
      && WellKeyed(hs) && (Rooted(hs, genesis, block.hash) <==> Rooted(headers, genesis, block.parent))
      && (Rooted(hs, genesis, block.hash) ==>
            Line(hs, genesis, block.hash) == Line(headers, genesis, block.parent) + [block.hash])
  {
    if Rooted(headers, genesis, block.parent) {
      Extend(headers, headers[block.hash := block], genesis, block.parent);
    } else {
      StaysUnrooted(headers, genesis, block);
    }
  }

  lemma NothingAbove(line: seq<Hash>)
    requires 0 < |line|
    ensures Above(line, |line| - 1) == []
  {
  }

  /** Writing the entries of a block that is on the chain anyway does no harm. */
  lemma FindsAgain(lookup: map<Tx, Position>, before: map<Tx, Position>, bodies: Bodies, line: seq<Hash>, block: Header)
    requires block.number < |line| && line[block.number] == block.hash && block.hash in bodies
    requires Finds(before, bodies, line) && Rewritten(lookup, before, bodies[block.hash], block)
    ensures Finds(lookup, bodies, line)
    ensures forall tx :: Stray(lookup, bodies, line, tx) ==> Stray(before, bodies, line, tx)
  {
  }

  ghost predicate Rewritten(after: map<Tx, Position>, before: map<Tx, Position>, txs: seq<Tx>, block: Header) {
    && (forall tx :: tx in after <==> tx in before || tx in txs)
    && (forall tx :: tx in after ==>
          if tx in txs then
            && after[tx].block == block.hash && after[tx].number == block.number
            && after[tx].index < |txs| && txs[after[tx].index] == tx
          else after[tx] == before[tx])
  }

  /** `after` is `before` with the numbers f+1 .. m overwritten from the line. */
  ghost predicate Repainted(after: map<nat, Hash>, before: map<nat, Hash>, line: seq<Hash>, f: nat, m: int) {
    forall k: nat ::
      if f < k <= m then k in after && k < |line| && after[k] == line[k]
      else (k in after <==> k in before) && (k in after ==> after[k] == before[k])
  }

  lemma NothingAdopted(lookup: map<Tx, Position>, canon: map<nat, Hash>, bodies: Bodies, b: seq<Hash>, f: nat)
    requires f < |b|
    ensures Merged(lookup, lookup, bodies, b, f, f) && Repainted(canon, canon, b, f, f)
  {
  }

  lemma Keyed(headers: Headers, h: Hash)
    requires WellKeyed(headers) && h in headers
    ensures headers[h].hash == h
  {
  }

  lemma RepaintedOverlaid(after: map<nat, Hash>, before: map<nat, Hash>, a: seq<Hash>, b: seq<Hash>, f: nat)
    requires Covers(before, a) && f < |a| && f < |b| && a[..f + 1] == b[..f + 1]
    requires Repainted(after, before, b, f, |b| - 1)
    ensures Overlaid(after, before, b)
  {
    forall i: nat | i < |b|
      ensures i in after && after[i] == b[i]
    {
      if i <= f {
        assert a[i] == a[..f + 1][i] == b[i];
      }
    }
  }

  lemma OccursLast(bodies: Bodies, blocks: seq<Hash>, h: Hash)
    ensures forall tx :: Occurs(bodies, blocks + [h], tx) <==>
      (Occurs(bodies, blocks, tx) || (h in bodies && tx in bodies[h]))
  {
    forall tx
      ensures Occurs(bodies, blocks + [h], tx) <==> (Occurs(bodies, blocks, tx) || (h in bodies && tx in bodies[h]))
    {
      var all := blocks + [h];
      if Occurs(bodies, blocks, tx) {
        var k :| 0 <= k < |blocks| && blocks[k] in bodies && tx in bodies[blocks[k]];
        assert all[k] in bodies && tx in bodies[all[k]];
      }
      if h in bodies && tx in bodies[h] {
        assert all[|blocks|] in bodies && tx in bodies[all[|blocks|]];
      }
    }
  }

  lemma BranchFacts(hs: Headers, genesis: Hash, a: Hash, b: Hash, f: nat)
    requires Rooted(hs, genesis, a) && Rooted(hs, genesis, b)
    requires Forks(Line(hs, genesis, a), Line(hs, genesis, b), f)
    ensures IsLine(hs, Line(hs, genesis, b))
    ensures Line(hs, genesis, a)[..f + 1] == Line(hs, genesis, b)[..f + 1]
  {
    LineIsLine(hs, genesis, a);
    LineIsLine(hs, genesis, b);
    LinesMeet(hs, Line(hs, genesis, a), Line(hs, genesis, b), f);
  }

  /** Writing the entries of the next block of the branch. */
  lemma MergeStep(after: map<Tx, Position>, middle: map<Tx, Position>, before: map<Tx, Position>, bodies: Bodies,
                  line: seq<Hash>, f: nat, block: Header)
    requires f < block.number < |line| && line[block.number] == block.hash && block.hash in bodies
    requires Merged(middle, before, bodies, line, f, block.number - 1)
    requires Rewritten(after, middle, bodies[block.hash], block)
    ensures Merged(after, before, bodies, line, f, block.number)
  {
    forall tx, p | At(bodies, line, tx, p) && f < p.number <= block.number
      ensures tx in after && f < after[tx].number && At(bodies, line, tx, after[tx])
    {
      MergeComplete(after, middle, before, bodies, line, f, block, tx, p);
    }
  }

  lemma MergeComplete(after: map<Tx, Position>, middle: map<Tx, Position>, before: map<Tx, Position>, bodies: Bodies,
                      line: seq<Hash>, f: nat, block: Header, tx: Tx, p: Position)
    requires f < block.number < |line| && line[block.number] == block.hash && block.hash in bodies
    requires Merged(middle, before, bodies, line, f, block.number - 1)
    requires Rewritten(after, middle, bodies[block.hash], block)
    requires At(bodies, line, tx, p) && f < p.number <= block.number
    ensures tx in after && f < after[tx].number && At(bodies, line, tx, after[tx])
  {
    if tx !in bodies[block.hash] {
      assert p.number < block.number;
    }
  }

  lemma EmptyAdmissible(headers: Headers, bodies: Bodies, known: Headers, genesis: Hash, block: Header)
    requires block.parent in headers ==> headers[block.parent].number + 1 == block.number
    requires 0 < block.number < MAX_UINT64
    requires block.hash !in headers && block.hash !in known && block.hash != ZERO
    requires forall h :: h in bodies ==> bodies[h] == []
    ensures AdmissibleBlock(headers, bodies, known, genesis, block, [])
  {
  }

  /** Two empty blocks on genesis. */
  method TwoBlocks() returns (b: Blocks)
    ensures fresh(b) && b.Valid() && b.genesis == 1 && b.current == Header(3, 2, 2, 1) && b.known == b.headers
    ensures b.headers == map[1 := Header(1, 0, 0, 1), 2 := Header(2, 1, 1, 1), 3 := Header(3, 2, 2, 1)]
    ensures b.tds == map[1 := 1, 2 := 2, 3 := 3] && b.bodies == map[1 := [], 2 := [], 3 := []]
  {
    hide HeaderChain.Known, Unique, Finds, Exact, WellKeyed, AdmissibleBlock, Line;
    b := new Blocks(Header(1, 0, 0, 1));
    EmptyAdmissible(b.headers, b.bodies, b.known, b.genesis, Header(2, 1, 1, 1));
    var s1 := b.WriteBlock(Header(2, 1, 1, 1), [], false);
    EmptyAdmissible(b.headers, b.bodies, b.known, b.genesis, Header(3, 2, 2, 1));
    var s2 := b.WriteBlock(Header(3, 2, 2, 1), [], false);
  }

  /** And a heavier block beside the first: the head is number 1, and number 2 still names the block that was
      dropped. */
  method HeavierShorter() returns (b: Blocks)
    ensures b.Valid() && b.current.number == 1 && 2 in b.canon && b.canon[2] != b.current.hash
    ensures !Indexes(b.canon, b.Chain())
  {
    hide HeaderChain.Known, Unique, Finds, Exact, WellKeyed, AdmissibleBlock;
    b := TwoBlocks();
    EmptyAdmissible(b.headers, b.bodies, b.known, b.genesis, Header(4, 1, 1, 9));
    var s3 := b.WriteBlock(Header(4, 1, 1, 9), [], false);
  }

  lemma TwoCut()
    ensures Cut([1, 2, 3], 0) == {2, 3} && Kept([1, 2, 3], 0) == [1]
  {
    assert [1, 2, 3][1] in Cut([1, 2, 3], 0) && [1, 2, 3][2] in Cut([1, 2, 3], 0);
  }

  lemma Orphan(headers: Headers, genesis: Hash, h: Hash)
    requires h in headers && 0 < headers[h].number && headers[h].parent !in headers
    ensures !Rooted(headers, genesis, h)
  {
  }

  /** And a side block beside the second. */
  method SideBlock() returns (b: Blocks)
    ensures fresh(b) && b.Valid() && b.genesis == 1 && b.current == Header(3, 2, 2, 1) && b.known == b.headers
    ensures b.headers == HeaderChain.Forked() && b.tds == map[1 := 1, 2 := 2, 3 := 3, 4 := 3]
    ensures b.bodies == map[1 := [], 2 := [], 3 := [], 4 := []]
  {
    hide HeaderChain.Known, Unique, Finds, Exact, Stray, WellKeyed, AdmissibleBlock, Rooted, Line;
    b := TwoBlocks();
    EmptyAdmissible(b.headers, b.bodies, b.known, b.genesis, Header(4, 2, 2, 1));
    var side := b.WriteBlock(Header(4, 2, 2, 1), [], false);
  }

  /** A rewind to genesis, and a heavy block on the side block: its ancestry is broken, so the write fails and
      leaves it in the store, heavier than the head. */
  method RewindThenFails() returns (b: Blocks, status: Status)
    ensures b.Valid() && status == NonStat && b.current == Header(1, 0, 0, 1)
    ensures 5 in b.headers && b.headers[5].parent in b.headers && !b.Heaviest()
  {
    hide HeaderChain.Known, Unique, Finds, Exact, Stray, WellKeyed, AdmissibleBlock, Rooted, Line, Cut, Kept;
    b := SideBlock();
    HeaderChain.ForkedLines();
    TwoCut();
    b.Rewind(0);
    LineIsLine(b.headers, 1, b.current.hash);
    Orphan(b.headers, 1, 4);
    EmptyAdmissible(b.headers, b.bodies, b.known, b.genesis, Header(5, 4, 3, 10));
    status := b.WriteBlock(Header(5, 4, 3, 10), [], false);
    assert b.tds[5] > b.tds[1];
  }
}
