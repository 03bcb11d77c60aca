# Verified model of the node's core state machines

This project models, in Dafny, the parts of a Quorum (go-ethereum) node whose correctness rests on
redundant data structures, concurrency or long chains of small updates, and proves for all inputs and
all runs that they keep what they promise.

* **Binary Merkle tree hasher** (`Bmt*.dfy`). The concurrent hasher is a state machine: the goroutines of the
  segments, the goroutine that writes and sums, and the tree nodes they share. Every schedule gives the hash of the
  recursive reference hasher, never deadlocks, ends after a bounded number of steps and hands the tree back clean.
  Writing is a class whose content after any sequence of writes is the concatenation of what was written.
* **Canonical chain** (`ChainTree`, `HeaderChain`, `HeaderStore`, `HeaderQuery`, `ChainFork`, `BlockStore`). Headers
  form a tree by parent hash. The number index of the header chain is the ancestry of the head over every run of writes
  and rewinds, the head stays a heaviest header over every run of writes, and the transaction index finds every
  transaction of the chain after every reorganisation and rewind, and is exact as long as no rewind has left entries
  behind. Ancestor queries agree with walking parent links, and the walks down two branches find the highest common
  ancestor.
* **Transaction pool** (`TxList`, `Heap`, `SortedMap`, `AccountList`, `PricedList`, `PoolState`, `PoolLevels`,
  `PoolSpec`, `PoolAdd`, `PoolCuts`, `PoolPromote`, `PoolDemote`, `PoolSizes`, `PoolBatch`, `PoolReset`, `TxPool`,
  `PoolGap`). Heaps, nonce maps, caches, caps and price heap behave like plain maps and full scans. The pool keeps its
  hash lookup the disjoint union of pending and queue, its price list in step with the lookup, pending nonces
  contiguous unless a reinjection does harm, and nothing executable waiting in the queue. What a batch or a new head
  does is given step by step and exactly. Eviction computes the one max-min fair allocation, and a transaction is lost
  only for a stated reason.
* **Chain indexer** (`ChainIndexer`, `IndexerCanon`, `IndexerRace`). Sections are processed with the lock released while
  the chain changes; every stored head ends a full run of headers, and it is said exactly when stored sections are
  canonical.
* **Event feed** (`EventFeed`). One send serves many subscribers while they unsubscribe, each exactly once.
* **Gas and value accounting** (`GasState`, `StateTransition`, `StateProcessor`), with Quorum's private messages.

Hashes, channels, addresses and transactions are opaque identifiers; hash functions, signature recovery, the virtual
machine and the database are parameters or maps with the contracts stated in the modules. Integers are unbounded
where the code uses big integers, and 64-bit or 32-bit behaviour is written out where it decides something: the toggle
counter of a tree node, the header query arithmetic, intrinsic gas, the gas pool and receipt differences.

Where the code does less than one might expect, the model follows the code:

* A node's toggle counter is a 32-bit integer. Toggling works exactly while the counter is not negative
  (`BmtSteps.ToggleAlternates`), which covers 2^30 chunks on one tree. Beyond that, at any node with data below both
  children, the first goroutine to arrive can go on with a value left by an earlier chunk
  (`BmtStale.NegativeUsesStale`);
  `BmtHasher.WrappedToggleUsesStaleValue` gives a run that returns such a hash.
* Rewinding the header chain can leave side headers without a parent: exactly if one branches off above the target
  (`HeaderChain.RewindClosed`, with a ledger in `RewindStrands`). It can also leave a head that is not heaviest;
  `HeaderChain.RewindHeaviest` says when. A later header on top of such an orphan, if it wins, makes `WriteHeader` run
  into a missing header; `HeaderStore.Store.WriteHeader` says that this happens exactly then, and
  `HeaderChain.RewindThenCrash` shows it. The number index that a restart finds is then rewritten down to the missing
  header and names it; the ancestry of the head is still in it if and only if a header is missing above the number of
  the head (`HeaderStore.TornIndexes`). `HeaderStore.CrashTears` is a run after which it is not.
* In block mode the same orphan makes the reorganisation fail instead: a write ends in that error exactly if the new
  block wins and an ancestor of it was deleted. The block stays in the store, possibly heavier than the head
  (`BlockStore.Blocks.WriteBlock`, with a run in `BlockStore.RewindThenFails`).
* A rewind deletes blocks but not the lookup entries of their transactions. An exact transaction index stays exact if
  and only if the deleted blocks are empty (`BlockStore.Blocks.Rewind`).
* `GetAncestor` treats the zero hash as the canonical hash of numbers above the head.
* A reorganisation to a shorter chain leaves stale numbers above the new head. The number index of the block store is
  exactly the new chain if and only if no old number lies above its head (`BlockStore.OverlaidExact`), and
  `BlockStore.HeavierShorter` is a run that ends with a stale one.
* A reset of the pool reinjects transactions before it demotes, and pending nonces can have a gap afterwards. In a pool
  with room they are contiguous if and only if no account with a reinjected transaction is harmed: the run of its
  queued nonces from the new chain nonce is empty, or it begins with a payable transaction and reaches the old pending
  nonces or nothing of those above it stays (`TxPool.Pool.Reset`, `PoolReset.ResetExactly`). `PoolGap.ReinjectionGap`
  runs a pool into such a gap.
* The queue is said to lose its oldest transactions first. The code cuts the account with the latest heartbeat first
  (`TxPool.Pool.Truncate`), and an account without pending transactions has no heartbeat, so that it is cut last and
  expires at once (`TxPool.Pool.Evict`).
* When the backend's reset fails, the indexer drops its sections without holding the lock. `IndexerRace.OverlapHarmless`
  says exactly for which counts a concurrent reorganisation notice leaves the right heads in every interleaving of the
  64-bit loop's steps; `ChainIndexer.Indexer.Run` holds up to the first overlap of that kind. The counter itself can
  wrap to 2^64 - 1 on the way, unless the notice reaches no stored section (`IndexerRace.CounterNeverWraps`, with a
  schedule in `WrapSchedule`).
* A reorganisation notice inside the section that is being processed cuts nothing. A stored section can therefore be
  out of date with no notice to come: exactly if it is stored after a notice for a header that had been read, with
  nothing read and no further change of that header since (`IndexerCanon.CanonicalExactly`).
  `IndexerCanon.UnnoticedReorg` is such a run, and `NoRecovery` shows that the indexer then gets no further by itself.
* A non-participant of a private transaction does not return the bought gas to the pool, and it does not ask whether
  the value is covered. Participant and non-participant agree on everything but the pool exactly if the message pays its
  intrinsic gas and its value is covered in the state that the participant's machine asks; on the pool they then agree
  exactly if the participant's bill after the refund is all the gas bought (`StateProcessor.PartyAndOutsider`).
  `StateProcessor.UncoveredValue` is a message that only the non-participant accepts. Constellation, however, hides
  from a non-participant that it is one and hands it an empty payload. It then skips calls but bills them, so that the
  pools agree on everything that both accept (`StateProcessor.PartyAndEmptyHanded`).

## Model

| member | source | states |
|---|---|---|
| `BmtShape.RootHeightIsFirst` | bmt/bmt.go:253-275 | a leaf is below node 0 of a level exactly from its root height on |
| `BmtReference.FitIsSpan` | bmt/bmt_r.go:67-75 | halving the span ends at the largest span below the data length |
| `BmtReference.RefHashSpan` | bmt/bmt_r.go:67-85 | the split of the reference hash does not depend on the span it starts from |
| `BmtReference.RefHasher.constructor` | bmt/bmt_r.go:39-55 | the doubling loop finds a span of section size times a power of two that covers the capacity |
| `BmtReference.RefHasher.Hash` | bmt/bmt_r.go:59-64 | the reference hash of the data cut to the capacity |
| `BmtReference.RefHasher.HashSpan` | bmt/bmt_r.go:67-85 | the recursion with its halving loop computes the reference hash for any span that covers the data |
| `BmtValue.NodeIsReference` | bmt/bmt.go:461-490 | the value a tree node ends up with is the reference hash of the data below it, also where a lone left child is promoted |
| `BmtValue.TreeIsReference` | bmt/bmt.go:43-48 | the value of the smallest subtree that covers the data is the reference hash of all of it, for every number of segments |
| `BmtWriter.Depth` | bmt/bmt.go:519-524 | the least depth whose leaves hold that many segments |
| `BmtWriter.Writer.constructor` | bmt/bmt.go:90-99 | nothing written yet |
| `BmtWriter.Writer.Write` | bmt/bmt.go:333-372 | within capacity the content grows by exactly the bytes written, whatever was buffered; full sections are launched and never change |
| `BmtWriter.Writer.Fill` | bmt/bmt.go:344-371 | the chunking loop keeps launched sections full and the last one non-empty, and consumes the input in order |
| `BmtHasher.WriteAll` | bmt/bmt.go:333-372 | any way of splitting a string over writes gives the same content |
| `BmtSteps.ToggleAlternates` | bmt/bmt.go:507-509 | the first of two arrivals waits if and only if the counter is not negative, and the second never waits |
| `BmtInvariant.InitialInv` | bmt/bmt.go:423-438 | a released tree meets the run invariant |
| `BmtTheorems.RunnerInv` | bmt/bmt.go:440-490 | every step of a segment goroutine keeps the run invariant: who has passed a node, what is stored in it, its flags and counter |
| `BmtTheorems.MainInv` | bmt/bmt.go:292-322 | so does every step of the summing goroutine, its walk to the root included |
| `BmtTheorems.RunInv` | bmt/bmt.go:440-545 | over every schedule |
| `BmtTheorems.HasherRefinesReference` | bmt/bmt.go:292-322 | in every interleaving the sum is the reference hash of the written data, at most one goroutine sends a result, and a released tree is clean with every counter raised by two or not at all |
| `BmtTheorems.NoDeadlock` | bmt/bmt.go:461-490 | until the tree is released some goroutine can move |
| `BmtTheorems.RunsAreFinite` | bmt/bmt.go:461-545 | every run is shorter than a rank of its first state |
| `BmtTheorems.ReleaseTree` | bmt/bmt.go:423-438 | releasing along the last leaf's path clears every unbalanced and root flag that a run can have set |
| `BmtTheorems.ReuseIsIndependent` | bmt/bmt.go:423-438 | in a session of chunks on one tree, up to 2^30 of them, each result is the reference hash of its own chunk |
| `BmtHasher.FastEqualsReference` | bmt/bmt.go:43-48 | for every list of writes within capacity: the writer holds their concatenation, the tree is the shallowest for the capacity, the reference hasher returns the reference hash of those bytes at any span that covers them, and every schedule on a clean tree sums to it, releases the tree clean and is never stuck before that |
| `BmtHasher.WrappedToggleUsesStaleValue` | bmt/bmt.go:507-509 | on a two-leaf tree with any negative root counter a run exists in which the sum is the hash of the first leaf and a value left over from an earlier chunk |
| `BmtHasher.TogglesWrap` | bmt/bmt.go:507-509 | two toggles make an even counter negative exactly from the last positive even value on, or from a negative one |
| `BmtHasher.AnySpan` | bmt/bmt_r.go:67-85 | the reference hash of a split content is the same at every span that covers it |
| `BmtHasher.EveryScheduleSums` | bmt/bmt.go:292-322 | every schedule either can go on or has released a clean tree, and what it returns is the reference hash |
| `BmtStale.Climb` | bmt/bmt.go:461-490 | the goroutines below any node over full leaves can bring its value to its parent while nothing else in the tree moves |
| `BmtStale.NegativeUsesStale` | bmt/bmt.go:507-509 | in a tree of any depth, at any node with data below both children whose counter is negative, a run exists in which the goroutine of the left child hashes its value with what an earlier chunk left on the right, before any leaf below the right child is launched |
| `ChainTree.LineLinks` | core/headerchain.go:302-320 | the ancestry of a rooted header is parent-linked, numbered from genesis, and its prefixes are the ancestries of its members |
| `ChainTree.LinesMeet` | core/database_util.go:628-652 | two ancestries that share a header share everything below it |
| `ChainTree.RootedIn` | core/headerchain.go:173-181 | in part of a store a header is rooted exactly if its whole ancestry is there |
| `ChainTree.WalkIsLine` | core/headerchain.go:345-357 | walking k parent links gives the k-th entry of the ancestry from the top |
| `HeaderChain.WriteKeepsIndex` | core/headerchain.go:134-198 | a header write keeps the canonical index the ancestry of the head, stored difficulty the sum along the ancestry, and headers ancestor-closed |
| `HeaderChain.WriteKeepsHeaviest` | core/headerchain.go:154-192 | no stored header is heavier than the head, and the head's total difficulty never decreases, whatever the coin says at ties |
| `HeaderChain.RunKeeps` | core/headerchain.go:134-198 | over every run of writes from genesis |
| `HeaderChain.WriteKeepsKnown` | core/headerchain.go:134-198 | a write that completes keeps the index exact also when rewinds have left orphans, and every stored difficulty the sum over the ancestry the header once had |
| `HeaderChain.WriteRaises` | core/headerchain.go:154-192 | the head's total difficulty never decreases by a write, with orphans in the store or without |
| `HeaderChain.MixedRunKeeps` | core/headerchain.go:134-198 | over every run of writes and rewinds in which no write runs into a missing header the index is the ancestry of the head and stored difficulties are those sums |
| `HeaderChain.RewindKeeps` | core/headerchain.go:458-493 | rewinding leaves exactly the old index up to that number, with the head at its end |
| `HeaderChain.RewindClosed` | core/headerchain.go:458-493 | a rewind leaves the headers ancestor-closed if and only if no side header had its parent on the canonical line above the target |
| `HeaderChain.RewindStrands` | core/headerchain.go:458-493 | a ledger whose rewind leaves a header without its parent |
| `HeaderChain.RewindThenCrash` | core/headerchain.go:173-181 | after that rewind a winning header on top of the orphan runs into the missing parent |
| `HeaderChain.RewindHeaviest` | core/headerchain.go:458-493 | the head is a heaviest header after a rewind if and only if every heavier one is cut off by it |
| `HeaderStore.Store.constructor` | core/headerchain.go:73-110 | genesis alone is indexed, closed and heaviest |
| `HeaderStore.Store.WriteHeader` | core/headerchain.go:134-198 | the loops over the database produce exactly the written ledger and the right status; an unknown ancestor changes nothing; they run into a missing header if and only if the new one wins and an ancestor of it was deleted, and then the header and its difficulty are stored, the head is the old one, and the number index is the old one rewritten down to the highest missing ancestor; the heavier one wins, and the coin decides between equals |
| `HeaderStore.Store.MakeCanonical` | core/headerchain.go:157-189 | the index of any stale branch becomes the index of the new branch, if and only if all of that is stored; otherwise it is rewritten down to the highest header that is missing |
| `HeaderStore.TornIndexes` | core/headerchain.go:157-189 | the index that such a failure leaves names a header that is not stored, and is never that of the head; it still has the ancestry of the head if and only if a header of the new branch is missing above the number of the head |
| `HeaderStore.CrashTears` | core/headerchain.go:134-198 | a run of writes, a rewind and a write that fails, after which the index names a deleted header at the number of the head |
| `HeaderStore.Store.DeleteAbove` | core/headerchain.go:158-167 | exactly the numbers above the new head go |
| `HeaderStore.Store.RewriteBelow` | core/headerchain.go:169-181 | the loop that stops at the first matching entry still leaves every number below on the new branch; it fails if and only if a header of that branch is missing |
| `HeaderStore.Store.SetHead` | core/headerchain.go:458-493 | the three loops produce exactly the rewound ledger |
| `HeaderStore.Store.PopHeaders` | core/headerchain.go:465-475 | the branch above the target is collected, and the head ends on the target |
| `HeaderStore.Store.DeleteNumbers` | core/headerchain.go:476-480 | exactly the numbers between target and old height are dropped |
| `HeaderQuery.WalkCanonical` | core/headerchain.go:341-344 | reading the index k lower equals walking k parent links from a canonical header |
| `HeaderQuery.GetAncestor` | core/headerchain.go:328-358 | a non-zero answer is what parent links give; an ancestor that exists is found if and only if the budget covers the links up to the first canonical header, or up to the ancestor if that comes first, and exactly so much is spent; the parent and canonical starts cost nothing; the zero-hash case as coded |
| `HeaderQuery.NoWrap` | eth/handler.go:431-439 | the overflow test on the next number detects exactly the sums that do not fit 64 bits |
| `HeaderQuery.NextAbove` | eth/handler.go:429-451 | forward by hash: found exactly when the origin and the target are canonical, and then skip+1 generations above |
| `HeaderQuery.NextBelow` | eth/handler.go:420-428 | backward by hash: the ancestor skip+1 generations below, found exactly if the budget lasts |
| `HeaderQuery.NextByHash` | eth/handler.go:419-451 | in either direction the next header is skip+1 generations away on one ancestry |
| `HeaderQuery.HeadersByHash` | eth/handler.go:386-464 | a reply starts at the origin, its consecutive headers are skip+1 generations apart, and it keeps the limits; a canonical one is only cut short by genesis or the head; above any other origin there is nothing, and below one it is cut short only by genesis, a header that is not stored, or 100 links without meeting the canonical chain, and by those always |
| `HeaderQuery.BearingOn` | core/headerchain.go:340-356 | over the steps of a reply the budget that is left accounts for every link off the canonical chain |
| `ChainTree.WalkOn` | core/headerchain.go:340-356 | walking on from where a walk has arrived is one longer walk |
| `ChainFork.Descend` | core/database_util.go:629-640 | lowering the higher branch arrives at the entry of its ancestry and collects what is above; from a stored header it arrives at a rooted one if and only if it started from one |
| `ChainFork.FindCommonAncestor` | core/database_util.go:628-652 | the highest common header of two branches that share a genesis |
| `ChainFork.ResetBranches` | core/tx_pool.go:384-413 | the walk terminates on any input, and on rooted branches collects exactly the two branches above the highest common block |
| `ChainFork.SplitBranches` | core/blockchain.go:1406-1445 | the same for the walk of a reorganisation, which from a rooted old block finds a common block if and only if the new block is rooted |
| `BlockStore.ReorgFinds` | core/blockchain.go:1457-1474 | writing the new branch's entries and deleting those of transactions only on the old one makes an index that finds all of the old chain find all of the new chain, and no entry goes astray that did not before |
| `BlockStore.OverlaidExact` | core/blockchain.go:512-529 | an index painted over from the head down is exactly the new chain if and only if no old number lies above the head |
| `BlockStore.NoneStray` | core/blockchain.go:1457-1474 | an index is exact if and only if it finds every transaction of the chain and has no stray entry |
| `HeaderChain.StoredKnown` | core/blockchain.go:930-946 | a block or header is stored with the sum over its ancestry as its total difficulty, whether its ancestors are still stored or not |
| `HeaderChain.KnownDifficulty` | core/blockchain.go:930-946 | writing one again never changes its stored difficulty |
| `BlockStore.NewBlockLine` | core/blockchain.go:1406-1445 | a stored block has a complete ancestry if and only if its parent has |
| `BlockStore.HeavierShorter` | core/blockchain.go:1378-1474 | a run of writes to a heavier, shorter branch that leaves a stale number above the head |
| `BlockStore.RewindThenFails` | core/blockchain.go:1038-1044 | a run of writes, a rewind to genesis and a heavy block on a side block whose parent is gone: the write fails, the head is genesis, and the block is stored and heavier |
| `BlockStore.Blocks.constructor` | core/blockchain.go:512-529 | genesis alone is valid |
| `BlockStore.Blocks.WriteLookups` | core/blockchain.go:1462-1463 | every transaction of the block points at its place in it |
| `BlockStore.Blocks.Reorg` | core/blockchain.go:1378-1474 | it succeeds if and only if the ancestry of the new block is stored; then numbers up to its head are its own, those above keep their old entries, the transaction index finds all its transactions, and no entry goes astray; an error changes nothing |
| `BlockStore.Blocks.AdoptBranch` | core/blockchain.go:1457-1465 | inserting a branch bottom up repaints exactly its numbers and merges its lookups |
| `BlockStore.Blocks.WriteBlock` | core/blockchain.go:926-1062 | an error if and only if the parent is unknown or the block wins and an ancestor of it was deleted, the first changing nothing and the second storing the block only; the heavier block wins, of equal ones the lower number, and then the preferred one; the head stays a heaviest block and the lowest of those, if and only if no better one fails; an exact transaction index stays exact; the number index is the old one painted over, and exactly the chain if and only if no old number lies above the head |
| `BlockStore.Weighs` | core/blockchain.go:1020-1037 | the outcome of a write by difficulty and number, and that it keeps the head heaviest and lowest among the heaviest |
| `BlockStore.Blocks.MakeHead` | core/blockchain.go:1038-1060 | with or without a reorganisation the block becomes a valid head if and only if its ancestry is stored |
| `BlockStore.Blocks.StoreBlock` | core/blockchain.go:942-946 | a new block leaves the chain and both indexes as they are, and is rooted if and only if its parent is |
| `BlockStore.Blocks.Rewind` | core/blockchain.go:283-306 | exactly the chain above the number goes, with bodies, difficulties and numbers; lookup entries go astray exactly if they point above it, so that an exact index stays exact if and only if the deleted blocks are empty |
| `BlockStore.Blocks.PopBlocks` | core/headerchain.go:465-475 | the blocks above the number are collected, and the head is the last that stays |
| `BlockStore.CutLookups` | core/blockchain.go:288-291 | the same of any index that finds all transactions of a line |
| `BlockStore.CutLine` | core/headerchain.go:465-475 | what stays of a line that is cut is the ancestry of its new end |
| `TxList.FilterIsScan` | core/tx_list.go:290-314 | skipping the scan under the caps never changes the result |
| `TxList.OperationsKeepGood` | core/tx_list.go:251-340 | every operation keeps nonce filing and cap bounds |
| `TxList.RankMonotone` | core/tx_list.go:127-148 | ranks follow the nonce order, so the lowest k are well defined |
| `TxList.RemovalsStayContiguous` | core/tx_list.go:277-340 | on a strict contiguous list every removal leaves a contiguous list |
| `Heap.RootIsLeast` | core/tx_list.go:34-48 | the root of a heap ranks before no other entry wrongly |
| `Heap.Push` | core/tx_list.go:38-40 | sifting up keeps the heap order and adds one entry |
| `Heap.Remove` | core/tx_list.go:152-170 | removal at any index keeps the heap order and drops exactly that entry |
| `Heap.Init` | core/tx_list.go:102-120 | any array becomes a heap of the same entries |
| `SortedMap.ListsUnique` | core/tx_list.go:203-216 | a map has one nonce-sorted listing |
| `SortedMap.SortedTxs.Put` | core/tx_list.go:73-80 | a map update; heap and cache follow |
| `SortedMap.SortedTxs.Forward` | core/tx_list.go:84-98 | everything below the threshold leaves, returned in nonce order, and the shifted cache stays the sorted contents |
| `SortedMap.SortedTxs.FilterOut` | core/tx_list.go:102-123 | exactly the matching transactions leave and are returned, and the heap is rebuilt |
| `SortedMap.SortedTxs.CapAt` | core/tx_list.go:127-148 | the k lowest nonces stay, the rest is returned highest first, and the cache is cut |
| `SortedMap.SortedTxs.RemoveNonce` | core/tx_list.go:152-170 | one key leaves, found in the heap by search |
| `SortedMap.SortedTxs.TakeReady` | core/tx_list.go:178-193 | the maximal run of consecutive nonces from the least one leaves, in order, unless it starts above the given nonce |
| `SortedMap.SortedTxs.Flatten` | core/tx_list.go:203-216 | the nonce-sorted contents, cached or not |
| `AccountList.AccountTxs.Add` | core/tx_list.go:251-270 | inserted exactly if the place is free or the price bump is met, and what it replaced; the bump is stated without division |
| `AccountList.AccountTxs.DropUnpayable` | core/tx_list.go:290-314 | what stays is within both limits; what goes is over one or, in strict lists, above such a transaction; all that goes is returned |
| `AccountList.AccountTxs.Delete` | core/tx_list.go:325-340 | the nonce leaves, in strict lists with everything above it, which is returned |
| `PricedList.Priced.Put` | core/tx_list.go:414-416 | the entry joins the heap, which still covers the lookup |
| `PricedList.Priced.Removed` | core/tx_list.go:421-436 | one more stale entry is counted, or the heap is rebuilt from the lookup; exactness of the counter is kept |
| `PricedList.Priced.Underpriced` | core/tx_list.go:471-492 | despite stale entries: true exactly if no live price is below that of a remote transaction |
| `PricedList.Priced.Cap` | core/tx_list.go:440-467 | drops exactly the live remote transactions below the threshold; the counter stays exact |
| `PricedList.Priced.Discard` | core/tx_list.go:497-520 | drops that many live remote transactions, the cheapest, and among those of one price the highest nonces; the counter stays exact |
| `PricedList.HeapLength` | core/tx_list.go:421-436 | with heap length the live count plus the counter and no entry twice, the counter is exactly the number of stale entries |
| `PricedList.Run` | core/tx_list.go:414-520 | over every run of entering, leaving, asking, capping and discarding each event changes the lookup and answers as a full scan would, the heap covers the lookup, and if no hash enters twice its length is the live count plus the stale counter |
| `PoolState.ReplacePending` | core/tx_pool.go:673-691 | a replacement keeps the lookup the disjoint union of pending and queue |
| `PoolState.EnqueueNew` | core/tx_pool.go:720-743 | so does a new or replacing queued transaction |
| `PoolState.MoveUp` | core/tx_pool.go:761-794 | a promotion always finds its place free and keeps the union |
| `PoolLevels.LowestSize` | core/tx_pool.go:1043-1044 | capping at k keeps min(length, k) transactions |
| `PoolLevels.LowestNext` | core/tx_pool.go:1043-1044 | dropping the highest of the k lowest leaves the k-1 lowest |
| `PoolLevels.LevelMonotone` | core/tx_pool.go:1035-1081 | a higher level never holds fewer transactions |
| `PoolLevels.FairLevelUnique` | core/tx_pool.go:1013-1083 | all fair levels keep the same transactions, so the allocation is unique |
| `PoolLevels.FairGrants` | core/tx_pool.go:1013-1083 | at a fair level locals and accounts within their slots keep everything, others at least their slots; nothing is cut from a pool that fits, and one that still does not fit has no remote account over its slots |
| `PoolAdd.PlaceHolder` | core/tx_pool.go:671-691 | whoever has the sender and nonce of a new transaction is found in the pending list or the queue, and nowhere else |
| `PoolSpec.CutAligned` | core/tx_pool.go:916-933 | cutting a pending list at a nonce and lowering the pool nonce keeps pending nonces the range from chain nonce to pool nonce |
| `PoolPromote.RunAligned` | core/tx_pool.go:988-996 | a promoted run starts exactly at the pool nonce, so the range grows without a gap |
| `PoolPromote.PromotedMore` | core/tx_pool.go:962-1008 | promoting one more account adds to what was promoted: its run, nonce, heartbeat and queue, and nothing of the others |
| `PoolPromote.CulledLoses` | core/tx_pool.go:947-1123 | a transaction lost by promotion was spent, or of a remote account and above the fair level, behind as many as one account may queue, or queued while the queue was too long |
| `PoolPromote.PromotedSifts` | core/tx_pool.go:962-1008 | of an account that is promoted exactly the queued transactions that are spent, or in Quorum below the chain nonce, are thrown out; every other one is pending or queued, unless the account is remote and has its limit queued with lower nonces |
| `PoolCuts.LatestStep` | core/tx_pool.go:1088-1103 | cutting the account with the latest heartbeat keeps the rule that whoever has a later heartbeat than a cut account has lost everything |
| `PoolSizes.SizesAdd` | core/tx_pool.go:511-521 | pending plus queued is the number of known transactions |
| `PoolSizes.RoomyLoses` | core/tx_pool.go:947-1123 | while the pool is within both limits, promotion loses only spent transactions and those over the queue limit of a remote account |
| `PoolBatch.RoomyTrace` | core/tx_pool.go:852-873 | in a pool with room for a batch its effect is that of its offers one after another, and the accounts to promote are those of its fresh ones |
| `PoolDemote.PostponedParts` | core/tx_pool.go:1141-1163 | what the two ways back to the queue carry is together every payable transaction from the chain nonce on that does not stay pending |
| `PoolDemote.DemotedSorts` | core/tx_pool.go:1129-1168 | of the pending transactions exactly the spent ones are gone, every other is pending or queued, and what was queued stays |
| `PoolReset.KeptPending` | core/tx_pool.go:1129-1168 | what stays pending is everything from the chain nonce up to the first unpayable transaction, or nothing if that nonce is missing |
| `PoolReset.RecoversExactly` | core/tx_pool.go:432-442 | after demotion and renumbering an account is contiguous with the right pool nonce if and only if what stays has no gap and, if nothing stays, its pool nonce was not raised |
| `PoolReset.MendsExactly` | core/tx_pool.go:425-442 | for an account promoted before the demotion that is so if and only if its run does no harm |
| `PoolReset.StillBroken` | core/tx_pool.go:432-447 | a run that did harm is not repaired by demotion, renumbering and the last promotion |
| `PoolReset.ResetExactly` | core/tx_pool.go:425-447 | in a contiguous pool with room for what is reinjected, pending nonces are contiguous after a reset if and only if no account with a fresh reinjected transaction is harmed, as computed from the pool and the offers before |
| `PoolReset.OrderKept` | core/tx_pool.go:278-356 | contiguity is kept over a run whose reinjections find room and do no harm |
| `PoolGap.ReinjectionGap` | core/tx_pool.go:425-447 | a pool with pending nonces 8 and 9, reset to chain nonce 5 with 5, an unpayable 6 and 7 coming back, ends with 5, 7, 8 and 9 pending and pool nonce 8 |
| `TxPool.Pool.constructor` | core/tx_pool.go:229-275 | an empty pool meets all invariants |
| `TxPool.Pool.Add` | core/tx_pool.go:644-715 | partition, price list, heartbeats and contiguity are kept; a known, unacceptable or, in a full pool, underpriced offer changes nothing; otherwise a full pool first removes its cheapest remote transactions, one after another, and then the offer is accepted if and only if it outbids whoever has its place; an accepted one is sound, unspent and of an allowed price, and a rejected one is not, or known, or too cheap for a full pool, or meets one in its place that it does not outbid by the bump |
| `TxPool.Pool.Underpriced` | core/tx_pool.go:659-664 | the price list answers like a scan of all prices in the pool |
| `TxPool.Pool.MakeRoom` | core/tx_pool.go:665-671 | exactly the remote transactions that rank lowest by price leave, as many as are too many, each by removeTx, until the new one fits or only locals are left |
| `TxPool.Pool.Place` | core/tx_pool.go:671-715 | accepted if and only if nothing it fails to outbid has its sender and nonce; the lookup changes by exactly the two, and the transaction goes to the pending list if its nonce is pending and to the queue otherwise |
| `TxPool.Pool.ReplaceTx` | core/tx_pool.go:673-691 | accepted exactly if the price bump is met; the lookup swaps the two |
| `TxPool.Pool.EnqueueTx` | core/tx_pool.go:720-743 | the same for the queue, reporting whether something was replaced |
| `TxPool.Pool.AddBatch` | core/tx_pool.go:852-873 | the offers take effect one after another, each as for a single one, and then exactly the accounts of fresh transactions are promoted, with every loss accounted for; nothing executable stays queued |
| `TxPool.Pool.RemoveTx` | core/tx_pool.go:903-940 | exactly that hash leaves; if it was pending, exactly the later pending transactions of the sender go back to the queue and the pool nonce is lowered to it; an emptied list is deleted, a pending one with its heartbeat |
| `TxPool.Pool.PromoteTx` | core/tx_pool.go:761-794 | one transaction moves, the pool nonce follows it and the account has a new heartbeat |
| `TxPool.Pool.PromoteReady` | core/tx_pool.go:988-996 | exactly the executable run moves to the pending list and the pool nonce stands after it; what stays lies above the new pool nonce |
| `TxPool.Pool.PromoteAccount` | core/tx_pool.go:962-1008 | pending list, queue, pool nonce and heartbeat of the account are exactly those of a promotion, other accounts keep theirs; exactly the spent queued transactions, in Quorum those below the chain nonce, are thrown out before the limit |
| `TxPool.Pool.DropRound` | core/tx_pool.go:1042-1057 | one round takes the level down by one |
| `TxPool.Pool.LowerTo` | core/tx_pool.go:1040-1081 | rounds stop when the pool fits or the floor is reached, and never drop without need |
| `TxPool.Pool.LevelOffenders` | core/tx_pool.go:1020-1060 | popping offenders longest first keeps everyone at one common level |
| `TxPool.Pool.Equalize` | core/tx_pool.go:1013-1083 | the result is the max-min fair level: each remote account keeps its lowest min(length, E) nonces, E at least AccountSlots, the total fits or E is AccountSlots, and E+1 would not have fitted if anything was dropped |
| `TxPool.Pool.Truncate` | core/tx_pool.go:1084-1123 | the queue shrinks to its limit exactly, or to the locals; each account loses its highest nonces only, and none loses any before all with a later heartbeat have lost everything |
| `TxPool.Pool.CutAccount` | core/tx_pool.go:1100-1121 | one account loses all its queued transactions or just enough of the highest |
| `TxPool.Pool.PromoteAll` | core/tx_pool.go:962-1008 | exactly the given accounts are promoted: each pending list grows by its executable run and nothing else; nothing executable waits, and locals lost only spent transactions; each queued transaction of theirs is thrown out exactly if it is spent, in Quorum if it lies below the chain nonce, or over the limit of its remote account |
| `TxPool.Pool.PromoteExecutables` | core/tx_pool.go:947-1123 | the old pending lists grown by the executable runs are cut to the fair level, the queues left are cut to the limit, and every lost transaction is spent or remote and over one of the three limits; before the limits exactly the spent queued transactions of the given accounts go, in Quorum those below the chain nonce |
| `TxPool.Pool.DemoteAccount` | core/tx_pool.go:1129-1168 | exactly the payable run from the chain nonce stays pending, or nothing; exactly the other payable ones from there on are queued; only spent transactions are forgotten |
| `TxPool.Pool.Demote` | core/tx_pool.go:1129-1168 | the same for every account: pending, queue and losses; exactly the spent transactions are gone |
| `TxPool.Pool.Renumber` | core/tx_pool.go:439-442 | every account with pending transactions has the nonce after its last one, and no other nonce changes |
| `TxPool.Pool.Reset` | core/tx_pool.go:425-447 | the reinjected batch, the demotion and the last promotion follow each other exactly, with every loss accounted for; contiguity if every account recovers from the demotion; in a pool with room if and only if no account with a reinjected transaction is harmed; always if nothing is reinjected; nothing executable waits |
| `TxPool.Pool.Resettle` | core/tx_pool.go:432-447 | from any pool nonces: between demotion and promotion the pool is contiguous if and only if every account recovers, and the promotion keeps that |
| `TxPool.Pool.SetGasPrice` | core/tx_pool.go:481-490 | exactly the remote transactions below the new price leave, by way of the price list, each by removeTx |
| `TxPool.Pool.Evict` | core/tx_pool.go:328-342 | exactly the remote accounts without a heartbeat within the lifetime lose their queued transactions |
| `TxPool.Pool.Run` | core/tx_pool.go:278-356 | over every run of arrivals, price changes, head changes and evictions: partition, price list and heartbeats always, nothing executable ever waiting; each event has exactly the stated effect and keeps contiguity unless it reinjects, and with room for what it reinjects exactly if that does no harm |
| `ChainIndexer.RunGrows` | core/chain_indexer.go:393-408 | a header whose parent is the last one extends the run |
| `ChainIndexer.Indexer.constructor` | core/chain_indexer.go:100-121 | nothing known, stored, in hand or due |
| `ChainIndexer.Indexer.Revert` | core/chain_indexer.go:453-465 | the heads from a count on leave; the work in hand is cut exactly if its base is among them |
| `ChainIndexer.Indexer.NewHead` | core/chain_indexer.go:239-294 | a reorganisation drops exactly the sections it reaches and settles the changes above its head; otherwise known sections become all that are complete and confirmed; after a reorganisation as many sections are known and stored as were and are full below the common head |
| `ChainIndexer.Indexer.Rewrite` | core/chain_indexer.go:393-400 | the chain changes under the indexer, and a notice is due for every number whose header changed |
| `ChainIndexer.Indexer.Begin` | core/chain_indexer.go:313-336 | work starts with the first number of the next section on top of the stored head, or, after a failed reset, the unlocked drop of all sections begins |
| `ChainIndexer.Indexer.DropStep` | core/chain_indexer.go:453-465 | the unlocked drop goes through the steps of the race model, one at a time, and ends with nothing stored unless a notice overlaps it |
| `ChainIndexer.Indexer.ProcessHeader` | core/chain_indexer.go:393-408 | a header is taken exactly if it is known, canonical and the child of the last; otherwise the section fails |
| `ChainIndexer.Indexer.Complete` | core/chain_indexer.go:344-363 | the section is stored if and only if it was completed and its base was not removed meanwhile; otherwise known sections fall back to those stored, and nothing else changes |
| `ChainIndexer.Indexer.Run` | core/chain_indexer.go:300-377 | in every interleaving, up to the first reorganisation notice that overlaps an unlocked drop, each event has its stated effect, and throughout each stored head ends a full parent-linked run after the previous head and no head exists at or above the count |
| `ChainIndexer.NoRetry` | core/chain_indexer.go:357-362 | in every run, once a section was not stored, no section is taken up and no head added until a notification that is no reorganisation makes more sections known |
| `IndexerCanon.UnnoticedStep` | core/chain_indexer.go:239-262 | the section in hand goes out of date with no notice to come exactly by a reorganisation notice inside it for a header that was read and has changed |
| `IndexerCanon.AccountedStep` | core/chain_indexer.go:344-363 | every stored section is canonical or due to be dropped, and stays so, unless a section is stored that has gone out of date like that |
| `IndexerCanon.UnnoticedExactly` | core/chain_indexer.go:300-377 | over a run the section in hand is in that state if and only if there was such a notice and since then nothing was read and the header has neither come back nor changed again |
| `IndexerCanon.CanonicalExactly` | core/chain_indexer.go:300-377 | over every run each stored section is at all times canonical or due to be dropped if and only if no section is stored in that state |
| `IndexerCanon.NoneMissed` | core/chain_indexer.go:300-377 | in runs without such notices all stored sections are canonical whenever every change of the chain has been notified |
| `IndexerCanon.LowerCanonical` | core/chain_indexer.go:393-408 | if a stored section is canonical, so are all below it |
| `IndexerCanon.NoRecovery` | core/chain_indexer.go:393-408 | an indexer whose last stored section is not canonical stores nothing more until there is another reorganisation, a notice of one or a failed reset |
| `IndexerCanon.UnnoticedReorg` | core/chain_indexer.go:344-363 | a run from an empty indexer that ends with such a section, every change notified and no work in hand |
| `IndexerRace.OverlapHarmless` | core/chain_indexer.go:382-392 | every interleaving of an unlocked drop to one count and a notice for another, in steps of testing, counting, removing and storing with a 64-bit counter, ends with exactly the right heads if and only if the notice reaches no stored section, or there is one section and both go to zero |
| `IndexerRace.NoticeRaises` | core/chain_indexer.go:453-465 | a notice for the higher count can end last and claim heads that are gone |
| `IndexerRace.DropRaises` | core/chain_indexer.go:453-465 | so can the drop, if it goes to the higher count |
| `IndexerRace.StaleTest` | core/chain_indexer.go:459-463 | with one common count above zero a test that is out of date removes a head below it |
| `IndexerRace.SkippedHead` | core/chain_indexer.go:459-463 | with two sections or more both can count down before either removes, and a head is skipped |
| `IndexerRace.CounterNeverWraps` | core/chain_indexer.go:459-464 | in no interleaving does the 64-bit counter count down from zero if and only if the notice reaches no stored section, or the drop has nothing to do, or both leave a section; for a failed reset, which drops all, if and only if the notice reaches no stored section |
| `IndexerRace.WrapSchedule` | core/chain_indexer.go:459-464 | one section that both drop: a schedule that ends with a counter of 2^64 - 1 |
| `EventFeed.Find` | event/feed.go:213-220 | the first index of the channel, or -1 if there is none |
| `EventFeed.SwapOut` | event/feed.go:228-232 | deactivating permutes the list and takes one case out of the active prefix |
| `EventFeed.DeleteFrom` | event/feed.go:223-225 | deleting takes out one case and shortens the active prefix only if it was in it |
| `EventFeed.Feed.constructor` | event/feed.go:61-66 | only the remove channel |
| `EventFeed.Feed.Subscribe` | event/feed.go:73-94 | one more subscription |
| `EventFeed.Feed.Remove` | event/feed.go:104-125 | one subscription less, from the inbox or the list |
| `EventFeed.Feed.TryAll` | event/feed.go:159-165 | whoever is ready is served and leaves the active prefix |
| `EventFeed.Feed.RemoveActive` | event/feed.go:171-178 | a removal during a send is accounted for, whether or not its channel was served |
| `EventFeed.Feed.Select` | event/feed.go:169-182 | each wait serves one receiver or takes up the next of the removals that arrive, whatever happens in the inbox |
| `EventFeed.Feed.Send` | event/feed.go:129-190 | of the removals that arrive a first part is taken up; deliveries and those removed before delivery make up the subscribers at the start, the count is the number of deliveries, and the list ends as those subscribers without the removed; without removals everyone is served and stays |
| `EventFeed.ExactlyOnce` | event/feed.go:127-129 | for distinct subscriptions: at most once, and exactly once unless the removal was taken up |
| `GasState.CreditSupply` | core/state_transition.go:308-309 | a credit raises the supply by its amount |
| `GasState.IntrinsicGas` | core/state_transition.go:86-116 | the 64-bit computation gives the exact cost, or an error exactly when that does not fit |
| `StateTransition.GasPool.AddGas` | core/gaspool.go:29-35 | the pool grows; the panic condition is its precondition |
| `StateTransition.GasPool.SubGas` | core/gaspool.go:39-45 | refused exactly if there is too little |
| `StateTransition.Transition.PreCheck` | core/state_transition.go:160-190 | succeeds if and only if the nonce is right or not checked, the sender can pay for the gas and the pool has it, and then pool and sender are charged |
| `StateTransition.Transition.Settle` | core/state_transition.go:297-317 | the refund is given as far as it is at most half of the gas used, unused gas goes back to sender and pool, used gas to the author; the supply grows by exactly the fee bought and the pool cannot overflow |
| `StateTransition.Transition.Transact` | core/state_transition.go:197-294 | succeeds if and only if the message is in order and either skipped by an outsider or pays its intrinsic gas with its value covered; a public one pays exactly for what the machine used; the sender's nonce grows by one; supply falls by exactly what the machine burned and the fee an outsider withholds; private messages report no gas; it fails exactly if the machine does, also for a private message |
| `StateTransition.Transition.Execute` | core/state_transition.go:235-294 | refused exactly if the value is not covered; otherwise the bill follows from the machine's result, and a private message touches nothing public but the nonce |
| `StateProcessor.Processor.constructor` | core/state_processor.go:58-67 | the whole gas limit is available |
| `StateProcessor.Processor.Apply` | core/state_processor.go:100-145 | accepted if and only if the price is allowed, the message is in order and, unless an outsider skips it, pays its intrinsic gas with its value covered; pool remainder plus reported gas never exceeds the limit and is unchanged by public transactions; supply falls by exactly what is burned; receipts add up; private receipts show success and no gas |
| `StateProcessor.Processor.Process` | core/state_processor.go:56-95 | a block is accepted if and only if every transaction is acceptable in its turn, in the state and with the gas that those before it left; each step bills and counts as a single transaction does; a failing block stops at the first that is not acceptable; supply falls by exactly what the machines burn, and the pool by exactly the reported gas and what private transactions withhold; each private one has a receipt that tells whether this node's machine failed |
| `StateProcessor.StepsConserve` | core/state_processor.go:71-89 | after any number of transactions of a block supply and burned money add up, and so do pool, reported gas and withheld gas |
| `StateProcessor.NoncesCount` | core/state_processor.go:71-89 | along a block the nonce of an account that no machine tampers with grows by exactly its messages |
| `StateProcessor.NoncesConsecutive` | core/state_transition.go:175-185 | so two checked messages of one account have nonces apart by its messages from one to the other, by one if there is none between |
| `StateProcessor.NoReplay` | core/state_transition.go:175-185 | a checked message that was applied is not acceptable at any later moment of the block |
| `StateProcessor.PartyAndOutsider` | core/state_transition.go:207-225 | applied to one state, a private transaction in order gives the outsider one empty successful receipt and touches nothing but the nonce; the party has the same if and only if the message pays its intrinsic gas and its value is covered where its machine asks, and no receipt otherwise; the pools then agree if and only if the bill after the refund is all the gas bought |
| `StateProcessor.PartyAndEmptyHanded` | private/constellation/constellation.go:47-66 | an outsider that gets an empty payload accepts a call in order exactly if it pays its intrinsic gas, so whenever the party does, which then needs its value covered or an empty payload; what both accept is billed the intrinsic gas less the refund on both, and their pools agree |
| `StateProcessor.UncoveredValue` | core/state_transition.go:268-277 | a private call that pays its gas with a value its sender has in the public state only: the outsider accepts it and the party does not |
| `StateProcessor.SetReceiptsData` | core/blockchain.go:783-815 | each receipt's gas becomes the 64-bit difference of cumulative values, in place |
| `StateProcessor.GasRecovered` | core/blockchain.go:801-806 | on the receipts of a processed block these differences are the gas that was used |

## Left out

- Concurrency is modelled with sequentially consistent steps; weaker memory orders are not modelled.
- The tree pool, `ReadFrom`, `Draw` and the length prefix of the Merkle hasher, and writes beyond its capacity.
- LRU caches of the header chain and block chain, state tries and their garbage collection, fast-sync receipts,
  `Rollback`, `repair`.
- BlockStore.Blocks.Rewind: the fall back to genesis when the state of the new head is missing; block and header chain
  have one head.
- Header queries by number.
- TxPool.Pool.Reset: which transactions are reinjected comes in as arbitrary input; `ChainFork.ResetBranches` proves
  which blocks they come from. The converse of contiguity is claimed for pools with room: where transactions are
  evicted meanwhile, that can close a gap.
- TxPool.Pool.AddBatch: journalling and event notifications. That no two transactions have one hash is a precondition
  (`PoolAdd.Genuine`).
- The pool works on per-account lists as values; `AccountList` and `SortedMap` show that the in-place structures
  compute them.
- Nonces and prices as bounded integers in the pool, and the 64-bit conversion of the price bump.
- ChainIndexer.Indexer.NewHead: checkpoints and child indexers.
- EventFeed.Feed.Send: type checks, and that a blocked receiver becomes ready at last; slices sharing one backing
  array are modelled as a list and the length of its active prefix.
- The virtual machine, state database and consensus engines, of which only the stated contracts are used
  (`StateTransition.Guarantee`); block rewards, the DAO fork, logs and blooms.
