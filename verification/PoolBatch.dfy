/** What a batch of offers does to the pool. */
module PoolBatch {
  import opened TxList
  import opened PoolState
  import opened PoolSpec
  import opened PoolAdd
  import opened PoolPromote
  import opened PoolSizes

  /** What an offer does to a pool with room, and what a batch of them does. */
  ghost function Offered(b: Books, o: Offer, chain: Chain, config: Config, gasPrice: nat): Books {
    if Refused(b, o, chain, config, gasPrice) then b else Seat(b, o, config)
  }

  ghost function OfferedAll(b: Books, batch: seq<Offer>, chain: Chain, config: Config, gasPrice: nat): Books {
    if batch == [] then b
    else
      var init, o := batch[..|batch| - 1], batch[|batch| - 1];
      Offered(OfferedAll(b, init, chain, config, gasPrice), o, chain, config, gasPrice)
  }

  /** The offer is taken, and not in the place of another. */
  ghost predicate Fresh(b: Books, o: Offer, chain: Chain, config: Config, gasPrice: nat) {
    !Refused(b, o, chain, config, gasPrice) && forall h :: h in b.all ==> !SamePlace(b.all[h], o.tx)
  }

  /** The accounts that such offers come from. */
  ghost function Dirtied(b: Books, batch: seq<Offer>, chain: Chain, config: Config, gasPrice: nat): set<Address> {
    if batch == [] then {}
    else
      var init, o := batch[..|batch| - 1], batch[|batch| - 1];
      Dirtied(b, init, chain, config, gasPrice) +
      if Fresh(OfferedAll(b, init, chain, config, gasPrice), o, chain, config, gasPrice) then {o.tx.sender} else {}
  }

  ghost function NewSenders(batch: seq<Offer>, results: seq<Outcome>): set<Address>
    requires |results| == |batch|
  {
    set i | 0 <= i < |batch| && results[i] == Accepted(false) :: batch[i].tx.sender
  }

  lemma NewSendersMore(batch: seq<Offer>, results: seq<Outcome>, o: Offer, r: Outcome)
    requires |results| == |batch|
    ensures NewSenders(batch + [o], results + [r]) ==
      NewSenders(batch, results) + if r == Accepted(false) then {o.tx.sender} else {}
  {
    var batch', results' := batch + [o], results + [r];
    assert batch'[|batch|] == o && results'[|batch|] == r;
    forall i | 0 <= i < |batch|
      ensures batch'[i] == batch[i] && results'[i] == results[i]
    {
    }
  }

  lemma RoomyStep(before: Books, after: Books, o: Offer, r: Outcome, chain: Chain, config: Config, gasPrice: nat)
    requires AddStep(before, after, o, r, chain, config, gasPrice) && !Full(before.all, config)
    ensures after == Offered(before, o, chain, config, gasPrice) && |after.all| <= |before.all| + 1
    ensures r == Accepted(false) <==> Fresh(before, o, chain, config, gasPrice)
  {
    hide Acceptable;
    if !Refused(before, o, chain, config, gasPrice) {
      var drop: seq<Tx>, room: Books :| MakesRoom(before.all, before.locals, drop, config) && room == before &&
        after == Seat(room, o, config) && Seated(room.all, after.all, o.tx, r, config);
      SeatedSize(room.all, after.all, o.tx, r, config);
    }
  }

  lemma SeatedSize(room: Lookup, after: Lookup, tx: Tx, r: Outcome, config: Config)
    requires Seated(room, after, tx, r, config)
    ensures |after| <= |room| + 1
  {
    if !Blocked(room, tx, config) {
      TxList.Subset(after.Keys - {tx.hash}, room.Keys);
      assert |after.Keys| <= |after.Keys - {tx.hash}| + 1;
    }
  }

  /** In a pool with room for all the effect of a batch is that of its offers one after another. */
  lemma {:induction false} RoomyTrace(trace: seq<Books>, batch: seq<Offer>, results: seq<Outcome>, chain: Chain,
                                      config: Config, gasPrice: nat)
    requires AddSteps(trace, batch, results, chain, config, gasPrice)
    requires |trace[0].all| + |batch| <= config.globalSlots + config.globalQueue
    ensures trace[|batch|] == OfferedAll(trace[0], batch, chain, config, gasPrice)
    ensures |trace[|batch|].all| <= |trace[0].all| + |batch|
    ensures NewSenders(batch, results) == Dirtied(trace[0], batch, chain, config, gasPrice)
  {
    hide AddStep, Offered, Fresh;
    if batch != [] {
      var k := |batch| - 1;
      assert AddSteps(trace[..k + 1], batch[..k], results[..k], chain, config, gasPrice);
      RoomyTrace(trace[..k + 1], batch[..k], results[..k], chain, config, gasPrice);
      RoomyStep(trace[k], trace[k + 1], batch[k], results[k], chain, config, gasPrice);
      NewSendersMore(batch[..k], results[..k], batch[k], results[k]);
      assert batch == batch[..k] + [batch[k]] && results == results[..k] + [results[k]];
    }
  }

  /** How a batch was added. */
  datatype BatchLog = BatchLog(trace: seq<Books>, dirty: set<Address>, cull: Cull)

  /** addTxsLocked: the offers one after another, and then the promotion of the accounts that have new ones. */
  ghost predicate BatchDone(before: Books, after: Books, batch: seq<Offer>, results: seq<Outcome>, chain: Chain,
                            config: Config, gasPrice: nat, log: BatchLog) {
    && AddSteps(log.trace, batch, results, chain, config, gasPrice) && log.trace[0] == before
    && log.dirty == NewSenders(batch, results)
    && var added := log.trace[|batch|];
      if log.dirty == {} then after == added else Reprocessed(added, after, chain, config, log.dirty, log.cull)
  }

  lemma BatchEnds(before: Books, after: Books, batch: seq<Offer>, results: seq<Outcome>, chain: Chain, config: Config,
                  gasPrice: nat, log: BatchLog)
    requires AddSteps(log.trace, batch, results, chain, config, gasPrice) && log.trace[0] == before
    requires log.dirty == NewSenders(batch, results)
    requires var added := log.trace[|batch|];
      if log.dirty == {} then after == added else Reprocessed(added, after, chain, config, log.dirty, log.cull)
    ensures BatchDone(before, after, batch, results, chain, config, gasPrice, log)
  {
  }

  lemma BatchFewer(before: Books, after: Books, batch: seq<Offer>, results: seq<Outcome>, chain: Chain,
                   config: Config, gasPrice: nat, log: BatchLog)
    requires BatchDone(before, after, batch, results, chain, config, gasPrice, log)
    ensures |after.all| <= |log.trace[|batch|].all|
  {
    hide AddStep, Culled, Excused, NewSenders;
    FewerHashes(log.trace[|batch|].all, after.all);
  }

  lemma NoSenders()
    ensures NewSenders([], []) == {}
  {
  }
}
