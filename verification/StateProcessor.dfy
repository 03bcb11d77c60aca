/** Applying a list of transactions to a block, and the receipts that result. */
module StateProcessor {
  import opened GasState
  import opened StateTransition

  type Word = w: nat | w <= MAX_UINT64

  datatype Receipt = Receipt(failed: bool, cumulative: Word, gasUsed: Word)

  /** A transaction, the private payload this node received for it, and how the machine will run it. */
  datatype Input = Input(msg: Message, received: Option<seq<Byte>>, vm: Vm)

  function CumulativeBefore(receipts: seq<Receipt>, j: nat): Word
    requires j <= |receipts|
  {
    if j == 0 then 0 else receipts[j - 1].cumulative
  }

  /** Every receipt adds its own gas to the total so far. */
  ghost predicate AddsUp(receipts: seq<Receipt>, j: nat)
    requires j < |receipts|
  {
    receipts[j].cumulative == CumulativeBefore(receipts, j) + receipts[j].gasUsed
  }

  ghost predicate Chained(receipts: seq<Receipt>) {
    forall j: nat :: j < |receipts| ==> AddsUp(receipts, j)
  }

  /** A public receipt reports at most the gas bought and at least half the intrinsic gas; a private one
      reports success and no gas. */
  ghost predicate Fits(receipt: Receipt, msg: Message, config: Config) {
    if Private(msg, config) then !receipt.failed && receipt.gasUsed == 0
    else receipt.gasUsed <= msg.gas && MessageCost(msg, config) <= 2 * receipt.gasUsed
  }

  lemma ChainedMore(receipts: seq<Receipt>, receipt: Receipt)
    requires Chained(receipts)
    requires receipt.cumulative == CumulativeBefore(receipts, |receipts|) + receipt.gasUsed
    ensures Chained(receipts + [receipt])
  {
    var more := receipts + [receipt];
    forall j: nat | j < |more|
      ensures AddsUp(more, j)
    {
      assert j < |receipts| ==> AddsUp(receipts, j);
    }
  }

  /** The end of a transaction clears the refund counter. */
  function Finalised(s: State): State {
    s.(refund := 0)
  }

  lemma FinaliseKeeps(s: State, start: State, ran: VmResult, r: Outcome, msg: Message, coinbase: Address)
    ensures Supply(Finalised(s)) == Supply(s) && Finalised(s).refund == 0
    ensures forall a :: Balance(Finalised(s), a) == Balance(s, a) && Nonce(Finalised(s), a) == Nonce(s, a)
    ensures Untouched(start, s, msg.sender) ==> Untouched(start, Finalised(s), msg.sender)
    ensures Bill(ran, s, r, msg, coinbase) ==> Bill(ran, Finalised(s), r, msg, coinbase)
  {
  }

  /** The machine destroys no money. */
  ghost predicate Frugal(vm: Vm) {
    forall s: State, g: nat :: vm.run(s, g).burned == 0
  }

  lemma NothingBurned(msg: Message, config: Config, vm: Vm, s: State)
    ensures Frugal(vm) ==> Burned(msg, config, vm, s) == 0
  {
  }

  /** Between two transactions of a block: the public state, the gas left in the pool and the gas used so far. */
  datatype Moment = Moment(state: State, left: nat, usedGas: nat)

  /** The next transaction is free if the chain demands it, has the right nonce, its gas can be bought, and it
      runs, if this node runs it at all. */
  ghost predicate Acceptable(config: Config, now: Moment, input: Input) {
    && (config.isQuorum ==> input.msg.gasPrice == 0) && Payable(now.state, now.left, input.msg)
    && ((Private(input.msg, config) && input.received.None?) ||
        Runs(input.msg, config, input.received, input.vm, now.state))
  }

  /** What an accepted transaction does, and its receipt. A public one is billed for what the machine left; a
      private one counts as one of its sender's and withholds gas from the block, with nothing else to show. */
  ghost predicate Applied(config: Config, coinbase: Address, now: Moment, next: Moment, input: Input,
                          receipt: Receipt) {
    && Acceptable(config, now, input)
    && next.usedGas == receipt.cumulative == now.usedGas + receipt.gasUsed && next.state.refund == 0
    && Supply(next.state) + Burned(input.msg, config, input.vm, now.state) == Supply(now.state)
    && Nonce(next.state, input.msg.sender) == Nonce(now.state, input.msg.sender) + 1
    && if Private(input.msg, config) then
         && next.left + Withheld(input.msg, config, input.received, now.state) == now.left
         && receipt.gasUsed == 0 && !receipt.failed && Untouched(now.state, next.state, input.msg.sender)
       else
         && next.left + receipt.gasUsed == now.left
         && Bill(Ran(config, now.state, input), next.state, Done(receipt.gasUsed, receipt.failed), input.msg, coinbase)
  }

  /** A private transaction has a receipt of its own, which tells whether this node's machine failed on it. */
  ghost function PrivateReceipt(config: Config, now: Moment, next: Moment, input: Input): seq<Receipt>
    requires next.usedGas <= MAX_UINT64
  {
    if Private(input.msg, config)
    then [Receipt(PrivateFails(input.msg, config, input.received, input.vm, now.state), next.usedGas, 0)]
    else []
  }

  /** What the machine leaves of a public transaction. */
  ghost function Ran(config: Config, s: State, input: Input): VmResult
    requires Fee(input.msg.gas, input.msg.gasPrice) <= Balance(s, input.msg.sender)
    requires MessageCost(input.msg, config) <= input.msg.gas
  {
    input.vm.run(Prepaid(s, input.msg), input.msg.gas - MessageCost(input.msg, config))
  }

  lemma PaidFor(config: Config, now: Moment, input: Input)
    requires Acceptable(config, now, input) && !Private(input.msg, config)
    ensures Fee(input.msg.gas, input.msg.gasPrice) <= Balance(now.state, input.msg.sender)
    ensures MessageCost(input.msg, config) <= input.msg.gas
  {
  }

  /** The transactions behind the receipts were applied one after the other, through the moments of the trace. */
  ghost predicate Steps(config: Config, coinbase: Address, trace: seq<Moment>, inputs: seq<Input>,
                        receipts: seq<Receipt>) {
    && |trace| == |receipts| + 1 <= |inputs| + 1
    && forall i: nat :: i < |receipts| ==>
         Applied(config, coinbase, trace[i], trace[i + 1], inputs[i], receipts[i]) &&
         Fits(receipts[i], inputs[i].msg, config)
  }

  lemma NoSteps(config: Config, coinbase: Address, now: Moment, inputs: seq<Input>)
    ensures Steps(config, coinbase, [now], inputs, [])
  {
  }

  lemma StepsMore(config: Config, coinbase: Address, trace: seq<Moment>, inputs: seq<Input>, receipts: seq<Receipt>,
                  next: Moment, receipt: Receipt)
    requires Steps(config, coinbase, trace, inputs, receipts) && |receipts| < |inputs|
    requires Applied(config, coinbase, trace[|receipts|], next, inputs[|receipts|], receipt)
    requires Fits(receipt, inputs[|receipts|].msg, config)
    ensures Steps(config, coinbase, trace + [next], inputs, receipts + [receipt])
  {
    hide Applied, Fits;
  }

  /** The money destroyed by the first `k` transactions. */
  ghost function TotalBurned(config: Config, trace: seq<Moment>, inputs: seq<Input>, k: nat): nat
    requires k <= |trace| && k <= |inputs|
  {
    if k == 0 then 0
    else TotalBurned(config, trace, inputs, k - 1) +
         Burned(inputs[k - 1].msg, config, inputs[k - 1].vm, trace[k - 1].state)
  }

  /** The gas that the private ones among them took from the block. */
  ghost function TotalWithheld(config: Config, trace: seq<Moment>, inputs: seq<Input>, k: nat): nat
    requires k <= |trace| && k <= |inputs|
  {
    if k == 0 then 0
    else
      var input, now := inputs[k - 1], trace[k - 1].state;
      TotalWithheld(config, trace, inputs, k - 1) +
      if Private(input.msg, config) then Withheld(input.msg, config, input.received, now) else 0
  }

  /** Over a block money is only lost where the machine burns it, and gas only where a private transaction
      withholds it. */
  lemma {:induction false} StepsConserve(config: Config, coinbase: Address, trace: seq<Moment>, inputs: seq<Input>,
                                         receipts: seq<Receipt>, k: nat)
    requires Steps(config, coinbase, trace, inputs, receipts) && k < |trace|
    ensures Supply(trace[k].state) + TotalBurned(config, trace, inputs, k) == Supply(trace[0].state)
    ensures trace[k].left + trace[k].usedGas + TotalWithheld(config, trace, inputs, k) ==
      trace[0].left + trace[0].usedGas
    ensures (forall i :: 0 <= i < |inputs| ==> Frugal(inputs[i].vm)) ==> TotalBurned(config, trace, inputs, k) == 0
    ensures (forall i :: 0 <= i < |inputs| ==> !Private(inputs[i].msg, config)) ==>
      TotalWithheld(config, trace, inputs, k) == 0
  {
    hide Supply, Bill, Acceptable, Untouched, Withheld, Burned;
    if k > 0 {
      StepsConserve(config, coinbase, trace, inputs, receipts, k - 1);
      assert Applied(config, coinbase, trace[k - 1], trace[k], inputs[k - 1], receipts[k - 1]);
      NothingBurned(inputs[k - 1].msg, config, inputs[k - 1].vm, trace[k - 1].state);
    }
  }

  ghost predicate Bounded(trace: seq<Moment>) {
    forall i: nat :: i < |trace| ==> trace[i].usedGas <= MAX_UINT64
  }

  /** The receipts of the private transactions among the first `k`. */
  ghost function PrivateOf(config: Config, trace: seq<Moment>, inputs: seq<Input>, k: nat): seq<Receipt>
    requires k < |trace| && k <= |inputs| && Bounded(trace)
  {
    if k == 0 then []
    else PrivateOf(config, trace, inputs, k - 1) + PrivateReceipt(config, trace[k - 1], trace[k], inputs[k - 1])
  }

  lemma PrivateMore(config: Config, trace: seq<Moment>, inputs: seq<Input>, k: nat, next: Moment)
    requires |trace| == k + 1 <= |inputs| && Bounded(trace) && next.usedGas <= MAX_UINT64
    ensures Bounded(trace + [next])
    ensures PrivateOf(config, trace + [next], inputs, k + 1) ==
      PrivateOf(config, trace, inputs, k) + PrivateReceipt(config, trace[k], next, inputs[k])
  {
    hide PrivateReceipt;
    PrivateSame(config, trace, trace + [next], inputs, k);
  }

  lemma {:induction false} PrivateSame(config: Config, trace: seq<Moment>, trace': seq<Moment>, inputs: seq<Input>,
                                       k: nat)
    requires k < |trace| && k <= |inputs| && trace <= trace' && Bounded(trace) && Bounded(trace')
    ensures PrivateOf(config, trace', inputs, k) == PrivateOf(config, trace, inputs, k)
  {
    hide PrivateReceipt;
    if k > 0 {
      PrivateSame(config, trace, trace', inputs, k - 1);
    }
  }

  /** The machine does not change this account's nonce. */
  ghost predicate Leaves(vm: Vm, a: Address) {
    forall s: State, g: nat :: Nonce(vm.run(s, g).state, a) == Nonce(s, a)
  }

  /** It only changes by messages of that account. */
  ghost predicate Untampered(config: Config, inputs: seq<Input>, a: Address, i: nat, j: nat)
    requires j <= |inputs|
  {
    forall k: nat :: i <= k < j ==>
      inputs[k].msg.sender == a || Private(inputs[k].msg, config) || Leaves(inputs[k].vm, a)
  }

  lemma AppliedNonce(config: Config, coinbase: Address, now: Moment, next: Moment, input: Input, receipt: Receipt,
                     a: Address)
    requires Applied(config, coinbase, now, next, input, receipt)
    requires input.msg.sender == a || Private(input.msg, config) || Leaves(input.vm, a)
    ensures Nonce(next.state, a) == Nonce(now.state, a) + if input.msg.sender == a then 1 else 0
  {
    hide Supply, MessageCost, Burned, Paid;
    if !Private(input.msg, config) && input.msg.sender != a {
      PaidFor(config, now, input);
      var s := Prepaid(now.state, input.msg);
      assert Nonce(s, a) == Nonce(now.state, a);
      assert Nonce(Ran(config, now.state, input).state, a) == Nonce(s, a);
    }
  }

  /** The messages of an account among those from `i` up to `j`. */
  function Sent(inputs: seq<Input>, a: Address, i: nat, j: nat): nat
    requires i <= j <= |inputs|
    decreases j
  {
    if i == j then 0 else Sent(inputs, a, i, j - 1) + if inputs[j - 1].msg.sender == a then 1 else 0
  }

  lemma {:induction false} NoncesCount(config: Config, coinbase: Address, trace: seq<Moment>, inputs: seq<Input>,
                                       receipts: seq<Receipt>, a: Address, i: nat, j: nat)
    requires Steps(config, coinbase, trace, inputs, receipts) && i <= j <= |receipts|
    requires Untampered(config, inputs, a, i, j)
    ensures Nonce(trace[j].state, a) == Nonce(trace[i].state, a) + Sent(inputs, a, i, j)
    decreases j
  {
    hide Applied, Fits, Leaves;
    if i < j {
      NoncesCount(config, coinbase, trace, inputs, receipts, a, i, j - 1);
      AppliedNonce(config, coinbase, trace[j - 1], trace[j], inputs[j - 1], receipts[j - 1], a);
    }
  }

  lemma {:induction false} SentNone(inputs: seq<Input>, a: Address, i: nat, j: nat)
    requires i < j <= |inputs| && inputs[i].msg.sender == a
    ensures 1 <= Sent(inputs, a, i, j)
    ensures (forall k: nat :: i < k < j ==> inputs[k].msg.sender != a) ==> Sent(inputs, a, i, j) == 1
    decreases j
  {
    if i + 1 < j {
      SentNone(inputs, a, i, j - 1);
    }
  }

  lemma CheckedNonce(config: Config, coinbase: Address, trace: seq<Moment>, inputs: seq<Input>,
                     receipts: seq<Receipt>, i: nat)
    requires Steps(config, coinbase, trace, inputs, receipts) && i < |receipts| && inputs[i].msg.checkNonce
    ensures Nonce(trace[i].state, inputs[i].msg.sender) == inputs[i].msg.nonce
  {
    assert Applied(config, coinbase, trace[i], trace[i + 1], inputs[i], receipts[i]);
  }

  /** In a block the checked messages of an account have consecutive nonces: from one to another they grow by the
      messages of the account from the first up to the other. */
  lemma NoncesConsecutive(config: Config, coinbase: Address, trace: seq<Moment>, inputs: seq<Input>,
                          receipts: seq<Receipt>, i: nat, j: nat)
    requires Steps(config, coinbase, trace, inputs, receipts) && i < j < |receipts|
    requires inputs[i].msg.checkNonce && inputs[j].msg.checkNonce && inputs[i].msg.sender == inputs[j].msg.sender
    requires Untampered(config, inputs, inputs[i].msg.sender, i, j)
    ensures inputs[j].msg.nonce == inputs[i].msg.nonce + Sent(inputs, inputs[i].msg.sender, i, j)
    ensures (forall k: nat :: i < k < j ==> inputs[k].msg.sender != inputs[i].msg.sender) ==>
      inputs[j].msg.nonce == inputs[i].msg.nonce + 1
  {
    hide Applied, Fits;
    CheckedNonce(config, coinbase, trace, inputs, receipts, i);
    CheckedNonce(config, coinbase, trace, inputs, receipts, j);
    NoncesCount(config, coinbase, trace, inputs, receipts, inputs[i].msg.sender, i, j);
    SentNone(inputs, inputs[i].msg.sender, i, j);
  }

  /** A checked message that was applied is not acceptable again, at the next moment or at any later one. */
  lemma NoReplay(config: Config, coinbase: Address, trace: seq<Moment>, inputs: seq<Input>, receipts: seq<Receipt>,
                 i: nat, j: nat, again: Input)
    requires Steps(config, coinbase, trace, inputs, receipts) && i < j <= |receipts|
    requires inputs[i].msg.checkNonce && again.msg == inputs[i].msg
    requires Untampered(config, inputs, inputs[i].msg.sender, i + 1, j)
    ensures !Acceptable(config, trace[j], again)
  {
    hide Applied, Fits;
    CheckedNonce(config, coinbase, trace, inputs, receipts, i);
    NoncesCount(config, coinbase, trace, inputs, receipts, inputs[i].msg.sender, i, j);
    SentNone(inputs, inputs[i].msg.sender, i, j);
  }

  class Processor {
    const config: Config
    const coinbase: Address
    const gasLimit: nat
    const gp: GasPool
    var state: State
    var usedGas: nat
    var receipts: seq<Receipt>
    var privateReceipts: seq<Receipt>

    ghost predicate Valid()
      reads this, gp
    {
      && gp.Valid() && gp.left + usedGas <= gasLimit <= MAX_UINT64
      && Chained(receipts) && usedGas == CumulativeBefore(receipts, |receipts|)
    }

    ghost function Now(): Moment
      reads this, gp
    {
      Moment(state, gp.left, usedGas)
    }

    constructor (config: Config, coinbase: Address, gasLimit: nat, state: State)
      requires gasLimit <= MAX_UINT64
      ensures Valid() && gp.left == gasLimit == this.gasLimit && usedGas == 0 && receipts == [] && this.state == state
      ensures privateReceipts == []
      ensures fresh(gp)
      ensures this.config == config && this.coinbase == coinbase
    {
      this.config, this.coinbase, this.gasLimit, this.state := config, coinbase, gasLimit, state;
      usedGas, receipts, privateReceipts := 0, [], [];
      gp := new GasPool(gasLimit);
    }

    /** ApplyTransaction. */
    method Apply(input: Input) returns (ok: bool)
      requires Valid() && Guarantee(input.vm, input.msg, config)
      modifies this, gp
      ensures ok <==> Acceptable(config, old(Now()), input)
      ensures ok ==> Valid() && |receipts| == old(|receipts|) + 1 && receipts[..old(|receipts|)] == old(receipts)
      ensures ok ==> Applied(config, coinbase, old(Now()), Now(), input, receipts[old(|receipts|)])
      ensures ok ==> Fits(receipts[old(|receipts|)], input.msg, config)
      ensures ok && config.isQuorum ==> input.msg.gasPrice == 0
      ensures ok && input.msg.checkNonce ==> Nonce(old(state), input.msg.sender) == input.msg.nonce
      ensures privateReceipts == old(privateReceipts) +
        if ok then PrivateReceipt(config, old(Now()), Now(), input) else []
      ensures !ok ==> receipts == old(receipts) && usedGas == old(usedGas)
    {
      hide Supply, Guarantee, MessageCost, Chained, Runs, Burned, Bill, Untouched, Fee;
      NoFee(input.msg.gas);
      if config.isQuorum && input.msg.gasPrice > 0 {
        return false;
      }
      var transition := new Transition(gp, input.msg, config, coinbase, state);
      var r := transition.Transact(input.received, input.vm);
      state := transition.state;
      if r.Fault? {
        return false;
      }
      if !Private(input.msg, config) {
        PaidFor(config, old(Now()), input);
        FinaliseKeeps(state, old(state), Ran(config, old(state), input), r, input.msg, coinbase);
      } else {
        FinaliseKeeps(state, old(state), VmResult(state, 0, Fine, 0), r, input.msg, coinbase);
      }
      state := Finalised(state);
      usedGas := usedGas + r.used;
      var receipt := Receipt(!Private(input.msg, config) && r.failed, usedGas, r.used);
      ChainedMore(receipts, receipt);
      receipts := receipts + [receipt];
      if Private(input.msg, config) {
        privateReceipts := privateReceipts + [Receipt(r.failed, usedGas, r.used)];
      }
      ok := true;
    }

    /** Process: a block is accepted exactly if every transaction is acceptable in its turn. `trace` has the
        moments before, between and after the transactions that were applied. */
    method Process(inputs: seq<Input>) returns (ok: bool, ghost trace: seq<Moment>)
      requires Valid() && forall i :: 0 <= i < |inputs| ==> Guarantee(inputs[i].vm, inputs[i].msg, config)
      modifies this, gp
      ensures old(|receipts|) <= |receipts| && receipts[..old(|receipts|)] == old(receipts)
      ensures Steps(config, coinbase, trace, inputs, receipts[old(|receipts|)..]) && trace[0] == old(Now())
      ensures ok <==> |trace| == |inputs| + 1
      ensures !ok ==> !Acceptable(config, trace[|trace| - 1], inputs[|trace| - 1])
      ensures ok ==> Valid() && trace[|inputs|] == Now()
      ensures Bounded(trace) && privateReceipts == old(privateReceipts) + PrivateOf(config, trace, inputs, |trace| - 1)
      ensures ok ==> Supply(state) + TotalBurned(config, trace, inputs, |inputs|) == Supply(old(state))
      ensures ok && (forall i :: 0 <= i < |inputs| ==> Frugal(inputs[i].vm)) ==> Supply(state) == Supply(old(state))
      ensures ok ==> gp.left + usedGas + TotalWithheld(config, trace, inputs, |inputs|) == old(gp.left + usedGas)
      ensures ok && (forall i :: 0 <= i < |inputs| ==> !Private(inputs[i].msg, config)) ==>
        gp.left + usedGas == old(gp.left + usedGas)
    {
      hide Guarantee, Chained, Fits, Applied, Acceptable, Steps, Supply, TotalBurned, TotalWithheld;
      trace := [Now()];
      ghost var first := |receipts|;
      NoSteps(config, coinbase, Now(), inputs);
      assert receipts[first..] == [];
      for i := 0 to |inputs|
        invariant Valid() && |trace| == i + 1 && trace[0] == old(Now()) && trace[i] == Now()
        invariant |receipts| == first + i && receipts[..first] == old(receipts)
        invariant Steps(config, coinbase, trace, inputs, receipts[first..])
        invariant Bounded(trace) && privateReceipts == old(privateReceipts) + PrivateOf(config, trace, inputs, i)
      {
        ghost var before := receipts;
        ok := Apply(inputs[i]);
        if !ok {
          return;
        }
        StepsMore(config, coinbase, trace, inputs, before[first..], Now(), receipts[|before|]);
        assert receipts == before + [receipts[|before|]];
        assert receipts[first..] == before[first..] + [receipts[|before|]];
        PrivateMore(config, trace, inputs, i, Now());
        trace := trace + [Now()];
      }
      ok := true;
      StepsConserve(config, coinbase, trace, inputs, receipts[first..], |inputs|);
    }
  }

  /** The same private transaction on two nodes with equal public states, one a party to it and one not. If
      it is in order, pays for its intrinsic gas and its value is covered where the party's machine asks, both
      accept it and all that changes on either is the sender's nonce; otherwise only the outsider accepts one
      that is in order. Their gas pools agree if and only if the party is billed for all the gas bought. */
  method PartyAndOutsider(config: Config, coinbase: Address, gasLimit: nat, state: State, msg: Message,
                          payload: seq<Byte>, vm: Vm)
    returns (party: Processor, outsider: Processor)
    requires gasLimit <= MAX_UINT64 && Guarantee(vm, msg, config) && Private(msg, config)
    ensures var inOrder := msg.gasPrice == 0 && Payable(state, gasLimit, msg);
      var runs := inOrder && Runs(msg, config, Some(payload), vm, state);
      && Accepted(outsider, inOrder, state, msg.sender) && Accepted(party, runs, state, msg.sender)
      && (inOrder ==> outsider.gp.left + msg.gas == gasLimit)
      && (runs ==>
            && party.gp.left + Billed(MessageCost(msg, config), state.refund) == gasLimit
            && (party.gp.left == outsider.gp.left <==> Billed(MessageCost(msg, config), state.refund) == msg.gas))
  {
    hide Guarantee, MessageCost, Runs;
    party := new Processor(config, coinbase, gasLimit, state);
    outsider := new Processor(config, coinbase, gasLimit, state);
    var first := party.Apply(Input(msg, Some(payload), vm));
    var second := outsider.Apply(Input(msg, None, vm));
    assert first ==> party.receipts == party.receipts[..0] + [party.receipts[0]];
    assert second ==> outsider.receipts == outsider.receipts[..0] + [outsider.receipts[0]];
  }

  /** An outsider that does not learn that it is one: Constellation swallows the error and hands out an empty
      payload. It skips a call that pays its intrinsic gas, and accepts whatever call the party accepts. What
      both accept is billed the intrinsic gas on both, and their gas pools agree. */
  method PartyAndEmptyHanded(config: Config, coinbase: Address, gasLimit: nat, state: State, msg: Message,
                             payload: seq<Byte>, vm: Vm, elsewhere: Vm)
    returns (party: Processor, outsider: Processor)
    requires gasLimit <= MAX_UINT64 && Private(msg, config)
    requires Guarantee(vm, msg, config) && Guarantee(elsewhere, msg, config)
    ensures var inOrder, cost := msg.gasPrice == 0 && Payable(state, gasLimit, msg), MessageCost(msg, config);
      var runs := inOrder && Runs(msg, config, Some(payload), vm, state);
      var skips := inOrder && cost <= msg.gas && (msg.to != None || Covered(msg, elsewhere, state));
      && Accepted(party, runs, state, msg.sender) && Accepted(outsider, skips, state, msg.sender)
      && (msg.to != None && runs ==> skips)
      && (msg.to != None && skips ==> (runs <==> payload == [] || Covered(msg, vm, state)))
      && (runs && skips ==> party.gp.left == outsider.gp.left == gasLimit - Billed(cost, state.refund))
  {
    hide Guarantee, MessageCost, Covered;
    party := new Processor(config, coinbase, gasLimit, state);
    outsider := new Processor(config, coinbase, gasLimit, state);
    var first := party.Apply(Input(msg, Some(payload), vm));
    var second := outsider.Apply(Input(msg, Some([]), elsewhere));
    assert first ==> party.receipts == party.receipts[..0] + [party.receipts[0]];
    assert second ==> outsider.receipts == outsider.receipts[..0] + [outsider.receipts[0]];
  }

  /** A private call that pays its gas, with a value that its sender does not have in the private state. */
  const UNCOVERED: Message := Message(1, Some(2), 0, true, 50000, 0, 1, [1], true)

  const POOR: Vm := Vm((s: State, g: nat) => VmResult(s, g, InsufficientBalance, 0), InPrivate(0))

  /** The outsider accepts it, and the party does not. */
  method UncoveredValue() returns (party: Processor, outsider: Processor)
    ensures var config, start := Config(true, true), State(map[1 := 10], map[], 0);
      && MessageCost(UNCOVERED, config) <= UNCOVERED.gas && UNCOVERED.value <= Balance(start, UNCOVERED.sender)
      && party.receipts == [] && outsider.receipts == [Receipt(false, 0, 0)]
  {
    var config, start := Config(true, true), State(map[1 := 10], map[], 0);
    assert NonZeroBytes([1]) == 1 by {
      assert [1][..0] == [];
    }
    party, outsider := PartyAndOutsider(config, 0, 100000, start, UNCOVERED, [1], POOR);
  }

  /** One private transaction on a fresh block: taken with an empty success receipt, or not at all. */
  ghost predicate Accepted(p: Processor, taken: bool, start: State, sender: Address)
    reads p
  {
    if taken then p.receipts == [Receipt(false, 0, 0)] && p.usedGas == 0 && Untouched(start, p.state, sender)
    else p.receipts == [] && p.usedGas == 0
  }

  /** One step of SetReceiptsData, in 64-bit arithmetic. */
  function GasOf(cumulative: Word, before: Word): Word {
    (cumulative - before) % (MAX_UINT64 + 1)
  }

  ghost function WithGas(receipts: seq<Receipt>, j: nat): Receipt
    requires j < |receipts|
  {
    receipts[j].(gasUsed := GasOf(receipts[j].cumulative, CumulativeBefore(receipts, j)))
  }

  /** SetReceiptsData, as far as the gas is concerned: it fills in the gas of every receipt in place. */
  method SetReceiptsData(transactions: nat, receipts: array<Receipt>) returns (ok: bool)
    modifies receipts
    ensures ok <==> transactions == receipts.Length
    ensures !ok ==> receipts[..] == old(receipts[..])
    ensures ok ==> forall j :: 0 <= j < receipts.Length ==> receipts[j] == WithGas(old(receipts[..]), j)
  {
    if transactions != receipts.Length {
      return false;
    }
    ghost var start := receipts[..];
    for j := 0 to receipts.Length
      invariant forall k :: 0 <= k < receipts.Length ==> receipts[k].cumulative == start[k].cumulative
      invariant forall k :: j <= k < receipts.Length ==> receipts[k] == start[k]
      invariant forall k :: 0 <= k < j ==> receipts[k] == WithGas(start, k)
    {
      var gas := receipts[j].cumulative;
      if j > 0 {
        gas := GasOf(receipts[j].cumulative, receipts[j - 1].cumulative);
      }
      receipts[j] := receipts[j].(gasUsed := gas);
    }
    ok := true;
  }

  /** On the receipts of a processed block it changes nothing: the gas is recovered from the totals. */
  lemma GasRecovered(receipts: seq<Receipt>, j: nat)
    requires Chained(receipts) && j < |receipts|
    ensures WithGas(receipts, j) == receipts[j]
  {
    assert AddsUp(receipts, j);
  }
}
