/** Buying gas, running a message and settling the bill, with Quorum's private messages. */
module StateTransition {
  import opened GasState

  datatype Message = Message(sender: Address, to: Option<Address>, nonce: nat, checkNonce: bool, gas: nat,
                             gasPrice: nat, value: nat, data: seq<Byte>, isPrivate: bool)

  datatype VmError = Fine | InsufficientBalance | OtherError

  /** What the machine leaves: the public state, the gas not used, and money that is gone for good. */
  datatype VmResult = VmResult(state: State, leftover: nat, error: VmError, burned: nat)

  /** The state that the machine asks for the sender's money: the public one, or the private one, which for the
      sender has the given balance. */
  datatype Funds = InPublic | InPrivate(balance: nat)

  /** The virtual machine on one message: from a public state and supplied gas to what comes out. */
  datatype Vm = Vm(run: (State, nat) -> VmResult, asks: Funds)

  datatype Config = Config(isQuorum: bool, homestead: bool)

  predicate Private(msg: Message, config: Config) {
    config.isQuorum && msg.isPrivate
  }

  function Held(vm: Vm, s: State, a: Address): nat {
    match vm.asks
    case InPublic => Balance(s, a)
    case InPrivate(balance) => balance
  }

  /** What the virtual machine guarantees. It refuses a message exactly if its value is not covered, and then
      changes nothing. It gives back no more gas than it got and creates no money, and a creation counts as one
      of the sender's transactions. Private code cannot touch the public state. */
  ghost predicate Guarantee(vm: Vm, msg: Message, config: Config) {
    && (!Private(msg, config) ==> vm.asks.InPublic?)
    && forall s: State, g: nat :: GuaranteeAt(vm, msg, config, s, g)
  }

  ghost predicate GuaranteeAt(vm: Vm, msg: Message, config: Config, s: State, g: nat) {
    var r := vm.run(s, g);
    && r.leftover <= g && Supply(r.state) + r.burned == Supply(s)
    && (r.error == InsufficientBalance <==> Held(vm, s, msg.sender) < msg.value)
    && (if r.error == InsufficientBalance then r.state == s
        else Nonce(r.state, msg.sender) == Nonce(s, msg.sender) + (if msg.to == None then 1 else 0))
    && (Private(msg, config) ==>
          && r.state.balances == s.balances && r.state.refund == s.refund
          && forall a :: a != msg.sender ==> Nonce(r.state, a) == Nonce(s, a))
  }

  lemma GuaranteedAt(vm: Vm, msg: Message, config: Config, s: State, g: nat)
    requires Guarantee(vm, msg, config)
    ensures GuaranteeAt(vm, msg, config, s, g) && (!Private(msg, config) ==> vm.asks.InPublic?)
  {
  }

  datatype Outcome = Fault | Done(used: nat, failed: bool)

  class GasPool {
    var left: nat

    ghost predicate Valid()
      reads this
    {
      left <= MAX_UINT64
    }

    constructor (amount: nat)
      requires amount <= MAX_UINT64
      ensures Valid() && left == amount
    {
      left := amount;
    }

    /** It panics above the 64-bit range. */
    method AddGas(amount: nat)
      requires Valid() && amount <= MAX_UINT64 - left
      modifies this
      ensures Valid() && left == old(left) + amount
    {
      left := left + amount;
    }

    method SubGas(amount: nat) returns (ok: bool)
      requires Valid()
      modifies this
      ensures Valid() && (ok <==> amount <= old(left)) && left == old(left) - (if ok then amount else 0)
    {
      ok := amount <= left;
      if ok {
        left := left - amount;
      }
    }
  }

  /** The gas that stays bought: what was used, less as much of the refund as is at most half of it. */
  function Billed(used: nat, refund: nat): (r: nat)
    ensures used - used / 2 <= r <= used <= r + refund
    ensures r + refund == used || used < 2 * (used - r + 1)
  {
    used - if used / 2 > refund then refund else used / 2
  }

  function Fee(gas: nat, price: nat): nat {
    gas * price
  }

  class Transition {
    const gp: GasPool
    const msg: Message
    const config: Config
    const coinbase: Address
    var state: State
    var gas: nat
    var initialGas: nat

    constructor (gp: GasPool, msg: Message, config: Config, coinbase: Address, state: State)
      ensures this.gp == gp && this.msg == msg && this.config == config && this.coinbase == coinbase
      ensures this.state == state
      ensures gas == 0 == initialGas
    {
      this.gp, this.msg, this.config, this.coinbase, this.state := gp, msg, config, coinbase, state;
      gas, initialGas := 0, 0;
    }

    /** The gas is bought: it left the pool, and the sender paid for it. */
    ghost predicate Bought(pool: nat, start: State)
      reads this, gp
    {
      && gp.Valid() && gp.left + initialGas == pool <= MAX_UINT64 && gas <= initialGas == msg.gas
      && Supply(state) + Fee(msg.gas, msg.gasPrice) == Supply(start)
      && SameNonces(start, state, msg.sender, 0)
    }

    /** preCheck and buyGas. */
    method PreCheck() returns (ok: bool)
      requires gp.Valid() && gas == 0
      modifies this, gp
      ensures ok <==>
        && (msg.checkNonce ==> Nonce(old(state), msg.sender) == msg.nonce)
        && Fee(msg.gas, msg.gasPrice) <= Balance(old(state), msg.sender) && msg.gas <= old(gp.left)
      ensures ok ==> state == Debit(old(state), msg.sender, Fee(msg.gas, msg.gasPrice))
      ensures ok ==> Bought(old(gp.left), old(state)) && gas == initialGas
      ensures ok && msg.gasPrice == 0 ==> SameBalances(old(state), state)
      ensures !ok ==> state == old(state) && gp.left == old(gp.left) && gp.Valid()
    {
      if msg.checkNonce && Nonce(state, msg.sender) != msg.nonce {
        return false;
      }
      var cost := Fee(msg.gas, msg.gasPrice);
      if Balance(state, msg.sender) < cost {
        return false;
      }
      ok := gp.SubGas(msg.gas);
      if ok {
        gas, initialGas := gas + msg.gas, msg.gas;
        DebitSupply(state, msg.sender, cost);
        state := Debit(state, msg.sender, cost);
      }
    }

    /** refundGas and the payment to the block's author. */
    method Settle(ghost pool: nat)
      requires gp.Valid() && gp.left + initialGas == pool <= MAX_UINT64 && gas <= initialGas
      requires initialGas == msg.gas
      modifies this, gp
      ensures gp.Valid() && gas <= initialGas == old(initialGas)
      ensures initialGas - gas == Billed(initialGas - old(gas), old(state).refund)
      ensures var used, back := initialGas - old(gas), gas - old(gas);
        && back <= old(state).refund && 2 * back <= used && (back < old(state).refund ==> used < 2 * (back + 1))
      ensures gp.left + (initialGas - gas) == pool
      ensures Supply(state) == Supply(old(state)) + Fee(initialGas, msg.gasPrice)
      ensures state.nonces == old(state).nonces
      ensures Paid(old(state), state, msg, coinbase, initialGas - gas)
      ensures Settled(old(state), state, msg.sender, Fee(gas, msg.gasPrice), coinbase,
                      Fee(initialGas - gas, msg.gasPrice))
      ensures msg.gasPrice == 0 ==> SameBalances(old(state), state)
    {
      hide Fee, Supply;
      var refund := (initialGas - gas) / 2;
      if refund > state.refund {
        refund := state.refund;
      }
      gas := gas + refund;
      Distributed(state, msg.sender, coinbase, initialGas, gas, msg.gasPrice);
      state := Credit(state, msg.sender, Fee(gas, msg.gasPrice));
      gp.AddGas(gas);
      state := Credit(state, coinbase, Fee(initialGas - gas, msg.gasPrice));
    }

    /** TransitionDb. `received` is the private payload, if this node is a party to the transaction. */
    method Transact(received: Option<seq<Byte>>, vm: Vm) returns (r: Outcome)
      requires gp.Valid() && gas == 0 && Guarantee(vm, msg, config)
      modifies this, gp
      ensures gp.Valid() && gp.left <= old(gp.left)
      ensures r.Done? <==>
        old(Payable(state, gp.left, msg)) &&
        ((Private(msg, config) && received.None?) || Runs(msg, config, received, vm, old(state)))
      ensures r.Done? && msg.checkNonce ==> Nonce(old(state), msg.sender) == msg.nonce
      ensures r.Done? ==> Nonce(state, msg.sender) == Nonce(old(state), msg.sender) + 1
      ensures r.Done? && Private(msg, config) ==> (r.failed <==> PrivateFails(msg, config, received, vm, old(state)))
      ensures r.Done? && !Private(msg, config) ==> gp.left + r.used == old(gp.left)
      ensures r.Done? && !Private(msg, config) ==>
        && MessageCost(msg, config) <= 2 * r.used && r.used <= msg.gas
        && Bill(vm.run(Prepaid(old(state), msg), msg.gas - MessageCost(msg, config)), state, r, msg, coinbase)
      ensures r.Done? && Private(msg, config) ==>
        r.used == 0 && gp.left + Withheld(msg, config, received, old(state)) == old(gp.left)
      ensures r.Done? ==>
        Supply(state) + Burned(msg, config, vm, old(state)) + Kept(msg, config, received) == Supply(old(state))
      ensures r.Done? && Private(msg, config) && msg.gasPrice == 0 ==> Untouched(old(state), state, msg.sender)
    {
      hide Fee, Supply, MessageCost, Guarantee, Runs, Billed, Bill, Burned, Kept, Withheld, Untouched, PrivateFails;
      var ok := PreCheck();
      if !ok {
        return Fault;
      }
      r := Proceed(received, vm, old(gp.left), old(state));
    }

    /** The rest of TransitionDb, once the gas is bought. */
    method Proceed(received: Option<seq<Byte>>, vm: Vm, ghost pool: nat, ghost start: State) returns (r: Outcome)
      requires Guarantee(vm, msg, config) && Fee(msg.gas, msg.gasPrice) <= Balance(start, msg.sender)
      requires Bought(pool, start) && gas == initialGas && state == Debit(start, msg.sender, Fee(msg.gas, msg.gasPrice))
      requires msg.gasPrice == 0 ==> SameBalances(start, state)
      modifies this, gp
      ensures gp.Valid() && gp.left <= pool
      ensures r.Done? <==> (Private(msg, config) && received.None?) || Runs(msg, config, received, vm, start)
      ensures r.Done? ==> Nonce(state, msg.sender) == Nonce(start, msg.sender) + 1
      ensures r.Done? && Private(msg, config) ==> (r.failed <==> PrivateFails(msg, config, received, vm, start))
      ensures r.Done? && !Private(msg, config) ==>
        && gp.left + r.used == pool && MessageCost(msg, config) <= 2 * r.used && r.used <= msg.gas
        && Bill(vm.run(Prepaid(start, msg), msg.gas - MessageCost(msg, config)), state, r, msg, coinbase)
      ensures r.Done? && Private(msg, config) ==>
        r.used == 0 && gp.left + Withheld(msg, config, received, start) == pool
      ensures r.Done? ==> Supply(state) + Burned(msg, config, vm, start) + Kept(msg, config, received) == Supply(start)
      ensures r.Done? && Private(msg, config) && msg.gasPrice == 0 ==> Untouched(start, state, msg.sender)
    {
      hide Fee, Supply, IntrinsicCost, NonZeroBytes, Guarantee, Billed, Paid, Bill;
      NoFee(msg.gas);
      var creation, isPrivate := msg.to == None, Private(msg, config);
      var data := msg.data;
      if isPrivate {
        if received.None? || !creation {
          BumpSupply(state, msg.sender);
          state := Bump(state, msg.sender);
        }
        if received.None? {
          return Done(0, false);
        }
        data := received.value;
      }
      var intrinsic := IntrinsicGas(msg.data, creation, config.homestead);
      if intrinsic.None? || gas < intrinsic.value {
        return Fault;
      }
      gas := gas - intrinsic.value;
      r := Execute(data, vm, pool, start);
    }

    /** The message proper, once its gas is bought and the intrinsic gas used. */
    method Execute(data: seq<Byte>, vm: Vm, ghost pool: nat, ghost start: State) returns (r: Outcome)
      requires Guarantee(vm, msg, config) && gp.Valid() && gp.left + initialGas == pool <= MAX_UINT64
      requires gas <= initialGas == msg.gas
      requires Supply(state) + Fee(initialGas, msg.gasPrice) == Supply(start)
      requires msg.gasPrice == 0 ==> SameBalances(start, state)
      requires SameNonces(start, state, msg.sender, if Private(msg, config) && msg.to != None then 1 else 0)
      modifies this, gp
      ensures gp.Valid() && gp.left <= pool
      ensures r.Done? <==>
        (Private(msg, config) && msg.to != None && data == []) || msg.value <= Held(vm, old(state), msg.sender)
      ensures r.Done? ==> Nonce(state, msg.sender) == Nonce(start, msg.sender) + 1
      ensures r.Done? ==> if Private(msg, config) then r.used == 0 else gp.left + r.used == pool
      ensures r.Done? && Private(msg, config) ==>
        (r.failed <==> !(msg.to != None && data == []) && vm.run(old(state), old(gas)).error != Fine)
      ensures r.Done? && !Private(msg, config) ==>
        && msg.gas - old(gas) <= 2 * r.used && r.used <= msg.gas
        && Bill(vm.run(Counted(old(state), msg), old(gas)), state, r, msg, coinbase)
        && Supply(state) + vm.run(Counted(old(state), msg), old(gas)).burned == Supply(start)
      ensures r.Done? && Private(msg, config) ==>
        && gp.left + Billed(msg.gas - old(gas), old(state).refund) == pool && Supply(state) == Supply(start)
        && (msg.gasPrice == 0 ==> Untouched(start, state, msg.sender))
    {
      hide Fee, Supply, Billed, Bill, Settled, Paid, Guarantee;
      var isPrivate := Private(msg, config);
      if msg.to != None {
        if !isPrivate {
          BumpSupply(state, msg.sender);
          state := Bump(state, msg.sender);
        }
        if |data| == 0 && isPrivate {
          Settle(pool);
          return Done(0, false);
        }
      }
      r := RunMachine(vm, pool, start);
    }

    /** The machine runs, and the gas is settled. */
    method RunMachine(vm: Vm, ghost pool: nat, ghost start: State) returns (r: Outcome)
      requires Guarantee(vm, msg, config) && gp.Valid() && gp.left + initialGas == pool <= MAX_UINT64
      requires gas <= initialGas == msg.gas && Supply(state) + Fee(initialGas, msg.gasPrice) == Supply(start)
      requires msg.gasPrice == 0 ==> SameBalances(start, state)
      requires SameNonces(start, state, msg.sender, if msg.to != None then 1 else 0)
      modifies this, gp
      ensures gp.Valid() && gp.left <= pool && (r.Done? <==> msg.value <= Held(vm, old(state), msg.sender))
      ensures r.Done? ==> Nonce(state, msg.sender) == Nonce(start, msg.sender) + 1
      ensures r.Done? ==> if Private(msg, config) then r.used == 0 else gp.left + r.used == pool
      ensures r.Done? ==> (r.failed <==> vm.run(old(state), old(gas)).error != Fine)
      ensures r.Done? && !Private(msg, config) ==>
        && msg.gas - old(gas) <= 2 * r.used && r.used <= msg.gas
        && Bill(vm.run(old(state), old(gas)), state, r, msg, coinbase)
        && Supply(state) + vm.run(old(state), old(gas)).burned == Supply(start)
      ensures r.Done? && Private(msg, config) ==>
        && gp.left + Billed(msg.gas - old(gas), old(state).refund) == pool && Supply(state) == Supply(start)
        && (msg.gasPrice == 0 ==> Untouched(start, state, msg.sender))
    {
      hide Fee, Supply, Billed, Settled, Paid, Guarantee;
      GuaranteedAt(vm, msg, config, state, gas);
      var result := vm.run(state, gas);
      SupplyOf(result.state, state);
      state := result.state;
      if result.error == InsufficientBalance {
        return Fault;
      }
      if !Private(msg, config) {
        gas := result.leftover;
      }
      Settle(pool);
      r := Done(if Private(msg, config) then 0 else initialGas - gas, result.error != Fine);
    }
  }

  ghost predicate SameBalances(before: State, after: State) {
    forall a :: Balance(after, a) == Balance(before, a)
  }

  ghost predicate SameNonces(before: State, after: State, sender: Address, more: nat) {
    forall a :: Nonce(after, a) == Nonce(before, a) + (if a == sender then more else 0)
  }

  lemma BumpSupply(s: State, a: Address)
    ensures Supply(Bump(s, a)) == Supply(s)
  {
  }

  lemma SupplyOf(s: State, t: State)
    ensures s.balances == t.balances ==> Supply(s) == Supply(t)
  {
  }

  function MessageCost(msg: Message, config: Config): nat {
    IntrinsicCost(msg.data, msg.to == None, config.homestead)
  }

  /** The gas a private message takes from the block: an outsider keeps all that was bought, a party bills
      the intrinsic gas. */
  function Withheld(msg: Message, config: Config, received: Option<seq<Byte>>, start: State): nat {
    if received.None? then msg.gas else Billed(MessageCost(msg, config), start.refund)
  }

  /** A party's call without a private payload does not reach the machine. */
  predicate Skips(msg: Message, config: Config, received: Option<seq<Byte>>) {
    Private(msg, config) && msg.to != None && received == Some([])
  }

  /** The value is covered in the state that the machine asks, once the gas is paid for. */
  predicate Covered(msg: Message, vm: Vm, start: State) {
    msg.value + (if vm.asks.InPublic? then Fee(msg.gas, msg.gasPrice) else 0) <= Held(vm, start, msg.sender)
  }

  /** The message pays its intrinsic gas and its value is covered, if that is asked at all. */
  predicate Runs(msg: Message, config: Config, received: Option<seq<Byte>>, vm: Vm, start: State) {
    MessageCost(msg, config) <= msg.gas && (Skips(msg, config, received) || Covered(msg, vm, start))
  }

  /** The machine fails on a private message that it is given. */
  ghost predicate PrivateFails(msg: Message, config: Config, received: Option<seq<Byte>>, vm: Vm, start: State) {
    && received.Some? && !Skips(msg, config, received)
    && Fee(msg.gas, msg.gasPrice) <= Balance(start, msg.sender) && MessageCost(msg, config) <= msg.gas
    && vm.run(Prepaid(start, msg), msg.gas - MessageCost(msg, config)).error != Fine
  }

  /** The money that a public message destroys. */
  function Burned(msg: Message, config: Config, vm: Vm, start: State): nat {
    if Private(msg, config) || Balance(start, msg.sender) < Fee(msg.gas, msg.gasPrice) then 0
    else if msg.gas < MessageCost(msg, config) then 0
    else vm.run(Prepaid(start, msg), msg.gas - MessageCost(msg, config)).burned
  }

  /** The fee that nobody gets when an outsider skips a private message. */
  function Kept(msg: Message, config: Config, received: Option<seq<Byte>>): nat {
    if Private(msg, config) && received.None? then Fee(msg.gas, msg.gasPrice) else 0
  }

  /** The sender can pay for the gas, the block has it, and the nonce is right. */
  predicate Payable(s: State, pool: nat, msg: Message) {
    && (msg.checkNonce ==> Nonce(s, msg.sender) == msg.nonce)
    && Fee(msg.gas, msg.gasPrice) <= Balance(s, msg.sender) && msg.gas <= pool
  }

  /** The state in which a public message runs: its gas is paid for and a call is counted. */
  function Prepaid(s: State, msg: Message): State
    requires Fee(msg.gas, msg.gasPrice) <= Balance(s, msg.sender)
  {
    Counted(Debit(s, msg.sender, Fee(msg.gas, msg.gasPrice)), msg)
  }

  function Counted(s: State, msg: Message): State {
    if msg.to == None then s else Bump(s, msg.sender)
  }

  /** The sender gets one amount back and the author of the block the other. */
  ghost predicate Settled(before: State, after: State, sender: Address, back: nat, author: Address, earned: nat) {
    forall a ::
      Balance(after, a) ==
      Balance(before, a) + (if a == sender then back else 0) + (if a == author then earned else 0)
  }

  /** The unused gas is paid back to the sender, and the used gas goes to the author of the block. */
  ghost predicate Paid(ran: State, after: State, msg: Message, coinbase: Address, used: nat) {
    used <= msg.gas && forall a :: Balance(after, a) == Balance(ran, a) + Share(msg, coinbase, used, a)
  }

  function Share(msg: Message, coinbase: Address, used: nat, a: Address): nat
    requires used <= msg.gas
  {
    var returned := if a == msg.sender then Fee(msg.gas - used, msg.gasPrice) else 0;
    returned + if a == coinbase then Fee(used, msg.gasPrice) else 0
  }

  /** What the machine left, with the refund of at most half of the gas, decides the bill. */
  ghost predicate Bill(ran: VmResult, after: State, r: Outcome, msg: Message, coinbase: Address) {
    && r.Done? && ran.leftover <= msg.gas && r.used == Billed(msg.gas - ran.leftover, ran.state.refund)
    && r.failed == (ran.error != Fine) && after.nonces == ran.state.nonces
    && Paid(ran.state, after, msg, coinbase, r.used)
  }

  /** All that changes is that the sender's nonce is one higher. */
  ghost predicate Untouched(before: State, after: State, sender: Address) {
    SameBalances(before, after) && SameNonces(before, after, sender, 1)
  }

  lemma Distributed(s: State, sender: Address, coinbase: Address, whole: nat, part: nat, price: nat)
    requires part <= whole
    ensures var s' := Credit(Credit(s, sender, Fee(part, price)), coinbase, Fee(whole - part, price));
      && Supply(s') == Supply(s) + Fee(whole, price)
      && (price == 0 ==> forall a :: Balance(s', a) == Balance(s, a))
  {
    var mid := Credit(s, sender, Fee(part, price));
    CreditSupply(s, sender, Fee(part, price));
    CreditSupply(mid, coinbase, Fee(whole - part, price));
    FeeSplit(whole, part, price);
  }

  lemma NoFee(gas: nat)
    ensures Fee(gas, 0) == 0
  {
  }

  lemma FeeSplit(whole: nat, part: nat, price: nat)
    requires part <= whole
    ensures Fee(whole, price) == Fee(part, price) + Fee(whole - part, price)
    ensures price == 0 ==> Fee(part, price) == 0 == Fee(whole - part, price)
  {
  }
}
