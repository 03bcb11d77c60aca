/** The public state as far as gas and value are concerned, and the gas price list of a transaction. */
module GasState {

  type Address = nat
  type Byte = b: nat | b < 256

  const MAX_UINT64: nat := 0xFFFF_FFFF_FFFF_FFFF

  datatype Option<T> = None | Some(value: T)

  /** Balances and nonces default to zero; `refund` is the refund counter of the running transaction. */
  datatype State = State(balances: map<Address, nat>, nonces: map<Address, nat>, refund: nat)

  function Balance(s: State, a: Address): nat {
    if a in s.balances then s.balances[a] else 0
  }

  function Nonce(s: State, a: Address): nat {
    if a in s.nonces then s.nonces[a] else 0
  }

  function Credit(s: State, a: Address, amount: nat): State {
    s.(balances := s.balances[a := Balance(s, a) + amount])
  }

  function Debit(s: State, a: Address, amount: nat): State
    requires amount <= Balance(s, a)
  {
    s.(balances := s.balances[a := Balance(s, a) - amount])
  }

  function Bump(s: State, a: Address): State {
    s.(nonces := s.nonces[a := Nonce(s, a) + 1])
  }

  ghost function Sum(keys: set<Address>, m: map<Address, nat>): nat
    requires keys <= m.Keys
  {
    if keys == {} then 0 else var a :| a in keys; m[a] + Sum(keys - {a}, m)
  }

  /** All the money there is. */
  ghost function Supply(s: State): nat {
    Sum(s.balances.Keys, s.balances)
  }

  lemma {:induction false} SumWithout(keys: set<Address>, m: map<Address, nat>, a: Address)
    requires a in keys && keys <= m.Keys
    ensures Sum(keys, m) == m[a] + Sum(keys - {a}, m)
  {
    var b :| b in keys && Sum(keys, m) == m[b] + Sum(keys - {b}, m);
    if b != a {
      SumWithout(keys - {b}, m, a);
      SumWithout(keys - {a}, m, b);
      assert keys - {b} - {a} == keys - {a} - {b};
    }
  }

  lemma {:induction false} SumSame(keys: set<Address>, m: map<Address, nat>, m': map<Address, nat>)
    requires keys <= m.Keys && keys <= m'.Keys && forall a :: a in keys ==> m[a] == m'[a]
    ensures Sum(keys, m) == Sum(keys, m')
  {
    if keys != {} {
      var a :| a in keys;
      SumWithout(keys, m, a);
      SumWithout(keys, m', a);
      SumSame(keys - {a}, m, m');
    }
  }

  lemma SumUpdate(m: map<Address, nat>, a: Address, x: nat)
    ensures Sum(m[a := x].Keys, m[a := x]) == Sum(m.Keys, m) - (if a in m then m[a] else 0) + x
  {
    var m' := m[a := x];
    SumWithout(m'.Keys, m', a);
    SumSame(m.Keys - {a}, m, m');
    assert m'.Keys - {a} == m.Keys - {a};
    if a in m {
      SumWithout(m.Keys, m, a);
    } else {
      assert m.Keys - {a} == m.Keys;
    }
  }

  lemma CreditSupply(s: State, a: Address, amount: nat)
    ensures Supply(Credit(s, a, amount)) == Supply(s) + amount
  {
    SumUpdate(s.balances, a, Balance(s, a) + amount);
  }

  lemma DebitSupply(s: State, a: Address, amount: nat)
    requires amount <= Balance(s, a)
    ensures Supply(Debit(s, a, amount)) == Supply(s) - amount
  {
    SumUpdate(s.balances, a, Balance(s, a) - amount);
  }

  const TX_GAS: nat := 21000
  const TX_GAS_CONTRACT_CREATION: nat := 53000
  const TX_DATA_ZERO_GAS: nat := 4
  const TX_DATA_NONZERO_GAS: nat := 68

  function NonZeroBytes(data: seq<Byte>): (n: nat)
    ensures n <= |data|
  {
    if data == [] then 0 else NonZeroBytes(data[..|data| - 1]) + (if data[|data| - 1] != 0 then 1 else 0)
  }

  /** The intrinsic gas, without regard to the machine's word size. */
  function IntrinsicCost(data: seq<Byte>, creation: bool, homestead: bool): nat {
    (if creation && homestead then TX_GAS_CONTRACT_CREATION else TX_GAS) +
    NonZeroBytes(data) * TX_DATA_NONZERO_GAS + (|data| - NonZeroBytes(data)) * TX_DATA_ZERO_GAS
  }

  /** IntrinsicGas: the 64-bit computation gives the exact cost, or an error exactly when it does not fit. */
  method IntrinsicGas(data: seq<Byte>, creation: bool, homestead: bool) returns (r: Option<nat>)
    ensures var cost := IntrinsicCost(data, creation, homestead);
      r == if cost <= MAX_UINT64 then Some(cost) else None
    ensures r.Some? ==>
      r.value + 64 * (|data| - NonZeroBytes(data)) == 68 * |data| + if creation && homestead then 53000 else 21000
  {
    var gas: nat := if creation && homestead then TX_GAS_CONTRACT_CREATION else TX_GAS;
    if |data| > 0 {
      var nz := 0;
      for i := 0 to |data|
        invariant nz == NonZeroBytes(data[..i])
      {
        assert data[..i + 1][..i] == data[..i];
        if data[i] != 0 {
          nz := nz + 1;
        }
      }
      assert data[..|data|] == data;
      if (MAX_UINT64 - gas) / TX_DATA_NONZERO_GAS < nz {
        return None;
      }
      gas := gas + nz * TX_DATA_NONZERO_GAS;
      var z := |data| - nz;
      if (MAX_UINT64 - gas) / TX_DATA_ZERO_GAS < z {
        return None;
      }
      gas := gas + z * TX_DATA_ZERO_GAS;
    }
    r := Some(gas);
  }
}
