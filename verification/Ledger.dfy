/** Finite sums over maps, and the exact-transfer bond token. */
module Ledger {
  import opened Wrappers

  type Address = nat

  // ----- sums over maps

  ghost function Pick<K>(m: map<K, nat>): (k: K)
    requires m.Keys != {}
    ensures k in m
  {
    var k :| k in m.Keys;
    k
  }

  ghost function MapSum<K>(m: map<K, nat>): nat
    decreases m.Keys
  {
    if m.Keys == {} then 0 else m[Pick(m)] + MapSum(m - {Pick(m)})
  }

  /** Summation may start anywhere. */
  lemma {:induction false} MapSumRemove<K>(m: map<K, nat>, k: K)
    requires k in m
    ensures MapSum(m) == m[k] + MapSum(m - {k})
    decreases m.Keys
  {
    var j := Pick(m);
    if j != k {
      MapSumRemove(m - {j}, k);
      MapSumRemove(m - {k}, j);
      DropTwice(m, j, k);
    }
  }

  lemma DropTwice<K>(m: map<K, nat>, j: K, k: K)
    ensures m - {j} - {k} == m - {k} - {j}
  {
  }

  function Get<K>(m: map<K, nat>, k: K): nat {
    if k in m then m[k] else 0
  }

  lemma MapSumUpdate<K>(m: map<K, nat>, k: K, v: nat)
    ensures MapSum(m[k := v]) + Get(m, k) == MapSum(m) + v
  {
    MapSumRemove(m[k := v], k);
    if k in m {
      MapSumRemove(m, k);
      assert m[k := v] - {k} == m - {k};
    } else {
      assert m[k := v] - {k} == m;
    }
  }

  lemma MapSumDrop<K>(m: map<K, nat>, k: K)
    ensures MapSum(m - {k}) + Get(m, k) == MapSum(m)
  {
    if k in m {
      MapSumRemove(m, k);
    } else {
      assert m - {k} == m;
    }
  }

  // ----- token transfers

  type Balances = map<Address, nat>

  /** An exact transfer, or None when the sender's balance does not cover it. */
  function Transfer(b: Balances, from: Address, to: Address, amount: nat): Option<Balances> {
    if Get(b, from) < amount then None
    else
      var debited := b[from := Get(b, from) - amount];
      Some(debited[to := Get(debited, to) + amount])
  }

  lemma TransferConserves(b: Balances, from: Address, to: Address, amount: nat)
    requires Transfer(b, from, to, amount).Some?
    ensures MapSum(Transfer(b, from, to, amount).value) == MapSum(b)
  {
    var debited := b[from := Get(b, from) - amount];
    MapSumUpdate(b, from, Get(b, from) - amount);
    MapSumUpdate(debited, to, Get(debited, to) + amount);
  }

  class BondToken {
    var balances: Balances

    constructor (initial: Balances)
      ensures balances == initial
    {
      balances := initial;
    }

    /** A transfer by a caller entitled to move `from`'s tokens; false is a revert. */
    method Move(from: Address, to: Address, amount: nat) returns (ok: bool)
      modifies this
      ensures ok <==> Transfer(old(balances), from, to, amount).Some?
      ensures balances == if ok then Transfer(old(balances), from, to, amount).value else old(balances)
    {
      if Get(balances, from) < amount {
        return false;
      }
      balances := balances[from := Get(balances, from) - amount];
      balances := balances[to := Get(balances, to) + amount];
      return true;
    }
  }
}
