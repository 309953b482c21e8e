/** Account state as the pool reads it, and the virtual nonces of core/tx_noncer.go. */
module TxNoncers {
  import opened Basics
  import opened Transactions

  datatype Account = Account(nonce: nat, balance: nat)

  datatype State = State(accounts: map<Address, Account>) {
    function Nonce(a: Address): nat {
      if a in accounts then accounts[a].nonce else 0
    }

    function Balance(a: Address): nat {
      if a in accounts then accounts[a].balance else 0
    }
  }

  /** Virtual nonces as a value. */
  datatype Nexts = Nexts(nonces: map<Address, nat>, fallback: State) {
    function Next(a: Address): nat {
      if a in nonces then nonces[a] else fallback.Nonce(a)
    }
  }

  /** The next nonce of each account, counting pending transactions; filled lazily from the state. */
  class TxNoncer {
    const fallback: State
    var nonces: map<Address, nat>

    function Next(a: Address): nat
      reads this
    {
      if a in nonces then nonces[a] else fallback.Nonce(a)
    }

    /** The nonces as a value. */
    ghost function Values(): (v: Nexts)
      reads this
      ensures forall a :: v.Next(a) == Next(a)
    {
      Nexts(nonces, fallback)
    }

    constructor (state: State)
      ensures fallback == state && Values() == Nexts(map[], state) && forall a :: Next(a) == state.Nonce(a)
    {
      fallback, nonces := state, map[];
    }

    method Get(a: Address) returns (n: nat)
      modifies this
      ensures n == old(Next(a)) && forall b :: Next(b) == old(Next(b))
    {
      if a !in nonces {
        nonces := nonces[a := fallback.Nonce(a)];
      }
      n := nonces[a];
    }

    method Set(a: Address, n: nat)
      modifies this
      ensures forall b :: Next(b) == if b == a then n else old(Next(b))
    {
      nonces := nonces[a := n];
    }

    method SetIfLower(a: Address, n: nat)
      modifies this
      ensures forall b :: Next(b) == if b == a && n < old(Next(a)) then n else old(Next(b))
    {
      if a !in nonces {
        nonces := nonces[a := fallback.Nonce(a)];
      }
      if nonces[a] <= n {
        return;
      }
      nonces := nonces[a := n];
    }
  }
}
