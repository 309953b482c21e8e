/** Transactions as the pool sees them, and the constants of core/tx_pool.go. */
module Transactions {
  import opened Basics

  type Address = nat
  type byte = b: nat | b < 256
  type pos = n: int | 0 < n witness 1

  /** `signed` says whether the sender can be recovered; if so, it is `from`. */
  datatype Transaction = Transaction(
    from: Address, signed: bool, nonce: uint64, gasPrice: nat, gas: uint64, value: int,
    creation: bool, data: seq<byte>, size: pos)
  {
    /** The most ether the transaction can take from its sender. */
    function Cost(): int {
      gasPrice * gas + value
    }

    function Hash(): Hash {
      HashOf(this)
    }
  }

  /** Hashing is injective: a hash is a free constructor over the hashed transaction. */
  datatype Hash = HashOf(tx: Transaction)

  const TX_SLOT_SIZE := 32 * 1024
  const TX_MAX_SIZE := 4 * TX_SLOT_SIZE

  /** Slots a transaction takes; at least one. */
  function NumSlots(tx: Transaction): (n: nat)
    ensures 1 <= n
    ensures (n - 1) * 32768 < tx.size <= n * 32768
  {
    (tx.size + TX_SLOT_SIZE - 1) / TX_SLOT_SIZE
  }
}
