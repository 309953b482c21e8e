/** The gas a transaction costs before it runs, as in core/state_transition.go. */
module IntrinsicGas {
  import opened Basics
  import opened Transactions

  const TX_GAS: nat := 21000
  const TX_GAS_CONTRACT_CREATION: nat := 53000
  const TX_DATA_ZERO_GAS: nat := 4
  const TX_DATA_NON_ZERO_GAS_FRONTIER: nat := 68
  const TX_DATA_NON_ZERO_GAS_EIP2028: nat := 16

  function NonZeroBytes(data: seq<byte>): (n: nat)
    ensures n <= |data|
  {
    if data == [] then 0
    else NonZeroBytes(data[..|data| - 1]) + if data[|data| - 1] == 0 then 0 else 1
  }

  function BaseGas(creation: bool, homestead: bool): nat {
    if creation && homestead then TX_GAS_CONTRACT_CREATION else TX_GAS
  }

  function NonZeroGas(eip2028: bool): nat {
    if eip2028 then TX_DATA_NON_ZERO_GAS_EIP2028 else TX_DATA_NON_ZERO_GAS_FRONTIER
  }

  /** The cost as a mathematical number. */
  function Cost(data: seq<byte>, creation: bool, homestead: bool, eip2028: bool): nat {
    BaseGas(creation, homestead) + NonZeroBytes(data) * NonZeroGas(eip2028)
    + (|data| - NonZeroBytes(data)) * TX_DATA_ZERO_GAS
  }

  lemma {:induction false} NonZeroCount(data: seq<byte>)
    ensures NonZeroBytes(data) == |data| - multiset(data)[0]
  {
    if data == [] {
    } else {
      var front := data[..|data| - 1];
      NonZeroCount(front);
      assert data == front + [data[|data| - 1]];
    }
  }

  /** 21000 gas, or 53000 for a contract creation from the Homestead fork on, with 4 for each zero byte, and 68 for each
      other byte, or 16 from the Istanbul fork on. */
  lemma CostInNumbers(data: seq<byte>, creation: bool, homestead: bool, istanbul: bool)
    ensures var zeros := multiset(data)[0];
            Cost(data, creation, homestead, istanbul) ==
            (if creation && homestead then 53000 else 21000) + 4 * zeros
            + (if istanbul then 16 else 68) * (|data| - zeros)
  {
    NonZeroCount(data);
  }

  /** `n` units fit on top of `gas` exactly when the division test of the source passes. */
  lemma RoomFor(gas: nat, n: nat, unit: nat)
    requires gas <= MAX_UINT64
    requires unit == TX_DATA_ZERO_GAS || unit == NonZeroGas(true) || unit == NonZeroGas(false)
    ensures (MAX_UINT64 - gas) / unit < n <==> gas + n * unit > MAX_UINT64
  {
    if unit == TX_DATA_ZERO_GAS {
      assert (MAX_UINT64 - gas) / 4 < n <==> gas + n * 4 > MAX_UINT64;
    } else if unit == NonZeroGas(true) {
      assert (MAX_UINT64 - gas) / 16 < n <==> gas + n * 16 > MAX_UINT64;
    } else {
      assert (MAX_UINT64 - gas) / 68 < n <==> gas + n * 68 > MAX_UINT64;
    }
  }

  /** The cost if it fits into 64 bits, and an overflow error exactly when it does not. */
  method IntrinsicGas(data: seq<byte>, creation: bool, homestead: bool, eip2028: bool) returns (r: Option<uint64>)
    ensures r == if Cost(data, creation, homestead, eip2028) <= MAX_UINT64
                 then Some(Cost(data, creation, homestead, eip2028)) else None
  {
    var gas := BaseGas(creation, homestead);
    if |data| > 0 {
      var nz := 0;
      for i := 0 to |data|
        invariant nz == NonZeroBytes(data[..i])
      {
        assert data[..i + 1][..i] == data[..i];
        if data[i] != 0 {
          nz := nz + 1;
        }
      }
      assert data[..|data|] == data;
      var nonZeroGas := NonZeroGas(eip2028);
      RoomFor(gas, nz, nonZeroGas);
      if (MAX_UINT64 - gas) / nonZeroGas < nz {
        return None;
      }
      gas := gas + nz * nonZeroGas;
      var z := |data| - nz;
      RoomFor(gas, z, TX_DATA_ZERO_GAS);
      if (MAX_UINT64 - gas) / TX_DATA_ZERO_GAS < z {
        return None;
      }
      gas := gas + z * TX_DATA_ZERO_GAS;
    }
    r := Some(gas);
  }
}
