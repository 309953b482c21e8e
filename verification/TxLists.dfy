/** The per-account transaction list of core/tx_list.go: a sorted map with cost and gas caps. */
module TxLists {
  import opened Basics
  import opened Transactions
  import opened NonceMaps
  import opened TxSortedMaps

  /** Whether `tx` may take the place of `held`: strictly dearer, and by at least `bump` percent. */
  predicate MayReplace(held: Transaction, tx: Transaction, bump: nat) {
    held.gasPrice < tx.gasPrice && held.gasPrice * (100 + bump) / 100 <= tx.gasPrice
  }

  /** Whether `tx` may join a list: its nonce is free, or it may take the place of the transaction there. */
  predicate Fits(m: NonceMap, tx: Transaction, bump: nat) {
    tx.nonce in m ==> MayReplace(m[tx.nonce], tx, bump)
  }

  predicate Overspends(tx: Transaction, costLimit: int, gasLimit: nat) {
    tx.gas > gasLimit || tx.Cost() > costLimit
  }

  /** What a full scan finds unpayable. */
  function Unpayable(m: NonceMap, costLimit: int, gasLimit: nat): NonceMap {
    map n | n in m && Overspends(m[n], costLimit, gasLimit) :: m[n]
  }

  /** What is cut off from the start of a strict list once `gone` has left it. */
  function CutOff(m: NonceMap, gone: NonceMap): NonceMap {
    map n | n in m && n !in gone && exists k :: k in gone && k < n :: m[n]
  }

  /** What stays when `gone`, and in a strict list all that it cuts off, leaves. */
  function Kept(m: NonceMap, gone: NonceMap, strict: bool): NonceMap {
    map n | n in m && n !in gone && (strict ==> forall k :: k in gone ==> n < k) :: m[n]
  }

  ghost predicate Gapless(m: NonceMap) {
    forall i, j, k :: i in m && k in m && i < j < k ==> j in m
  }

  method LowestNonce(removed: seq<Transaction>) returns (lowest: nat)
    requires removed != []
    ensures forall i :: 0 <= i < |removed| ==> lowest <= removed[i].nonce
    ensures exists i :: 0 <= i < |removed| && removed[i].nonce == lowest
  {
    lowest := MAX_UINT64;
    ghost var at := 0;
    for i := 0 to |removed|
      invariant lowest <= MAX_UINT64 && (i == 0 ==> at == 0 && lowest == MAX_UINT64)
      invariant forall j :: 0 <= j < i ==> lowest <= removed[j].nonce
      invariant 0 < i ==> 0 <= at < i && removed[at].nonce == lowest
    {
      if lowest > removed[i].nonce {
        lowest, at := removed[i].nonce, i;
      }
    }
  }

  lemma NothingUnpayable(m: NonceMap, costcap: int, gascap: nat, costLimit: int, gasLimit: nat)
    requires forall n :: n in m ==> !Overspends(m[n], costcap, gascap)
    requires costcap <= costLimit && gascap <= gasLimit
    ensures Unpayable(m, costLimit, gasLimit) == map[]
    ensures forall strict :: Kept(m, map[], strict) == m
    ensures CutOff(m, map[]) == map[]
  {
  }

  lemma NothingListed(m: NonceMap, bad: NonceMap)
    requires Lists([], bad)
    ensures bad == map[]
    ensures forall strict :: Kept(m, map[], strict) == m
    ensures Without(m, bad) == m && CutOff(m, map[]) == map[]
  {
    assert Keys(bad) == {};
  }

  lemma StrictCut(m: NonceMap, bad: NonceMap, lowest: nat, above: Transaction -> bool)
    requires Keyed(m) && lowest in bad && (forall k :: k in bad ==> lowest <= k && k in m && m[k] == bad[k])
    requires forall tx :: above(tx) <==> tx.nonce > lowest
    ensures Select(Without(m, bad), above) == CutOff(m, bad)
    ensures Without(Without(m, bad), CutOff(m, bad)) == Kept(m, bad, true)
  {
  }

  lemma RemovedCut(m: NonceMap, n: nat, above: Transaction -> bool)
    requires Keyed(m) && forall tx :: above(tx) <==> tx.nonce > n
    ensures Select(m - {n}, above) == AtLeast(m, n + 1)
    ensures Without(m - {n}, AtLeast(m, n + 1)) == Below(m, n)
  {
  }

  class TxList {
    const strict: bool
    const txs: TxSortedMap
    var costcap: int
    var gascap: nat

    /** The caps bound every transaction held. */
    ghost predicate CapsHold()
      reads this, txs
    {
      forall n :: n in txs.items ==> !Overspends(txs.items[n], costcap, gascap)
    }

    ghost predicate Valid()
      reads this, txs
    {
      txs.Valid() && CapsHold()
    }

    constructor (strict: bool)
      ensures Valid() && fresh(txs) && this.strict == strict && txs.items == map[]
    {
      this.strict, costcap, gascap := strict, 0, 0;
      txs := new TxSortedMap();
    }

    /** Inserts `tx` unless it fails to outbid the transaction with its nonce. */
    method Add(tx: Transaction, priceBump: nat) returns (inserted: bool, prev: Option<Transaction>)
      requires Valid()
      modifies this, txs
      ensures Valid()
      ensures inserted == Fits(old(txs.items), tx, priceBump)
      ensures tx.nonce in old(txs.items) ==>
                var held := old(txs.items)[tx.nonce].gasPrice;
                inserted == (held < tx.gasPrice && held * (100 + priceBump) < 100 * (tx.gasPrice + 1))
      ensures inserted ==> txs.items == old(txs.items)[tx.nonce := tx]
      ensures inserted ==>
                prev == if tx.nonce in old(txs.items) then Some(old(txs.items)[tx.nonce]) else None
      ensures !inserted ==> txs.items == old(txs.items) && prev == None
    {
      prev := txs.Get(tx.nonce);
      if prev.Some? {
        var threshold := prev.value.gasPrice * (100 + priceBump) / 100;
        if prev.value.gasPrice >= tx.gasPrice || tx.gasPrice < threshold {
          inserted, prev := false, None;
          return;
        }
      }
      txs.Put(tx);
      if costcap < tx.Cost() {
        costcap := tx.Cost();
      }
      if gascap < tx.gas {
        gascap := tx.gas;
      }
      inserted := true;
    }

    method Forward(threshold: nat) returns (removed: seq<Transaction>)
      requires Valid()
      modifies txs
      ensures Valid() && txs.items == AtLeast(old(txs.items), threshold)
      ensures Enumerates(removed, Below(old(txs.items), threshold))
    {
      removed := txs.Forward(threshold);
    }

    /** Deletes everything above the lowest nonce removed. */
    method DropCutOff(ghost m: NonceMap, ghost bad: NonceMap, removed: seq<Transaction>)
      returns (invalids: seq<Transaction>)
      requires txs.Valid() && Keyed(m) && removed != [] && Lists(removed, bad)
      requires txs.items == Without(m, bad) && forall k :: k in bad ==> k in m && m[k] == bad[k]
      modifies txs
      ensures Keyed(txs.items) && txs.items == Kept(m, bad, true) && Lists(invalids, CutOff(m, bad))
    {
      var lowest := LowestNonce(removed);
      var above := (tx: Transaction) => tx.nonce > lowest;
      forall k | k in bad ensures lowest <= k {
        var i := ListingIsComplete(removed, bad, k);
      }
      invalids := txs.FilterItems(above);
      StrictCut(m, bad, lowest, above);
    }

    /** Whatever the caps, the result is that of a full scan. */
    method Filter(costLimit: int, gasLimit: nat) returns (removed: seq<Transaction>, invalids: seq<Transaction>)
      requires Valid()
      modifies this, txs
      ensures Valid()
      ensures txs.items == Kept(old(txs.items), Unpayable(old(txs.items), costLimit, gasLimit), strict)
      ensures Lists(removed, Unpayable(old(txs.items), costLimit, gasLimit))
      ensures strict ==> Lists(invalids, CutOff(old(txs.items), Unpayable(old(txs.items), costLimit, gasLimit)))
      ensures !strict ==> invalids == []
    {
      removed, invalids := [], [];
      ghost var m := txs.items;
      ghost var bad := Unpayable(m, costLimit, gasLimit);
      if costcap <= costLimit && gascap <= gasLimit {
        NothingUnpayable(m, costcap, gascap, costLimit, gasLimit);
        return;
      }
      costcap, gascap := costLimit, gasLimit;
      var overspends := tx => Overspends(tx, costLimit, gasLimit);
      removed := txs.Filter(overspends);
      assert Select(m, overspends) == bad;
      if removed == [] {
        NothingListed(m, bad);
        return;
      }
      if strict {
        invalids := DropCutOff(m, bad, removed);
      } else {
        assert Without(m, bad) == Kept(m, bad, false);
      }
      txs.Reheap();
    }

    method Cap(threshold: nat) returns (drops: seq<Transaction>)
      requires Valid()
      modifies txs
      ensures Valid() && txs.items == Lowest(old(txs.items), threshold)
      ensures Lists(drops, Without(old(txs.items), Lowest(old(txs.items), threshold)))
    {
      drops := txs.Cap(threshold);
    }

    /** Deletes the transaction with `tx`'s nonce and, in a strict list, all after it. */
    method Remove(tx: Transaction) returns (removed: bool, invalids: seq<Transaction>)
      requires Valid()
      modifies txs
      ensures Valid() && removed == (tx.nonce in old(txs.items))
      ensures !removed ==> txs.items == old(txs.items) && invalids == []
      ensures removed && strict ==> txs.items == Below(old(txs.items), tx.nonce)
      ensures removed && strict ==> Lists(invalids, AtLeast(old(txs.items), tx.nonce + 1))
      ensures removed && !strict ==> txs.items == old(txs.items) - {tx.nonce} && invalids == []
    {
      invalids := [];
      ghost var m := txs.items;
      removed := txs.Remove(tx.nonce);
      if removed && strict {
        var above := (other: Transaction) => other.nonce > tx.nonce;
        invalids := txs.Filter(above);
        RemovedCut(m, tx.nonce, above);
      }
    }

    method Ready(start: nat) returns (ready: seq<Transaction>)
      requires Valid()
      modifies txs
      ensures Valid() && txs.items == Without(old(txs.items), NonceMaps.Ready(old(txs.items), start))
      ensures Enumerates(ready, NonceMaps.Ready(old(txs.items), start))
    {
      ready := txs.Ready(start);
    }
  }

  /** What leaves and what stays partition the list; a strict list keeps what is below all that left. */
  lemma FilterPartitions(m: NonceMap, gone: NonceMap, n: nat)
    requires forall k :: k in gone ==> k in m && m[k] == gone[k]
    ensures n in Kept(m, gone, true) <==> n in m && forall k :: k in gone ==> n < k
    ensures n in m <==> n in Kept(m, gone, true) || n in gone || n in CutOff(m, gone)
    ensures n in Kept(m, gone, true) ==> n !in gone && n !in CutOff(m, gone)
    ensures n in gone ==> n !in CutOff(m, gone)
    ensures n in m <==> n in Kept(m, gone, false) || n in gone
    ensures n in Kept(m, gone, false) ==> n !in gone
  {
  }

  lemma StrictKeepsGapless(m: NonceMap, gone: NonceMap)
    requires Gapless(m)
    requires forall k :: k in gone ==> k in m && m[k] == gone[k]
    ensures Gapless(Kept(m, gone, true))
  {
    var kept := Kept(m, gone, true);
    forall i, j, k | i in kept && k in kept && i < j < k ensures j in kept {
      assert j in m;
    }
  }
}
