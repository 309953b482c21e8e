/** The transaction index of core/tx_pool.go and the price heap over it of core/tx_list.go. */
module TxPricing {
  import opened Basics
  import opened Transactions
  import Heap

  type Lookup = map<Hash, Transaction>

  function Hashes(m: Lookup): (s: set<Hash>)
    ensures forall h :: h in s <==> h in m
  {
    set h | h in m
  }

  ghost function SlotSum(s: set<Hash>): nat {
    if s == {} then 0 else var h :| h in s; NumSlots(h.tx) + SlotSum(s - {h})
  }

  /** The sum does not depend on the order of summation. */
  lemma {:induction false} SlotSumWithout(s: set<Hash>, h: Hash)
    requires h in s
    ensures SlotSum(s) == NumSlots(h.tx) + SlotSum(s - {h})
  {
    var first :| first in s && SlotSum(s) == NumSlots(first.tx) + SlotSum(s - {first});
    if first != h {
      SlotSumWithout(s - {first}, h);
      SlotSumWithout(s - {h}, first);
      assert s - {first} - {h} == s - {h} - {first};
    }
  }

  /** Every transaction takes at least one slot. */
  lemma {:induction false} SlotSumAtLeastCount(s: set<Hash>)
    ensures |s| <= SlotSum(s)
  {
    if s != {} {
      var h :| h in s;
      SlotSumAtLeastCount(s - {h});
      SlotSumWithout(s, h);
    }
  }

  class TxLookup {
    var all: Lookup
    var slots: int

    ghost predicate Valid()
      reads this
    {
      && (forall h :: h in all ==> all[h].Hash() == h)
      && slots == SlotSum(Hashes(all))
    }

    constructor ()
      ensures Valid() && all == map[]
    {
      all, slots := map[], 0;
    }

    method Get(hash: Hash) returns (tx: Option<Transaction>)
      ensures tx == if hash in all then Some(all[hash]) else None
    {
      tx := if hash in all then Some(all[hash]) else None;
    }

    method Count() returns (n: nat)
      ensures n == |Hashes(all)|
    {
      n := |Hashes(all)|;
    }

    method Add(tx: Transaction)
      requires Valid() && tx.Hash() !in all
      modifies this
      ensures Valid() && all == old(all)[tx.Hash() := tx]
    {
      slots := slots + NumSlots(tx);
      var more := all[tx.Hash() := tx];
      SlotSumWithout(Hashes(more), tx.Hash());
      assert Hashes(more) - {tx.Hash()} == Hashes(all);
      all := more;
    }

    /** Callers must name a transaction that is held: the source reads its size. */
    method Remove(hash: Hash)
      requires Valid() && hash in all
      modifies this
      ensures Valid() && all == old(all) - {hash}
    {
      slots := slots - NumSlots(all[hash]);
      SlotSumWithout(Hashes(all), hash);
      assert Hashes(all - {hash}) == Hashes(all) - {hash};
      all := all - {hash};
    }
  }

  /** Cheapest first; among equal prices the highest nonce first. */
  predicate PriceLess(a: Transaction, b: Transaction) {
    a.gasPrice < b.gasPrice || (a.gasPrice == b.gasPrice && a.nonce > b.nonce)
  }

  predicate IsLocal(tx: Transaction, locals: set<Address>) {
    tx.signed && tx.from in locals
  }

  ghost predicate NoDuplicates(items: multiset<Transaction>) {
    forall tx :: tx in items ==> items[tx] == 1
  }

  /** How many of `items` are not local. */
  ghost function Discardable(items: seq<Transaction>, locals: set<Address>): nat {
    if items == [] then 0
    else Discardable(items[..|items| - 1], locals) + if IsLocal(items[|items| - 1], locals) then 0 else 1
  }

  ghost function TotalSlots(txs: seq<Transaction>): nat {
    if txs == [] then 0 else TotalSlots(txs[..|txs| - 1]) + NumSlots(txs[|txs| - 1])
  }

  /** `drop` holds the cheapest transactions of the pool that are not local: just enough to free `want`
      slots, or all of them. */
  ghost predicate Cheapest(drop: seq<Transaction>, all: Lookup, locals: set<Address>, want: nat) {
    && (forall tx :: tx in drop ==> tx.Hash() in all && !IsLocal(tx, locals))
    && (forall d, h :: d in drop && h in all && !IsLocal(h.tx, locals) && h.tx !in drop ==> !PriceLess(h.tx, d))
    && (TotalSlots(drop) >= want || forall h :: h in all ==> IsLocal(h.tx, locals) || h.tx in drop)
    && (drop != [] ==> TotalSlots(drop[..|drop| - 1]) < want)
  }

  /** Whatever bids less than a dropped transaction is dropped with it and, at the same price, whatever has a higher
      nonce: of one sender's transactions at one price the last ones go. */
  lemma DropOrder(drop: seq<Transaction>, all: Lookup, locals: set<Address>, want: nat, d: Transaction, h: Hash)
    requires Cheapest(drop, all, locals, want) && d in drop && h in all && !IsLocal(h.tx, locals)
    requires h.tx.gasPrice < d.gasPrice || (h.tx.gasPrice == d.gasPrice && d.nonce < h.tx.nonce)
    ensures h.tx in drop
  {
  }

  /** The slots `Discard` sets out to free. */
  ghost function Wanted(slots: nat, items: seq<Transaction>, locals: set<Address>): nat {
    if locals == {} || slots <= Discardable(items, locals) then slots else Discardable(items, locals)
  }

  lemma {:induction false} DiscardableGrows(items: seq<Transaction>, locals: set<Address>, i: nat)
    requires i <= |items|
    ensures Discardable(items[..i], locals) <= Discardable(items, locals)
  {
    if i < |items| {
      DiscardableGrows(items[..|items| - 1], locals, i);
      assert items[..|items| - 1][..i] == items[..i];
    } else {
      assert items[..i] == items;
    }
  }

  lemma {:induction false} DiscardableIsBounded(items: seq<Transaction>, locals: set<Address>)
    ensures Discardable(items, locals) <= |items|
  {
    if items == [] {
    } else {
      DiscardableIsBounded(items[..|items| - 1], locals);
    }
  }

  lemma PartsHaveNoDuplicates(items: seq<Transaction>, save: seq<Transaction>, drop: seq<Transaction>,
                              before: seq<Transaction>)
    requires multiset(items) + multiset(save) + multiset(drop) <= multiset(before)
    ensures NoDuplicates(multiset(before)) ==>
              NoDuplicates(multiset(drop)) && NoDuplicates(multiset(items) + multiset(save))
    ensures forall y :: y in items || y in save ==> y in before
  {
    forall y | y in items || y in save ensures y in before {
      assert y in multiset(items) || y in multiset(save);
      assert y in multiset(before);
    }
    forall y | y in multiset(drop) || y in multiset(items) + multiset(save) ensures y in multiset(before) {
      assert (multiset(items) + multiset(save) + multiset(drop))[y] <= multiset(before)[y];
    }
  }

  ghost predicate AccountedInFull(all: Lookup, before: seq<Transaction>, parts: multiset<Transaction>) {
    parts <= multiset(before) && forall y :: parts[y] < multiset(before)[y] ==> y.Hash() !in all
  }

  /** The entries `parts` are those of the heap `before`, but for some stale ones; guarded by `Open`. */
  ghost predicate Accounted(all: Lookup, before: seq<Transaction>, parts: multiset<Transaction>) {
    forall k {:trigger Open(k)} :: Open(k) ==> AccountedInFull(all, before, parts)
  }

  lemma AccountedLess(all: Lookup, before: seq<Transaction>, parts: multiset<Transaction>, tx: Transaction)
    requires Accounted(all, before, parts) && tx.Hash() !in all
    ensures Accounted(all, before, parts - multiset{tx})
  {
    assert Open(0);
  }

  lemma AccountedParts(all: Lookup, before: seq<Transaction>, items: seq<Transaction>, save: seq<Transaction>,
                       drop: seq<Transaction>)
    requires Accounted(all, before, multiset(items) + multiset(save) + multiset(drop))
    ensures NoDuplicates(multiset(before)) ==>
              NoDuplicates(multiset(drop)) && NoDuplicates(multiset(items) + multiset(save))
    ensures forall y :: y in items || y in save ==> y in before
  {
    assert Open(0);
    PartsHaveNoDuplicates(items, save, drop, before);
  }

  lemma SameMultiset(a: seq<Transaction>, b: seq<Transaction>)
    requires multiset(a) == multiset(b)
    ensures |a| == |b| && forall tx :: tx in a <==> tx in b
  {
    assert |multiset(a)| == |multiset(b)|;
    forall tx ensures tx in a <==> tx in b {
      assert tx in multiset(a) <==> tx in multiset(b);
    }
  }

  ghost predicate ScannedInFull(all: Lookup, locals: set<Address>, before: seq<Transaction>, items: seq<Transaction>,
                                save: seq<Transaction>, drop: seq<Transaction>) {
    && multiset(items) + multiset(save) + multiset(drop) <= multiset(before)
    && (forall h :: h in all ==> h.tx in items || h.tx in save || h.tx in drop)
    && (forall tx :: tx in drop ==> tx.Hash() in all && !IsLocal(tx, locals))
    && (forall tx :: tx in save ==> IsLocal(tx, locals))
    && (forall d, y :: d in drop && y in items ==> !PriceLess(y, d))
  }

  /** A scan of the heap `before` has left `items` in it, put `save` aside and taken `drop`. */
  ghost predicate Scanned(all: Lookup, locals: set<Address>, before: seq<Transaction>, items: seq<Transaction>,
                          save: seq<Transaction>, drop: seq<Transaction>) {
    forall k {:trigger Open(k)} :: Open(k) ==> ScannedInFull(all, locals, before, items, save, drop)
  }

  lemma ScanStarts(all: Lookup, locals: set<Address>, before: seq<Transaction>)
    requires forall h :: h in all ==> h.tx in before
    ensures Scanned(all, locals, before, before, [], [])
  {
  }

  /** One more entry popped: a stale one is lost, a local one put aside, any other one taken. */
  lemma ScanStep(all: Lookup, locals: set<Address>, before: seq<Transaction>, items: seq<Transaction>,
                 save: seq<Transaction>, drop: seq<Transaction>, tx: Transaction, items': seq<Transaction>,
                 save': seq<Transaction>, drop': seq<Transaction>)
    requires Scanned(all, locals, before, items, save, drop)
    requires multiset(items) == multiset(items') + multiset{tx}
    requires forall y :: y in items ==> !PriceLess(y, tx)
    requires forall y :: y in items <==> y in items' || y == tx
    requires save' == if tx.Hash() in all && IsLocal(tx, locals) then save + [tx] else save
    requires drop' == if tx.Hash() in all && !IsLocal(tx, locals) then drop + [tx] else drop
    ensures Scanned(all, locals, before, items', save', drop')
  {
    assert Open(0);
    assert multiset(items') + multiset(save') + multiset(drop') <= multiset(items) + multiset(save) + multiset(drop);
  }

  lemma ScanEnds(all: Lookup, locals: set<Address>, before: seq<Transaction>, items: seq<Transaction>,
                 save: seq<Transaction>, drop: seq<Transaction>, want: nat)
    requires Scanned(all, locals, before, items, save, drop) && (items == [] || TotalSlots(drop) >= want)
    requires drop != [] ==> TotalSlots(drop[..|drop| - 1]) < want
    ensures Cheapest(drop, all, locals, want)
    ensures forall h :: h in all ==> h.tx in items || h.tx in save || h.tx in drop
    ensures NoDuplicates(multiset(before)) ==>
              NoDuplicates(multiset(drop)) && NoDuplicates(multiset(items) + multiset(save))
    ensures forall y :: y in items || y in save ==> y in before
  {
    assert Open(0);
    PartsHaveNoDuplicates(items, save, drop, before);
  }

  /** The heap `held` is the heap `heap` less some stale entries. */
  ghost predicate Pruned(all: Lookup, heap: seq<Transaction>, held: seq<Transaction>) {
    && multiset(held) <= multiset(heap)
    && (forall y :: multiset(held)[y] < multiset(heap)[y] ==> y.Hash() !in all)
    && (forall h :: h in all ==> h.tx in held)
  }

  lemma AddedCount(all: Lookup, tx: Transaction)
    requires tx.Hash() !in all
    ensures |Hashes(all[tx.Hash() := tx])| == |Hashes(all)| + 1
  {
    assert Hashes(all[tx.Hash() := tx]) == Hashes(all) + {tx.Hash()};
  }

  lemma RemovedCount(all: Lookup, h: Hash)
    requires h in all
    ensures |Hashes(all - {h})| == |Hashes(all)| - 1
  {
    assert Hashes(all) == Hashes(all - {h}) + {h};
  }

  /** A heap that covers the index has as many entries at least. */
  lemma {:induction false} CoverCount(all: Lookup, items: seq<Transaction>)
    requires forall h :: h in all ==> h.tx in items
    ensures |Hashes(all)| <= |items|
  {
    if items == [] {
      assert Hashes(all) == {};
    } else {
      var n := |items| - 1;
      var h := items[n].Hash();
      CoverCount(all - {h}, items[..n]);
      assert Hashes(all) - {h} == Hashes(all - {h});
    }
  }

  class TxPricedList {
    const all: TxLookup
    var items: seq<Transaction>
    var stales: int

    ghost predicate Valid()
      reads this
    {
      Heap.IsHeap(items, PriceLess)
    }

    /** Every transaction of the pool but those of `but` is in the heap. */
    ghost predicate Covers(but: seq<Transaction>)
      reads this, all
    {
      forall h :: h in all.all ==> h.tx in items || h.tx in but
    }

    /** The entries that are not counted as stale are as many as the pool's transactions, but for `owed` removals not
        reported yet; no transaction has two entries. */
    ghost predicate Balanced(owed: int)
      reads this, all
    {
      NoDuplicates(multiset(items)) && |items| - stales == |Hashes(all.all)| + owed
    }

    constructor (all: TxLookup)
      requires all.all == map[]
      ensures Valid() && Covers([]) && Balanced(0) && this.all == all && items == []
    {
      this.all, items, stales := all, [], 0;
    }

    method Put(tx: Transaction)
      requires Valid()
      modifies this
      ensures Valid() && multiset(items) == multiset(old(items)) + multiset{tx} && stales == old(stales)
    {
      items := Heap.Push(items, PriceLess, tx);
    }

    method Range() returns (txs: seq<Transaction>)
      requires all.Valid()
      ensures forall h :: h in all.all ==> h.tx in txs
      ensures NoDuplicates(multiset(txs)) && |txs| == |Hashes(all.all)| && forall tx :: tx in txs ==> tx.Hash() in all.all
    {
      txs := [];
      var todo := Hashes(all.all);
      while todo != {}
        invariant todo <= Hashes(all.all)
        invariant forall h :: h in all.all ==> (h in todo <==> h.tx !in txs)
        invariant forall tx :: tx in txs ==> tx.Hash() in all.all
        invariant NoDuplicates(multiset(txs)) && |txs| + |todo| == |Hashes(all.all)|
      {
        var h :| h in todo;
        assert all.all[h].Hash() == h;
        assert h.tx !in multiset(txs);
        todo := todo - {h};
        txs := txs + [all.all[h]];
      }
    }

    /** Reports `count` removals; rebuilds the heap from the pool when stale entries pass a quarter. */
    method Removed(count: nat)
      requires Valid() && all.Valid()
      modifies this
      ensures Valid()
      ensures old(Covers([])) ==> Covers([])
      ensures old(Balanced(count)) ==> Balanced(0)
      ensures if old(stales) + count <= |old(items)| / 4 then items == old(items) && stales == old(stales) + count
              else stales == 0 && Covers([]) && Balanced(0) && forall y :: y in items ==> y.Hash() in all.all
      ensures old(Covers([])) ==> |items| <= |old(items)|
    {
      stales := stales + count;
      if stales <= |items| / 4 {
        return;
      }
      stales := 0;
      var txs := Range();
      items := Heap.Init(txs, PriceLess);
      SameMultiset(items, txs);
      if old(Covers([])) {
        CoverCount(all.all, old(items));
      }
    }

    /** Pops the cheapest entry. */
    method Pop() returns (tx: Transaction)
      requires Valid() && items != []
      modifies this`items
      ensures Valid() && multiset(old(items)) == multiset(items) + multiset{tx}
      ensures tx == old(items)[0] && tx in old(items) && |items| == |old(items)| - 1
      ensures forall y :: y in old(items) ==> !PriceLess(y, tx)
      ensures forall y :: y in old(items) <==> y in items || y == tx
    {
      forall y | y in items ensures !PriceLess(y, items[0]) {
        var k: nat :| k < |items| && items[k] == y;
        Heap.RootIsLeast(items, PriceLess, k);
      }
      ghost var before := items;
      tx, items := Heap.Pop(items, PriceLess);
      SameMultiset(before, items + [tx]);
    }

    /** Puts back what a scan took out of the heap. */
    method Restore(save: seq<Transaction>)
      requires Valid()
      modifies this`items
      ensures Valid() && multiset(items) == multiset(old(items)) + multiset(save)
      ensures |items| == |old(items)| + |save|
      ensures forall y :: y in items <==> y in old(items) || y in save
    {
      ghost var before := items;
      for i := 0 to |save|
        invariant Valid() && multiset(items) == multiset(before + save[..i])
      {
        assert save[..i + 1] == save[..i] + [save[i]];
        items := Heap.Push(items, PriceLess, save[i]);
      }
      assert save[..|save|] == save;
      SameMultiset(items, before + save);
    }

    lemma HeadIsCheapest()
      requires Valid() && items != []
      ensures forall y :: y in items ==> items[0].gasPrice <= y.gasPrice
    {
      forall y | y in items ensures items[0].gasPrice <= y.gasPrice {
        var k: nat :| k < |items| && items[k] == y;
        Heap.RootIsLeast(items, PriceLess, k);
      }
    }

    /** Whether a transaction that is not local bids no more than the cheapest one of the pool. */
    method Underpriced(tx: Transaction, locals: set<Address>) returns (r: bool)
      requires Valid() && all.Valid() && Covers([])
      modifies this`items, this`stales
      ensures Valid() && Covers([])
      ensures old(Balanced(0)) ==> Balanced(0)
      ensures Pruned(all.all, old(items), items) && (IsLocal(tx, locals) ==> items == old(items))
      ensures r <==> !IsLocal(tx, locals) && all.all != map[] &&
                     forall h :: h in all.all ==> tx.gasPrice <= h.tx.gasPrice
    {
      if IsLocal(tx, locals) {
        return false;
      }
      ghost var before := items;
      while items != []
        invariant Valid() && Pruned(all.all, before, items)
        invariant |items| - stales == old(|items| - stales)
        decreases |items|
      {
        if items[0].Hash() in all.all {
          break;
        }
        var head := Pop();
        stales := stales - 1;
      }
      if items == [] {
        assert forall h :: h in all.all ==> h.tx in items;
        return false;
      }
      var cheapest := items[0];
      HeadIsCheapest();
      r := tx.gasPrice <= cheapest.gasPrice;
      assert cheapest.Hash() in all.all;
    }

    /** Takes out of the heap exactly the pool's transactions priced below `threshold` that are not local. */
    method Cap(threshold: nat, locals: set<Address>) returns (drop: seq<Transaction>)
      requires Valid() && all.Valid() && Covers([])
      modifies this`items, this`stales
      ensures Valid() && Covers(drop)
      ensures forall tx :: tx in drop <==>
                           tx.Hash() in all.all && !IsLocal(tx, locals) && tx.gasPrice < threshold
      ensures old(Balanced(0)) ==> NoDuplicates(multiset(drop)) && Balanced(-|drop|)
      ensures forall y :: y in items ==> y in old(items)
      ensures |items| + |drop| - stales == old(|items| - stales)
      ensures Accounted(all.all, old(items), multiset(items) + multiset(drop))
      ensures forall y :: y in items && y.Hash() in all.all && y.gasPrice < threshold ==> IsLocal(y, locals)
    {
      ghost var before := items;
      drop := [];
      var save := [];
      assert multiset(items) + multiset(save) + multiset(drop) == multiset(before);
      while items != []
        invariant Valid() && Accounted(all.all, before, multiset(items) + multiset(save) + multiset(drop))
        invariant |items| + |save| + |drop| - stales == old(|items| - stales)
        invariant forall h :: h in all.all ==> h.tx in items || h.tx in save || h.tx in drop
        invariant forall tx :: tx in drop ==> tx.Hash() in all.all && !IsLocal(tx, locals) && tx.gasPrice < threshold
        invariant forall tx :: tx in save && tx.gasPrice < threshold ==> IsLocal(tx, locals)
        decreases |items|
      {
        ghost var parts := multiset(items) + multiset(save) + multiset(drop);
        var tx := Pop();
        if tx.Hash() !in all.all {
          AccountedLess(all.all, before, parts, tx);
          assert multiset(items) + multiset(save) + multiset(drop) == parts - multiset{tx};
          stales := stales - 1;
          continue;
        }
        assert multiset(items) + multiset(save + [tx]) + multiset(drop) == parts;
        if tx.gasPrice >= threshold {
          save := save + [tx];
          break;
        }
        if IsLocal(tx, locals) {
          save := save + [tx];
        } else {
          assert multiset(items) + multiset(save) + multiset(drop + [tx]) == parts;
          drop := drop + [tx];
        }
      }
      AccountedParts(all.all, before, items, save, drop);
      Restore(save);
    }

    /** The number of entries that are not local, but at most `slots`. */
    method CountDiscardable(slots: nat, locals: set<Address>) returns (n: nat)
      ensures slots <= n ==> slots <= Discardable(items, locals)
      ensures n < slots ==> n == Discardable(items, locals)
    {
      n := 0;
      var i := 0;
      while i < |items|
        invariant 0 <= i <= |items| && n == Discardable(items[..i], locals)
      {
        assert items[..i + 1][..i] == items[..i];
        if !IsLocal(items[i], locals) {
          n := n + 1;
        }
        i := i + 1;
        if n >= slots {
          break;
        }
      }
      DiscardableGrows(items, locals, i);
      assert items[..|items|] == items;
    }

    /** Takes out of the heap the cheapest transactions that are not local, until they free `want` slots. */
    method TakeCheapest(want: nat, locals: set<Address>) returns (drop: seq<Transaction>)
      requires Valid() && all.Valid() && Covers([])
      modifies this`items, this`stales
      ensures Valid() && Covers(drop) && Cheapest(drop, all.all, locals, want)
      ensures old(Balanced(0)) ==> NoDuplicates(multiset(drop)) && Balanced(-|drop|)
      ensures |items| <= |old(items)|
    {
      ghost var before := items;
      ghost var net := |items| - stales;
      drop := [];
      var save := [];
      var left: int := want;
      ScanStarts(all.all, locals, before);
      while items != [] && left > 0
        invariant Valid() && Scanned(all.all, locals, before, items, save, drop)
        invariant |items| + |save| + |drop| - stales == net && |items| + |save| <= |before|
        invariant left == want - TotalSlots(drop)
        invariant drop != [] ==> TotalSlots(drop[..|drop| - 1]) < want
        decreases |items|
      {
        ghost var popped, saved, dropped := items, save, drop;
        var tx := Pop();
        if tx.Hash() !in all.all {
          stales := stales - 1;
        } else if IsLocal(tx, locals) {
          save := save + [tx];
        } else {
          assert (drop + [tx])[..|drop|] == drop;
          drop := drop + [tx];
          left := left - NumSlots(tx);
        }
        ScanStep(all.all, locals, before, popped, saved, dropped, tx, items, save, drop);
      }
      ScanEnds(all.all, locals, before, items, save, drop, want);
      Restore(save);
    }

    /** Takes out of the heap the cheapest transactions that are not local, until they free `slots` slots. The
        source panics on a negative capacity when it is asked for more slots than the heap has entries and no
        account is local. */
    method Discard(slots: nat, locals: set<Address>) returns (drop: seq<Transaction>, crash: bool)
      requires Valid() && all.Valid() && Covers([])
      modifies this`items, this`stales
      ensures crash <==> locals == {} && |old(items)| < slots
      ensures crash ==> drop == [] && items == old(items) && stales == old(stales)
      ensures Valid() && Covers(drop)
      ensures !crash ==> Cheapest(drop, all.all, locals, Wanted(slots, old(items), locals))
      ensures old(Balanced(0)) ==> NoDuplicates(multiset(drop)) && Balanced(-|drop|)
      ensures |items| <= |old(items)|
    {
      var want := slots;
      if locals != {} {
        want := CountDiscardable(slots, locals);
        if slots < want {
          want := slots;
        }
      }
      if want == 0 {
        return [], false;
      }
      if |items| - want < 0 {
        DiscardableIsBounded(items, locals);
        return [], true;
      }
      drop := TakeCheapest(want, locals);
      crash := false;
    }
  }

  /** A transfer of nothing by account `a`. */
  function Bid(a: Address, gasPrice: nat): Transaction {
    Transaction(a, true, 0, gasPrice, 21_000, 0, false, [], 110)
  }

  /** Adds a transaction to the index and to the price heap. */
  method Enter(l: TxPricedList, tx: Transaction)
    requires l.Valid() && l.all.Valid() && l.Covers([]) && tx.Hash() !in l.all.all
    modifies l, l.all
    ensures l.Valid() && l.all.Valid() && l.Covers([]) && l.all.all == old(l.all.all)[tx.Hash() := tx]
    ensures |Hashes(l.all.all)| == |Hashes(old(l.all.all))| + 1
    ensures multiset(l.items) == multiset(old(l.items)) + multiset{tx} && l.stales == old(l.stales)
    ensures |l.items| == |old(l.items)| + 1 && forall y :: y in l.items <==> y in old(l.items) || y == tx
  {
    ghost var before := l.items;
    AddedCount(l.all.all, tx);
    l.all.Add(tx);
    l.Put(tx);
    SameMultiset(l.items, before + [tx]);
  }

  /** A heap that holds `cheap`, and transactions that bid more. */
  ghost predicate Stocked(l: TxPricedList, cheap: Transaction)
    reads l, l.all
  {
    && l.Valid() && l.all.Valid() && l.Covers([]) && cheap in multiset(l.items)
    && (forall h :: h in l.all.all ==> h.tx == cheap || h.tx.gasPrice == 5)
    && (forall y :: y in l.items ==> y == cheap || y.Hash() in l.all.all)
  }

  /** One more account bids. */
  method EnterBid(l: TxPricedList, cheap: Transaction, a: Address)
    requires Stocked(l, cheap) && cheap.Hash() in l.all.all && forall h :: h in l.all.all ==> h.tx.from < a
    modifies l, l.all
    ensures Stocked(l, cheap) && cheap.Hash() in l.all.all && forall h :: h in l.all.all ==> h.tx.from < a + 1
    ensures |l.items| == |old(l.items)| + 1 && l.stales == old(l.stales)
    ensures |Hashes(l.all.all)| == |Hashes(old(l.all.all))| + 1
  {
    Enter(l, Bid(a, 5));
  }

  method FourBids(cheap: Transaction) returns (l: TxPricedList)
    requires cheap == Bid(0, 1)
    ensures Stocked(l, cheap) && fresh(l) && fresh(l.all) && cheap.Hash() in l.all.all
    ensures |l.items| == 4 && l.stales == 0 && |Hashes(l.all.all)| == 4
  {
    var all := new TxLookup();
    l := new TxPricedList(all);
    Enter(l, cheap);
    EnterBid(l, cheap, 1);
    EnterBid(l, cheap, 2);
    EnterBid(l, cheap, 3);
  }

  /** A heap with a stale entry of a transaction that was put into it again. */
  method PutTwice(cheap: Transaction) returns (l: TxPricedList)
    requires cheap == Bid(0, 1)
    ensures Stocked(l, cheap) && fresh(l) && fresh(l.all) && cheap.Hash() in l.all.all
    ensures |l.items| == 5 && l.stales == 1 && |Hashes(l.all.all)| == 4 && 2 <= multiset(l.items)[cheap]
  {
    l := FourBids(cheap);
    RemovedCount(l.all.all, cheap.Hash());
    l.all.Remove(cheap.Hash());
    l.Removed(1);
    Enter(l, cheap);
  }

  lemma AllOfThemDropped(all: Lookup, before: seq<Transaction>, items: seq<Transaction>, drop: seq<Transaction>,
                         cheap: Transaction)
    requires Accounted(all, before, multiset(items) + multiset(drop)) && cheap !in items && 2 <= multiset(before)[cheap]
    requires forall y :: y in before ==> y.Hash() in all
    ensures |items| + |drop| == |before| && 2 <= |drop|
  {
    assert Open(0);
    forall y ensures (multiset(items) + multiset(drop))[y] == multiset(before)[y] {
      assert y in multiset(before) ==> y in before;
    }
    assert multiset(items) + multiset(drop) == multiset(before);
    assert |multiset(items) + multiset(drop)| == |multiset(before)|;
    assert multiset(drop)[cheap] == multiset(before)[cheap];
    assert |multiset(drop) - multiset{cheap, cheap}| == |drop| - 2;
  }

  /** A transaction is put into the heap again while its stale entry is still there: both entries are dropped for it, but
      the stale one stays counted. */
  method StalesGoWrong() returns (l: TxPricedList)
    ensures l.Valid() && l.all.Valid() && l.Covers([]) && |l.items| - l.stales < |Hashes(l.all.all)|
  {
    var cheap := Bid(0, 1);
    l := PutTwice(cheap);
    ghost var before := l.items;
    var drop := l.Cap(2, {});
    AllOfThemDropped(l.all.all, before, l.items, drop, cheap);
    RemovedCount(l.all.all, cheap.Hash());
    l.all.Remove(cheap.Hash());
  }
}
