/** The nonce-sorted transaction map of core/tx_list.go: a map, a nonce heap and a sorted cache. */
module TxSortedMaps {
  import opened Basics
  import opened Transactions
  import opened NonceMaps
  import Heap

  predicate NonceLess(a: nat, b: nat) {
    a < b
  }

  predicate TxNonceLess(a: Transaction, b: Transaction) {
    a.nonce < b.nonce
  }

  /** The elements of a set in some order, as a Go `range` over map keys visits them. */
  method Enumerate(keys: set<nat>) returns (s: seq<nat>)
    ensures multiset(s) == multiset(keys)
  {
    s := [];
    var todo := keys;
    ghost var done := {};
    while todo != {}
      invariant multiset(s) == multiset(done) && done !! todo && done + todo == keys
    {
      var n :| n in todo;
      todo, done := todo - {n}, done + {n};
      s := s + [n];
    }
    assert done == keys;
  }

  lemma KeyJoins(m: NonceMap, tx: Transaction)
    requires Keyed(m)
    ensures Keyed(m[tx.nonce := tx])
    ensures multiset(Keys(m[tx.nonce := tx])) ==
              multiset(Keys(m)) + if tx.nonce in m then multiset{} else multiset{tx.nonce}
  {
    assert Keys(m[tx.nonce := tx]) == Keys(m) + {tx.nonce};
  }

  lemma KeyLeaves(m: NonceMap, n: nat)
    requires n in m
    ensures multiset(Keys(m - {n})) == multiset(Keys(m)) - multiset{n}
    ensures Size(m - {n}) == Size(m) - 1
  {
    assert Keys(m) == Keys(m - {n}) + {n};
  }

  /** The transactions of `m` in the order of its sorted nonces. */
  lemma SortedNonces(m: NonceMap, sorted: seq<nat>) returns (c: seq<Transaction>)
    requires Keyed(m) && multiset(sorted) == multiset(Keys(m)) && Heap.Sorted(sorted, NonceLess)
    ensures Enumerates(c, m) && |c| == |sorted| == Size(m)
    ensures forall i :: 0 <= i < |c| ==> c[i].nonce == sorted[i]
  {
    forall i | 0 <= i < |sorted| ensures sorted[i] in m {
      assert sorted[i] in multiset(sorted);
    }
    c := seq(|sorted|, i requires 0 <= i < |sorted| => m[sorted[i]]);
    forall i, j | 0 <= i < j < |sorted| ensures sorted[i] < sorted[j] {
      if sorted[i] == sorted[j] {
        CountAtLeastTwo(sorted, i, j);
      }
    }
    assert |multiset(sorted)| == |multiset(Keys(m))|;
  }

  lemma CapOne(c: seq<Transaction>, m: NonceMap, size: nat, left: NonceMap)
    requires Keyed(m) && Enumerates(c, m) && 0 < size <= |c|
    requires left == Lowest(m, size) - {c[size - 1].nonce}
    ensures left == Lowest(m, size - 1)
    ensures c[size - 1].nonce in Lowest(m, size) && Lowest(m, size)[c[size - 1].nonce] == c[size - 1]
  {
    RankIsPosition(c, m, size - 1);
    forall n | n in m && Rank(m, n) == size - 1 ensures n == c[size - 1].nonce {
      var i := ListingIsComplete(c, m, n);
      RankIsPosition(c, m, i);
    }
  }

  lemma DistinctMultiset<T>(s: seq<T>, keys: set<T>)
    requires forall i, j :: 0 <= i < j < |s| ==> s[i] != s[j]
    requires forall x :: x in s <==> x in keys
    ensures multiset(s) == multiset(keys)
  {
    forall x ensures multiset(s)[x] == multiset(keys)[x] {
      if x in s {
        var k: nat :| k < |s| && s[k] == x;
        CountAtMostOne(s, k);
      }
    }
  }

  lemma KeptIndex(c: seq<Transaction>, m: NonceMap, sorted: seq<nat>, k: nat)
    requires Keyed(m) && Enumerates(c, m) && k <= |c| == |sorted|
    requires forall i :: 0 <= i < |c| ==> c[i].nonce == sorted[i]
    ensures multiset(sorted[..k]) == multiset(Keys(Lowest(m, k)))
    ensures Enumerates(c[..k], Lowest(m, k))
  {
    PrefixIsLowest(c, m, k);
    forall n ensures n in sorted[..k] <==> n in Lowest(m, k) {
      if n in Lowest(m, k) {
        var i := ListingIsComplete(c[..k], Lowest(m, k), n);
        assert sorted[..k][i] == n;
      }
      if n in sorted[..k] {
        var i :| 0 <= i < k && sorted[i] == n;
        assert c[..k][i].nonce == n;
      }
    }
    DistinctMultiset(sorted[..k], Keys(Lowest(m, k)));
  }

  lemma DroppedList(c: seq<Transaction>, m: NonceMap, k: nat, drops: seq<Transaction>)
    requires Keyed(m) && Enumerates(c, m) && k <= |c|
    requires |drops| == |c| - k && forall i :: 0 <= i < |drops| ==> drops[i] == c[|c| - 1 - i]
    ensures Lists(drops, Without(m, Lowest(m, k)))
    ensures forall i, j :: 0 <= i < j < |drops| ==> drops[j].nonce < drops[i].nonce
  {
    var gone := Without(m, Lowest(m, k));
    forall i | 0 <= i < |drops| ensures drops[i].nonce in gone && gone[drops[i].nonce] == drops[i] {
      RankIsPosition(c, m, |c| - 1 - i);
    }
    assert Size(gone) == |c| - k by {
      PrefixIsLowest(c, m, k);
      assert Keys(m) == Keys(Lowest(m, k)) + Keys(gone);
    }
  }

  lemma RunEnds(m: NonceMap, lo: nat, next: nat)
    requires lo in m && (forall n :: n in m ==> lo <= n) && lo < next && next !in m
    requires forall k :: lo <= k < next ==> k in m
    ensures Without(m, Below(m, next)) == AtLeast(m, next)
    ensures forall start: nat :: lo <= start ==> Ready(m, start) == Below(m, next)
  {
    forall n | n in m ensures InRun(m, n) <==> n < next {
      if next < n { assert !(next < lo); }
    }
  }

  lemma SelectOne(m: NonceMap, f: Transaction -> bool, todo: set<nat>, n: nat, removed: seq<Transaction>)
    requires Keyed(m) && n in todo && todo <= Keys(m) && Lists(removed, Select(m - todo, f))
    ensures f(m[n]) ==> Lists(removed + [m[n]], Select(m - (todo - {n}), f))
    ensures !f(m[n]) ==> Select(m - (todo - {n}), f) == Select(m - todo, f)
  {
    if f(m[n]) {
      ListOneMore(removed, Select(m - todo, f), m[n]);
      assert Select(m - (todo - {n}), f) == Select(m - todo, f)[n := m[n]];
    }
  }

  lemma SelectLeaves(m: NonceMap, f: Transaction -> bool, todo: set<nat>, n: nat)
    requires n in todo && todo <= Keys(m)
    ensures f(m[n]) ==> Without(m, Select(m - todo, f)) - {n} == Without(m, Select(m - (todo - {n}), f))
    ensures todo <= Keys(Without(m, Select(m - todo, f)))
  {
  }

  lemma ForwardEnds(m: NonceMap, cut: nat, threshold: nat)
    requires cut <= threshold && forall n :: n in AtLeast(m, cut) ==> threshold <= n
    ensures AtLeast(m, cut) == AtLeast(m, threshold) && Below(m, cut) == Below(m, threshold)
  {
    forall n | n in m && n < threshold ensures n < cut {
      assert n in AtLeast(m, cut) <==> cut <= n;
    }
  }

  lemma ForwardOne(m: NonceMap, cut: nat, tx: Transaction, removed: seq<Transaction>, left: NonceMap)
    requires Keyed(m) && Enumerates(removed, Below(m, cut))
    requires cut <= tx.nonce && tx.nonce in m && m[tx.nonce] == tx
    requires forall n :: n in AtLeast(m, cut) ==> tx.nonce <= n
    requires left == AtLeast(m, cut) - {tx.nonce}
    ensures left == AtLeast(m, tx.nonce + 1)
    ensures Enumerates(removed + [tx], Below(m, tx.nonce + 1))
  {
    assert Below(m, tx.nonce + 1) == Below(m, cut)[tx.nonce := tx] by {
      forall n | n in m && cut <= n < tx.nonce + 1 ensures n == tx.nonce {
        assert n in AtLeast(m, cut);
      }
    }
    ListOneMore(removed, Below(m, cut), tx);
  }

  ghost predicate PoppedInFull(m: NonceMap, lo: nat, n: nat, ready: seq<Transaction>, rest: NonceMap) {
    && rest == AtLeast(m, n) && Enumerates(ready, Below(m, n)) && forall k :: lo <= k < n ==> k in m
  }

  /** The nonces of `m` below `n` have been popped, and those from `lo` on were all there; guarded by `Open`. */
  ghost predicate Popped(m: NonceMap, lo: nat, n: nat, ready: seq<Transaction>, rest: NonceMap) {
    forall k {:trigger Open(k)} :: Open(k) ==> PoppedInFull(m, lo, n, ready, rest)
  }

  lemma PoppedNone(m: NonceMap, lo: nat)
    requires forall n :: n in m ==> lo <= n
    ensures Popped(m, lo, lo, [], m)
  {
    assert AtLeast(m, lo) == m && Below(m, lo) == map[];
  }

  lemma PoppedOne(m: NonceMap, lo: nat, n: nat, ready: seq<Transaction>, rest: NonceMap, tx: Transaction)
    requires Popped(m, lo, n, ready, rest) && Keyed(m) && n in rest && tx == rest[n]
    ensures Popped(m, lo, n + 1, ready + [tx], rest - {n})
  {
    assert Open(0);
    ForwardOne(m, n, tx, ready, rest - {n});
  }

  class TxSortedMap {
    var items: NonceMap
    var index: seq<nat>
    var cache: Option<seq<Transaction>>

    /** The index is a duplicate-free heap of exactly the nonces held. */
    ghost predicate Indexed()
      reads this
    {
      && Keyed(items)
      && Heap.IsHeap(index, NonceLess)
      && multiset(index) == multiset(Keys(items))
    }

    /** The three views agree. */
    ghost predicate Valid()
      reads this
    {
      && Indexed()
      && (cache.Some? ==> Enumerates(cache.value, items))
    }

    constructor ()
      ensures Valid() && items == map[]
    {
      items, index, cache := map[], [], None;
    }

    lemma IndexHolds(n: nat)
      requires Indexed()
      ensures n in index <==> n in items
    {
      assert n in index <==> n in multiset(index);
    }

    /** The head of the index is the lowest nonce. */
    lemma HeadIsLowest()
      requires Indexed()
      ensures index == [] <==> items == map[]
      ensures index != [] ==> index[0] in items && forall n :: n in items ==> index[0] <= n
    {
      assert |multiset(index)| == |multiset(Keys(items))| == Size(items);
      if index != [] {
        IndexHolds(index[0]);
        forall n | n in items ensures index[0] <= n {
          IndexHolds(n);
          var k: nat :| k < |index| && index[k] == n;
          Heap.RootIsLeast(index, NonceLess, k);
        }
      }
    }

    method Get(nonce: nat) returns (tx: Option<Transaction>)
      ensures tx == if nonce in items then Some(items[nonce]) else None
    {
      tx := if nonce in items then Some(items[nonce]) else None;
    }

    method Put(tx: Transaction)
      requires Valid()
      modifies this
      ensures Valid() && items == old(items)[tx.nonce := tx]
    {
      KeyJoins(items, tx);
      if tx.nonce !in items {
        index := Heap.Push(index, NonceLess, tx.nonce);
      }
      items, cache := items[tx.nonce := tx], None;
    }

    /** Pops the lowest nonce of the index and deletes its transaction. */
    method PopLowest() returns (tx: Transaction)
      requires Indexed() && index != []
      modifies this`items, this`index
      ensures Indexed()
      ensures tx.nonce in old(items) && tx == old(items)[tx.nonce]
      ensures forall n :: n in old(items) ==> tx.nonce <= n
      ensures items == old(items) - {tx.nonce} && tx.nonce == old(index)[0] && |index| < |old(index)|
    {
      HeadIsLowest();
      var nonce;
      nonce, index := Heap.Pop(index, NonceLess);
      assert |multiset(old(index))| == |multiset(index)| + 1;
      tx := items[nonce];
      KeyLeaves(items, nonce);
      items := items - {nonce};
    }

    /** Pops nonces off the index while they are below `threshold`. */
    method PopBelow(threshold: nat) returns (removed: seq<Transaction>)
      requires Indexed()
      modifies this`items, this`index
      ensures Indexed() && items == AtLeast(old(items), threshold)
      ensures Enumerates(removed, Below(old(items), threshold))
    {
      ghost var m := items;
      removed := [];
      ghost var cut: nat := 0;
      while index != [] && index[0] < threshold
        invariant Indexed() && cut <= threshold
        invariant items == AtLeast(m, cut)
        invariant Enumerates(removed, Below(m, cut))
        decreases |index|
      {
        var tx := PopLowest();
        ForwardOne(m, cut, tx, removed, items);
        removed, cut := removed + [tx], tx.nonce + 1;
      }
      HeadIsLowest();
      ForwardEnds(m, cut, threshold);
    }

    /** Removes and returns, in nonce order, everything below `threshold`. */
    method Forward(threshold: nat) returns (removed: seq<Transaction>)
      requires Valid()
      modifies this
      ensures Valid() && items == AtLeast(old(items), threshold)
      ensures Enumerates(removed, Below(old(items), threshold))
    {
      removed := PopBelow(threshold);
      if cache.Some? {
        SplitEnumeration(cache.value, old(items), threshold, removed);
        cache := Some(cache.value[|removed|..]);
      }
    }

    /** Deletes what `f` selects; the index is left for `Reheap`. */
    method FilterItems(f: Transaction -> bool) returns (removed: seq<Transaction>)
      requires Keyed(items)
      modifies this`items, this`cache
      ensures Lists(removed, Select(old(items), f))
      ensures items == Without(old(items), Select(old(items), f))
      ensures cache == if removed == [] then old(cache) else None
    {
      removed := [];
      var todo := Keys(items);
      while todo != {}
        invariant todo <= Keys(old(items)) && cache == old(cache)
        invariant items == Without(old(items), Select(old(items) - todo, f))
        invariant Lists(removed, Select(old(items) - todo, f))
      {
        var n :| n in todo;
        var tx := items[n];
        SelectOne(old(items), f, todo, n, removed);
        SelectLeaves(old(items), f, todo, n);
        todo := todo - {n};
        if f(tx) {
          removed := removed + [tx];
          items := items - {n};
        }
      }
      assert old(items) - {} == old(items);
      if removed != [] {
        cache := None;
      }
    }

    method Reheap()
      requires Keyed(items)
      modifies this`index, this`cache
      ensures Valid() && cache == None
    {
      var nonces := Enumerate(Keys(items));
      index := Heap.Init(nonces, NonceLess);
      cache := None;
    }

    /** Removes and returns exactly what `f` selects. */
    method Filter(f: Transaction -> bool) returns (removed: seq<Transaction>)
      requires Valid()
      modifies this
      ensures Valid() && items == Without(old(items), Select(old(items), f))
      ensures Lists(removed, Select(old(items), f))
    {
      removed := FilterItems(f);
      if removed != [] {
        Reheap();
      } else {
        assert items == old(items);
      }
    }

    /** Rebuilds the index from the nonces kept, and trims the cache. */
    method Shorten(nonces: seq<nat>, dropped: nat, ghost c: seq<Transaction>)
      requires Keyed(items) && multiset(nonces) == multiset(Keys(items))
      requires dropped <= |c| && Enumerates(c[..|c| - dropped], items) && (cache.Some? ==> cache.value == c)
      modifies this`index, this`cache
      ensures Valid()
    {
      index := Heap.Init(nonces, NonceLess);
      if cache.Some? {
        cache := Some(cache.value[..|cache.value| - dropped]);
      }
    }

    /** The deleting loop of `Cap`, over the sorted nonces. */
    method DropAbove(sorted: seq<nat>, threshold: nat, ghost c: seq<Transaction>) returns (drops: seq<Transaction>)
      requires Keyed(items) && Enumerates(c, items) && threshold <= |c| == |sorted| == Size(items)
      requires forall i :: 0 <= i < |c| ==> c[i].nonce == sorted[i]
      modifies this`items
      ensures items == Lowest(old(items), threshold) && Enumerates(c[..threshold], items) && Keyed(items)
      ensures multiset(sorted[..threshold]) == multiset(Keys(items)) && |drops| == |c| - threshold
      ensures Lists(drops, Without(old(items), Lowest(old(items), threshold)))
      ensures forall i, j :: 0 <= i < j < |drops| ==> drops[j].nonce < drops[i].nonce
    {
      ghost var m := items;
      drops := [];
      LowestIsAll(items, Size(items));
      var size := Size(items);
      while size > threshold
        invariant threshold <= size <= |c|
        invariant items == Lowest(m, size)
        invariant |drops| == |c| - size && forall i :: 0 <= i < |drops| ==> drops[i] == c[|c| - 1 - i]
      {
        CapOne(c, m, size, items - {sorted[size - 1]});
        drops := drops + [items[sorted[size - 1]]];
        items := items - {sorted[size - 1]};
        size := size - 1;
      }
      KeptIndex(c, m, sorted, threshold);
      DroppedList(c, m, threshold, drops);
    }

    method CapSorted(threshold: nat) returns (drops: seq<Transaction>)
      requires Valid() && threshold < Size(items)
      modifies this
      ensures Valid() && items == Lowest(old(items), threshold)
      ensures Lists(drops, Without(old(items), Lowest(old(items), threshold)))
      ensures forall i, j :: 0 <= i < j < |drops| ==> drops[j].nonce < drops[i].nonce
    {
      var sorted := Heap.Sort(index, NonceLess);
      ghost var c := SortedNonces(items, sorted);
      if cache.Some? {
        EnumerationIsUnique(cache.value, c, items);
      }
      drops := DropAbove(sorted, threshold, c);
      Shorten(sorted[..threshold], |drops|, c);
    }

    /** Keeps the `threshold` lowest nonces; returns the others, highest first. */
    method Cap(threshold: nat) returns (drops: seq<Transaction>)
      requires Valid()
      modifies this
      ensures Valid() && items == Lowest(old(items), threshold)
      ensures Lists(drops, Without(old(items), Lowest(old(items), threshold)))
      ensures forall i, j :: 0 <= i < j < |drops| ==> drops[j].nonce < drops[i].nonce
    {
      drops := [];
      if Size(items) <= threshold {
        LowestIsAll(items, threshold);
      } else {
        drops := CapSorted(threshold);
      }
    }

    /** Deletes one nonce; says whether it was held. */
    method Remove(nonce: nat) returns (ok: bool)
      requires Valid()
      modifies this
      ensures Valid() && ok == (nonce in old(items)) && items == old(items) - {nonce}
    {
      ok := nonce in items;
      if !ok {
        return;
      }
      IndexHolds(nonce);
      var i := 0;
      while index[i] != nonce
        invariant 0 <= i < |index|
        invariant nonce in index[i..]
        decreases |index| - i
      {
        i := i + 1;
      }
      var x;
      x, index := Heap.Remove(index, NonceLess, i);
      KeyLeaves(items, nonce);
      items, cache := items - {nonce}, None;
    }

    /** Pops nonces off the index as long as they follow each other. */
    method PopRun() returns (ready: seq<Transaction>, ghost next: nat)
      requires Indexed() && index != []
      modifies this`items, this`index
      ensures Indexed() && old(index)[0] < next && items == AtLeast(old(items), next) && next !in old(items)
      ensures forall k :: old(index)[0] <= k < next ==> k in old(items)
      ensures Enumerates(ready, Below(old(items), next))
    {
      ghost var m, lo := items, index[0];
      ready := [];
      HeadIsLowest();
      PoppedNone(m, lo);
      var n := index[0];
      while index != [] && index[0] == n
        invariant Indexed() && Popped(m, lo, n, ready, items) && lo <= n && (n == lo ==> index != [] && index[0] == n)
        decreases |index|
      {
        ghost var rest := items;
        var tx := PopLowest();
        PoppedOne(m, lo, n, ready, rest, tx);
        ready, n := ready + [tx], n + 1;
      }
      HeadIsLowest();
      assert Open(0);
      assert n in m <==> n in AtLeast(m, n);
      next := n;
    }

    /** Removes and returns the maximal gapless run from the lowest nonce, if that is at most `start`. */
    method Ready(start: nat) returns (ready: seq<Transaction>)
      requires Valid()
      modifies this
      ensures Valid() && items == Without(old(items), NonceMaps.Ready(old(items), start))
      ensures Enumerates(ready, NonceMaps.Ready(old(items), start))
    {
      ready := [];
      HeadIsLowest();
      if index == [] || index[0] > start {
        return;
      }
      ghost var next;
      ready, next := PopRun();
      cache := None;
      RunEnds(old(items), old(index)[0], next);
    }

    /** The transactions held, in no particular order. */
    method Values() returns (s: seq<Transaction>)
      requires Keyed(items)
      ensures Lists(s, items)
    {
      s := [];
      var todo := Keys(items);
      while todo != {}
        invariant todo <= Keys(items)
        invariant Lists(s, items - todo)
      {
        var n :| n in todo;
        ListOneMore(s, items - todo, items[n]);
        assert items - (todo - {n}) == (items - todo)[n := items[n]];
        todo := todo - {n};
        s := s + [items[n]];
      }
      assert items - {} == items;
    }

    method Flatten() returns (txs: seq<Transaction>)
      requires Valid()
      modifies this`cache
      ensures Valid() && cache == Some(txs) && Enumerates(txs, items)
    {
      if cache == None {
        var s := Values();
        txs := Heap.Sort(s, TxNonceLess);
        PermutedListing(s, txs, items);
        cache := Some(txs);
      }
      txs := cache.value;
    }

    /** The transaction with the highest nonce. */
    method LastElement() returns (tx: Transaction)
      requires Valid() && items != map[]
      modifies this`cache
      ensures Valid()
      ensures tx.nonce in items && items[tx.nonce] == tx && forall n :: n in items ==> n <= tx.nonce
    {
      var txs := Flatten();
      tx := txs[|txs| - 1];
      forall n | n in items ensures n <= tx.nonce {
        var i := ListingIsComplete(txs, items, n);
      }
    }
  }
}
