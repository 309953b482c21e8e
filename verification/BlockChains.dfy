/** The canonical block chain of core/blockchain.go: fork choice, reorganisation and the transaction index. */
module BlockChains {
  import opened Basics
  import opened Headers
  import opened HeaderChains

  /** The highest common ancestor. */
  function Common(a: Hash, b: Hash): Hash
    decreases a, b
  {
    if a.Zero? || b.Zero? then Zero
    else if a == b then a
    else if a.header.number < b.header.number then Common(a, b.header.parentHash)
    else if b.header.number < a.header.number then Common(a.header.parentHash, b)
    else Common(a.header.parentHash, b.header.parentHash)
  }

  /** In a tree, two hashes have the same ancestors exactly up to the number of their common ancestor. */
  lemma {:induction false} CommonIsHighest(s: set<Hash>, genesis: Header, a: Hash, b: Hash)
    requires Rooted(s, genesis) && a in s && b in s
    ensures Linked(s, genesis, a) && Linked(s, genesis, b)
    ensures Common(a, b) in s && Linked(s, genesis, Common(a, b))
    ensures Common(a, b).header.number <= a.header.number && Common(a, b).header.number <= b.header.number
    ensures forall n: nat :: n <= Common(a, b).header.number ==> AncestorAt(a, n) == AncestorAt(b, n)
    ensures forall n: nat :: Common(a, b).header.number < n ==> AncestorAt(a, n) != AncestorAt(b, n) || a == b
    ensures Common(a, b) == AncestorAt(a, Common(a, b).header.number)
    decreases a, b
  {
    assert Linked(s, genesis, a) && Linked(s, genesis, b);
    if a != b {
      if a.header.number < b.header.number {
        CommonIsHighest(s, genesis, a, b.header.parentHash);
      } else if b.header.number < a.header.number {
        CommonIsHighest(s, genesis, a.header.parentHash, b);
      } else {
        if a.header.number == 0 {
          RootIsLowest(s, genesis, a);
          RootIsLowest(s, genesis, b);
          assert false;
        }
        CommonIsHighest(s, genesis, a.header.parentHash, b.header.parentHash);
      }
    }
  }

  /** The hashes from `h` down to, and without, number `n`. */
  function Branch(h: Hash, n: nat): seq<Hash> {
    if h.Zero? || h.header.number <= n then [] else [h] + Branch(h.header.parentHash, n)
  }

  /** The number of the last block with `tx` on the path of `h` above number `n`. */
  function FindAbove(h: Hash, n: nat, tx: nat): Option<nat> {
    if h.Zero? || h.header.number <= n then None
    else if tx in h.header.txs then Some(h.header.number)
    else FindAbove(h.header.parentHash, n, tx)
  }

  /** The number of the last block with `tx` on the path of `h`. */
  function Find(h: Hash, tx: nat): Option<nat> {
    if h.Zero? then None
    else if tx in h.header.txs then Some(h.header.number)
    else if h.header.number == 0 then None
    else Find(h.header.parentHash, tx)
  }

  lemma {:induction false} FindSplits(s: set<Hash>, genesis: Header, h: Hash, n: nat, tx: nat)
    requires Rooted(s, genesis) && h in s && h.HashOf? && n <= h.header.number
    ensures Find(h, tx) == if FindAbove(h, n, tx).Some? then FindAbove(h, n, tx) else Find(AncestorAt(h, n), tx)
    decreases h
  {
    assert Linked(s, genesis, h);
    if n < h.header.number && tx !in h.header.txs {
      FindSplits(s, genesis, h.header.parentHash, n, tx);
    }
  }

  /** Some block of `chain` has `tx`. */
  ghost predicate OnBranch(chain: seq<Hash>, tx: nat) {
    exists i :: 0 <= i < |chain| && chain[i].HashOf? && tx in chain[i].header.txs
  }

  lemma OnBranchGrows(chain: seq<Hash>, more: seq<Hash>, tx: nat)
    ensures OnBranch(chain + more, tx) <==> OnBranch(chain, tx) || OnBranch(more, tx)
  {
    if OnBranch(more, tx) {
      var i :| 0 <= i < |more| && more[i].HashOf? && tx in more[i].header.txs;
      assert (chain + more)[|chain| + i] == more[i];
    }
    if OnBranch(chain, tx) {
      var i :| 0 <= i < |chain| && chain[i].HashOf? && tx in chain[i].header.txs;
      assert (chain + more)[i] == chain[i];
    }
  }

  lemma {:induction false} BranchFinds(h: Hash, n: nat, tx: nat)
    ensures OnBranch(Branch(h, n), tx) <==> FindAbove(h, n, tx).Some?
    decreases h
  {
    if h.HashOf? && n < h.header.number {
      BranchFinds(h.header.parentHash, n, tx);
      OnBranchGrows([h], Branch(h.header.parentHash, n), tx);
      assert OnBranch([h], tx) <==> tx in h.header.txs by {
        if tx in h.header.txs { assert [h][0] == h; }
      }
    }
  }

  /** The block with number `k`, counted from the far end of the branch. */
  lemma {:induction false} BranchAt(s: set<Hash>, genesis: Header, h: Hash, n: nat, i: nat)
    requires Rooted(s, genesis) && h in s && h.HashOf? && n <= h.header.number && i < |Branch(h, n)|
    ensures |Branch(h, n)| == h.header.number - n
    ensures Branch(h, n)[i] in s && Branch(h, n)[i] == AncestorAt(h, h.header.number - i)
    ensures Branch(h, n)[i].HashOf? && Branch(h, n)[i].header.number == h.header.number - i
    decreases h
  {
    assert Linked(s, genesis, h);
    if n + 1 < h.header.number {
      BranchAt(s, genesis, h.header.parentHash, n, if i == 0 then 0 else i - 1);
    }
  }

  /** What remains of `a` without the members of `b`, in order. */
  function Minus(a: seq<nat>, b: set<nat>): seq<nat> {
    if a == [] then [] else Minus(a[..|a| - 1], b) + if a[|a| - 1] in b then [] else [a[|a| - 1]]
  }

  lemma {:induction false} MinusHolds(a: seq<nat>, b: set<nat>, tx: nat)
    ensures tx in Minus(a, b) <==> tx in a && tx !in b
  {
    if a != [] {
      MinusHolds(a[..|a| - 1], b, tx);
    }
  }

  method TxDifference(a: seq<nat>, b: seq<nat>) returns (keep: seq<nat>)
    ensures keep == Minus(a, Members(b))
  {
    var remove: set<nat> := {};
    for i := 0 to |b|
      invariant remove == Members(b[..i])
    {
      remove := remove + {b[i]};
    }
    assert b[..|b|] == b;
    keep := [];
    for i := 0 to |a|
      invariant keep == Minus(a[..i], remove)
    {
      assert a[..i + 1][..i] == a[..i];
      if a[i] !in remove {
        keep := keep + [a[i]];
      }
    }
    assert a[..|a|] == a;
  }

  /** The markers up to `k` are those of `to`; above they are still those of `from`. */
  ghost predicate Moving(markers: Markers, from: Hash, to: Hash, k: nat) {
    && from.HashOf?
    && (forall n {:trigger Marker(markers, n)} :: 0 <= n <= k ==> Marker(markers, n) == AncestorAt(to, n))
    && (forall n {:trigger Marker(markers, n)} :: k < n ==>
          Marker(markers, n) == if n <= from.header.number then AncestorAt(from, n) else Zero)
  }

  function Entry(lookup: map<nat, nat>, tx: nat): Option<nat> {
    if tx in lookup then Some(lookup[tx]) else None
  }

  /** The lookup entries are exactly the transactions on the path of `h`, each with its last block. */
  ghost predicate Indexes(lookup: map<nat, nat>, h: Hash) {
    forall tx :: Entry(lookup, tx) == Find(h, tx)
  }

  /** Every entry is right, but some may be missing. */
  ghost predicate PartlyIndexes(lookup: map<nat, nat>, h: Hash) {
    forall tx :: Entry(lookup, tx) == None || Entry(lookup, tx) == Find(h, tx)
  }

  /** The entries above `n` are those of the path of `to`, the others are still those of `lookup0`. */
  ghost predicate Reindexing(lookup: map<nat, nat>, lookup0: map<nat, nat>, to: Hash, n: nat) {
    forall tx :: Entry(lookup, tx) == if FindAbove(to, n, tx).Some? then FindAbove(to, n, tx) else Entry(lookup0, tx)
  }

  /** The markers on `0..n` are the ancestor path of `head`, whose number is `n`; above, up to `top`, there are others. */
  ghost predicate Banded(markers: Markers, head: Hash, top: nat) {
    && head.HashOf? && head.header.number <= top
    && (forall n {:trigger Marker(markers, n)} :: 0 <= n <= head.header.number ==> Marker(markers, n) == AncestorAt(head, n))
    && (forall n {:trigger Marker(markers, n)} :: 0 <= n <= top ==> Marker(markers, n) != Zero)
    && (forall n {:trigger Marker(markers, n)} :: top < n ==> Marker(markers, n) == Zero)
  }

  /** The markers up to `k` are those of `to`; above they are still those of `markers0`. */
  ghost predicate Shifted(markers: Markers, markers0: Markers, to: Hash, k: nat) {
    && (forall n {:trigger Marker(markers, n)} :: 0 <= n <= k ==> Marker(markers, n) == AncestorAt(to, n))
    && (forall n {:trigger Marker(markers, n)} :: k < n ==> Marker(markers, n) == Marker(markers0, n))
  }

  /** A band ends at its head exactly if there is no marker right above that. */
  lemma BandIsPath(markers: Markers, head: Hash, top: nat)
    requires Banded(markers, head, top)
    ensures MarksPath(markers, head) <==> top == head.header.number
    ensures MarksPath(markers, head) <==> Marker(markers, head.header.number + 1) == Zero
  {
    assert head.header.number < top ==> Marker(markers, head.header.number + 1) != Zero;
  }

  lemma PathIsBand(s: set<Hash>, genesis: Header, markers: Markers, head: Hash)
    requires Rooted(s, genesis) && head in s && MarksPath(markers, head)
    ensures Banded(markers, head, head.header.number)
  {
    forall n: nat | n <= head.header.number ensures AncestorAt(head, n) != Zero {
      AncestorInTree(s, genesis, head, n);
    }
  }

  lemma ParentBelow(s: set<Hash>, genesis: Header, h: Hash, k: nat)
    requires Rooted(s, genesis) && h in s && h.HashOf? && k < h.header.number
    ensures AncestorAt(h, k + 1) in s && AncestorAt(h, k + 1).HashOf? && AncestorAt(h, k + 1).header.number == k + 1
    ensures AncestorAt(h, k) == AncestorAt(h, k + 1).header.parentHash
  {
    AncestorInTree(s, genesis, h, k + 1);
    AncestorTwice(h, k + 1, k);
    assert Linked(s, genesis, AncestorAt(h, k + 1));
  }

  lemma ShiftStep(markers: Markers, markers0: Markers, to: Hash, k: nat, markers': Markers, k': nat)
    requires Shifted(markers, markers0, to, k) && k' == k + 1 && markers' == markers[k' := AncestorAt(to, k')]
    ensures Shifted(markers', markers0, to, k')
  {
    forall n: int ensures Marker(markers', n) == if n == k' then AncestorAt(to, k') else Marker(markers, n) {
    }
  }

  lemma MoveStep(markers: Markers, from: Hash, to: Hash, k: nat, markers': Markers, k': nat)
    requires Moving(markers, from, to, k) && k' == k + 1 && markers' == markers[k' := AncestorAt(to, k')]
    ensures Moving(markers', from, to, k')
  {
    forall n: int ensures Marker(markers', n) == if n == k' then AncestorAt(to, k') else Marker(markers, n) {
    }
  }

  lemma ReindexStep(lookup: map<nat, nat>, lookup0: map<nat, nat>, below: Hash, n: nat, lookup': map<nat, nat>, at: Hash)
    requires Reindexing(lookup, lookup0, below, n) && at.HashOf? && n < at.header.number && at.header.parentHash == below
    requires forall tx :: Entry(lookup', tx) == if tx in at.header.txs then Some(at.header.number) else Entry(lookup, tx)
    ensures Reindexing(lookup', lookup0, at, n)
  {
  }

  /** As before, but what is on the old branch only is gone. */
  ghost predicate Reindexed(lookup: map<nat, nat>, lookup0: map<nat, nat>, from: Hash, to: Hash, n: nat) {
    forall tx :: Entry(lookup, tx) == if FindAbove(to, n, tx).Some? then FindAbove(to, n, tx)
                                      else if FindAbove(from, n, tx).Some? then None else Entry(lookup0, tx)
  }

  lemma DropOldBranch(lookup: map<nat, nat>, lookup0: map<nat, nat>, from: Hash, to: Hash, n: nat, deleted: seq<nat>,
                      added: seq<nat>, lookup': map<nat, nat>)
    requires Reindexing(lookup, lookup0, to, n) && lookup' == lookup - Members(Minus(deleted, Members(added)))
    requires forall tx :: tx in deleted <==> OnBranch(Branch(from, n), tx)
    requires forall tx :: tx in added <==> FindAbove(to, n, tx).Some?
    ensures Reindexed(lookup', lookup0, from, to, n)
  {
    forall tx: nat
      ensures Entry(lookup', tx) == if tx in deleted && tx !in added then None else Entry(lookup, tx)
      ensures tx in deleted <==> FindAbove(from, n, tx).Some?
    {
      MinusHolds(deleted, Members(added), tx);
      BranchFinds(from, n, tx);
    }
  }

  /** The old branch goes with every transaction that is on it; one that is also below it stays only if the
      new branch has it. */
  ghost predicate NothingLost(from: Hash, to: Hash) {
    && Common(from, to).HashOf? && to.HashOf?
    && forall tx :: FindAbove(from, Common(from, to).header.number, tx).Some? && Find(Common(from, to), tx).Some? ==>
                      FindAbove(to, Common(from, to).header.number, tx).Some? || tx in to.header.txs
  }

  /** Every transaction below the fork that is not on the new branch is not on the old one either and has an entry. */
  ghost predicate IndexSurvives(lookup: map<nat, nat>, from: Hash, to: Hash) {
    && Common(from, to).HashOf? && to.HashOf?
    && forall tx :: Find(Common(from, to), tx).Some? && FindAbove(to, Common(from, to).header.number, tx) == None
                    && tx !in to.header.txs ==>
                      FindAbove(from, Common(from, to).header.number, tx) == None && Entry(lookup, tx).Some?
  }

  /** With an exact index to begin with, that comes down to `NothingLost`. */
  lemma ExactSurvives(s: set<Hash>, genesis: Header, lookup: map<nat, nat>, from: Hash, to: Hash)
    requires Rooted(s, genesis) && from in s && to in s && Indexes(lookup, from)
    ensures IndexSurvives(lookup, from, to) <==> NothingLost(from, to)
  {
    CommonIsHighest(s, genesis, from, to);
    forall tx ensures Entry(lookup, tx) == Find(from, tx) {
    }
    forall tx: nat | FindAbove(from, Common(from, to).header.number, tx) == None
      ensures Find(from, tx) == Find(Common(from, to), tx)
    {
      FindSplits(s, genesis, from, Common(from, to).header.number, tx);
    }
  }

  /** Once the new head is indexed too, every entry is right, and the index is exact if and only if it survives. */
  lemma IndexAfter(s: set<Hash>, genesis: Header, lookup: map<nat, nat>, lookup0: map<nat, nat>, from: Hash, to: Hash,
                   below: Hash, n: nat, lookup': map<nat, nat>)
    requires Rooted(s, genesis) && from in s && to in s && to.HashOf? && Common(from, to).HashOf?
    requires PartlyIndexes(lookup0, from)
    requires n == Common(from, to).header.number && Reindexed(lookup, lookup0, from, below, n)
    requires below == if n == to.header.number then to else to.header.parentHash
    requires forall tx :: Entry(lookup', tx) == if tx in to.header.txs then Some(to.header.number) else Entry(lookup, tx)
    ensures PartlyIndexes(lookup', to) && (Indexes(lookup', to) <==> IndexSurvives(lookup0, from, to))
  {
    CommonIsHighest(s, genesis, from, to);
    forall tx: nat
      ensures Entry(lookup', tx) == None || Entry(lookup', tx) == Find(to, tx)
      ensures Entry(lookup', tx) == Find(to, tx) <==>
              (Find(Common(from, to), tx).Some? && FindAbove(to, n, tx) == None && tx !in to.header.txs ==>
                 FindAbove(from, n, tx) == None && Entry(lookup0, tx).Some?)
    {
      FindSplits(s, genesis, from, n, tx);
      FindSplits(s, genesis, to, n, tx);
    }
  }

  /** The sweep deletes every marker from its start on. */
  lemma SweepClears(markers: Markers, markers0: Markers, from: Hash, top: nat, to: Hash, k: nat, start: nat, batch: Markers,
                    end: nat, markers': Markers)
    requires Banded(markers0, from, top) && Shifted(markers, markers0, to, k) && k <= start
    requires markers' == Written(markers, batch) && start < end && Marker(markers, end) == Zero
    requires forall n :: n in batch <==> start < n < end
    requires forall n :: n in batch ==> batch[n] == Zero
    ensures forall n :: Marker(markers', n) == if start < n then Zero else Marker(markers, n)
  {
    forall n: int ensures Marker(markers', n) == if n in batch then Zero else Marker(markers, n) {
      MarkerWritten(markers, batch, n);
    }
    assert top < end;
  }

  lemma PathGrows(markers: Markers, head: Hash, to: Hash, markers': Markers)
    requires MarksPath(markers, head) && to.HashOf?
    requires to.header.parentHash == head && to.header.number == head.header.number + 1
    requires markers' == markers[to.header.number := to]
    ensures MarksPath(markers', to)
  {
    forall n: int ensures Marker(markers', n) == if n == to.header.number then to else Marker(markers, n) {
    }
  }

  /** Without a sweep the markers are exact if and only if the old chain was not higher. */
  lemma MovedIsPath(markers: Markers, from: Hash, to: Hash)
    requires to.HashOf? && from.HashOf? && Moving(markers, from, to, to.header.number)
    requires forall n: nat :: n <= from.header.number ==> AncestorAt(from, n) != Zero
    ensures MarksPath(markers, to) <==> from.header.number <= to.header.number
  {
    assert to.header.number < from.header.number ==> Marker(markers, from.header.number) != Zero;
  }

  /** The sweep that starts above the current block reaches every marker above the new head. */
  ghost predicate SweepReaches(from: Hash, to: Hash) {
    && Common(from, to).HashOf? && from.HashOf? && to.HashOf?
    && (Common(from, to).header.number + 2 <= to.header.number || from.header.number <= to.header.number)
  }

  /** No transaction repeats along the path of `h`. */
  ghost predicate NoRepeats(h: Hash) {
    h.Zero? || h.header.number == 0 ||
    (NoRepeats(h.header.parentHash) && forall tx :: tx in h.header.txs ==> Find(h.header.parentHash, tx) == None)
  }

  lemma {:induction false} NoneTwice(s: set<Hash>, genesis: Header, h: Hash, n: nat, tx: nat)
    requires Rooted(s, genesis) && h in s && h.HashOf? && n <= h.header.number && NoRepeats(h)
    ensures FindAbove(h, n, tx) == None || Find(AncestorAt(h, n), tx) == None
    decreases h
  {
    assert Linked(s, genesis, h);
    if n < h.header.number {
      NoneTwice(s, genesis, h.header.parentHash, n, tx);
      FindSplits(s, genesis, h.header.parentHash, n, tx);
    }
  }

  lemma NoRepeatsLoseNothing(s: set<Hash>, genesis: Header, from: Hash, to: Hash)
    requires Rooted(s, genesis) && from in s && to in s && NoRepeats(from)
    ensures NothingLost(from, to)
  {
    CommonIsHighest(s, genesis, from, to);
    var n := Common(from, to).header.number;
    forall tx ensures FindAbove(from, n, tx) == None || Find(Common(from, to), tx) == None {
      NoneTwice(s, genesis, from, n, tx);
    }
  }

  /** Everything is moved from the path of `from` to that of `to`, but for `to` itself: `n` is the fork and `k`
      the last number written. */
  ghost predicate Prepared(markers: Markers, lookup: map<nat, nat>, lookup0: map<nat, nat>, from: Hash, to: Hash, n: nat,
                           k: nat) {
    && from.HashOf? && to.HashOf? && Common(from, to).HashOf?
    && n == Common(from, to).header.number <= to.header.number
    && k == (if n == to.header.number then n else to.header.number - 1)
    && (if n + 2 <= to.header.number then MarksPath(markers, to.header.parentHash) else Moving(markers, from, to, k))
    && Reindexed(lookup, lookup0, from, AncestorAt(to, k), n)
  }

  /** Before the head is written it has its marker exactly if it was canonical already. */
  lemma WasMarked(s: set<Hash>, genesis: Header, markers: Markers, lookup: map<nat, nat>, lookup0: map<nat, nat>, from: Hash,
                  to: Hash, n: nat, k: nat)
    requires Rooted(s, genesis) && from in s && to in s && Prepared(markers, lookup, lookup0, from, to, n, k)
    ensures Marker(markers, to.header.number) == to <==> n == to.header.number
    ensures Common(from, to) == to <==> n == to.header.number
  {
    CommonIsHighest(s, genesis, from, to);
    assert AncestorAt(to, to.header.number) == to;
    if n + 2 <= to.header.number {
      assert Linked(s, genesis, to);
    }
  }

  lemma HeadMarked(s: set<Hash>, genesis: Header, markers: Markers, lookup: map<nat, nat>, lookup0: map<nat, nat>, from: Hash,
                   to: Hash, n: nat, k: nat, markers': Markers) returns (top: nat)
    requires Rooted(s, genesis) && from in s && to in s && Prepared(markers, lookup, lookup0, from, to, n, k)
    requires markers' == markers[to.header.number := to]
    ensures Banded(markers', to, top) && (MarksPath(markers', to) <==> SweepReaches(from, to))
  {
    forall m: nat | m <= from.header.number ensures AncestorAt(from, m) != Zero {
      AncestorInTree(s, genesis, from, m);
    }
    if n + 2 <= to.header.number {
      assert Linked(s, genesis, to);
      PathGrows(markers, to.header.parentHash, to, markers');
      PathIsBand(s, genesis, markers', to);
      top := to.header.number;
    } else {
      if n + 1 == to.header.number {
        MoveStep(markers, from, to, k, markers', k + 1);
      } else {
        assert Marker(markers, to.header.number) == to;
        assert markers' == markers;
      }
      MovedIsPath(markers', from, to);
      forall m: nat | m <= to.header.number ensures AncestorAt(to, m) != Zero {
        AncestorInTree(s, genesis, to, m);
      }
      top := if from.header.number < to.header.number then to.header.number else from.header.number;
    }
  }

  /** A child of the head only moves the end of the path up. */
  lemma ChildMarked(s: set<Hash>, genesis: Header, markers: Markers, from: Hash, top: nat, to: Hash, markers': Markers)
    returns (top': nat)
    requires Rooted(s, genesis) && from in s && to in s && Banded(markers, from, top)
    requires to.HashOf? && to.header.parentHash == from && markers' == markers[to.header.number := to]
    ensures Banded(markers', to, top') && (MarksPath(markers', to) <==> Marker(markers, to.header.number + 1) == Zero)
  {
    RootHasNoParent(s, genesis);
    assert Linked(s, genesis, to);
    top' := if top < to.header.number then to.header.number else top;
    forall n: int ensures Marker(markers', n) == if n == to.header.number then to else Marker(markers, n) {
    }
    assert to != Zero;
    BandIsPath(markers', to, top');
  }

  lemma ChildIsReindexed(s: set<Hash>, genesis: Header, lookup: map<nat, nat>, from: Hash, to: Hash)
    requires Rooted(s, genesis) && from in s && to in s && from.HashOf? && to.HashOf? && to.header.parentHash == from
    ensures Common(from, to) == from && from.header.number < to.header.number
    ensures Reindexed(lookup, lookup, from, from, from.header.number)
  {
    RootHasNoParent(s, genesis);
    assert Linked(s, genesis, to);
  }

  lemma HeadIndexed(s: set<Hash>, genesis: Header, markers: Markers, lookup: map<nat, nat>, lookup0: map<nat, nat>, from: Hash,
                    to: Hash, n: nat, k: nat, lookup': map<nat, nat>)
    requires Rooted(s, genesis) && from in s && to in s && Prepared(markers, lookup, lookup0, from, to, n, k)
    requires PartlyIndexes(lookup0, from)
    requires forall tx :: Entry(lookup', tx) == if tx in to.header.txs then Some(to.header.number) else Entry(lookup, tx)
    ensures PartlyIndexes(lookup', to) && (Indexes(lookup', to) <==> IndexSurvives(lookup0, from, to))
  {
    if n != to.header.number {
      ParentBelow(s, genesis, to, k);
    }
    IndexAfter(s, genesis, lookup, lookup0, from, to, AncestorAt(to, k), n, lookup');
  }

  /** What decides between blocks of equal difficulty and number: which of the two are to be preserved, and a coin. */
  datatype Choice = Choice(preserveCurrent: bool, preserveBlock: bool, coin: bool) {
    predicate Prefers(block: Header, current: Header) {
      HeaderChains.Prefers(block, current, !preserveCurrent && (preserveBlock || coin))
    }
  }

  /** Between blocks of one total difficulty and number a current block that is to be preserved stays; otherwise one that
      is to be preserved comes, and else the coin decides. No choice matters between others. */
  lemma PreservedStays(block: Header, current: Header, choice: Choice)
    ensures if TotalDifficulty(block.Hash()) == TotalDifficulty(current.Hash()) && block.number == current.number
            then && (choice.preserveCurrent ==> !choice.Prefers(block, current))
                 && (!choice.preserveCurrent && choice.preserveBlock ==> choice.Prefers(block, current))
                 && (!choice.preserveCurrent && !choice.preserveBlock ==> (choice.Prefers(block, current) <==> choice.coin))
            else choice.Prefers(block, current) <==> !Leads(current, block.Hash())
  {
  }

  /** A block numbered after its parent, and what decides about it. */
  datatype BlockStep = BlockStep(block: Header, choice: Choice) {
    predicate Numbered() {
      block.parentHash.HashOf? ==> block.number == block.parentHash.header.number + 1
    }
  }

  /** Every change of head reaches and keeps what it should. */
  ghost predicate SafeRun(blocks: set<Hash>, current: Header, steps: seq<BlockStep>)
    decreases |steps|
  {
    steps == [] ||
    var block, choice := steps[0].block, steps[0].choice;
    if block.parentHash !in blocks then SafeRun(blocks, current, steps[1..])
    else if choice.Prefers(block, current) then
      && SweepReaches(current.Hash(), block.Hash()) && NothingLost(current.Hash(), block.Hash())
      && SafeRun(blocks + {block.Hash()}, block, steps[1..])
    else SafeRun(blocks + {block.Hash()}, current, steps[1..])
  }

  class BlockChain {
    const genesis: Header
    var blocks: set<Hash>
    var tds: map<Hash, nat>
    var markers: Markers
    var lookup: map<nat, nat>
    var currentBlock: Header
    var currentHeader: Header

    ghost predicate Stored()
      reads this
    {
      && Rooted(blocks, genesis) && currentBlock.Hash() in blocks
      && forall h :: (h in tds <==> h in blocks) && (h in tds ==> tds[h] == TotalDifficulty(h))
    }

    function GetBlock(hash: Hash): Option<Header>
      reads this
    {
      if hash in blocks && hash.HashOf? then Some(hash.header) else None
    }

    /** Walking down from the hashes `a0` and `b0`, `chain` and `branch` were collected on the way to `a` and `b`. */
    ghost predicate Descending(a0: Hash, b0: Hash, a: Hash, b: Hash, chain: seq<Hash>, branch: seq<Hash>)
      reads this
    {
      && Rooted(blocks, genesis) && a in blocks && b in blocks && a.HashOf? && b.HashOf?
      && Common(a0, b0).HashOf? && Common(a, b) == Common(a0, b0)
      && Common(a0, b0).header.number <= a.header.number && Common(a0, b0).header.number <= b.header.number
      && chain + Branch(a, Common(a0, b0).header.number) == Branch(a0, Common(a0, b0).header.number)
      && branch + Branch(b, Common(a0, b0).header.number) == Branch(b0, Common(a0, b0).header.number)
    }

    lemma StepOld(a0: Hash, b0: Hash, a: Hash, b: Hash, chain: seq<Hash>, branch: seq<Hash>)
      requires Descending(a0, b0, a, b, chain, branch) && b.header.number < a.header.number
      ensures Descending(a0, b0, a.header.parentHash, b, chain + [a], branch)
      ensures a.header.parentHash.header.number == a.header.number - 1
    {
      assert Linked(blocks, genesis, a);
      CommonIsHighest(blocks, genesis, a.header.parentHash, b);
    }

    lemma StepNew(a0: Hash, b0: Hash, a: Hash, b: Hash, chain: seq<Hash>, branch: seq<Hash>)
      requires Descending(a0, b0, a, b, chain, branch) && a.header.number < b.header.number
      ensures Descending(a0, b0, a, b.header.parentHash, chain, branch + [b])
      ensures b.header.parentHash.header.number == b.header.number - 1
    {
      assert Linked(blocks, genesis, b);
      CommonIsHighest(blocks, genesis, a, b.header.parentHash);
    }

    lemma StepBoth(a0: Hash, b0: Hash, a: Hash, b: Hash, chain: seq<Hash>, branch: seq<Hash>)
      requires Descending(a0, b0, a, b, chain, branch) && a.header.number == b.header.number && a != b
      ensures Descending(a0, b0, a.header.parentHash, b.header.parentHash, chain + [a], branch + [b])
      ensures a.header.parentHash.header.number == a.header.number - 1 == b.header.parentHash.header.number
    {
      assert Linked(blocks, genesis, a) && Linked(blocks, genesis, b);
      if a.header.number == 0 {
        RootIsLowest(blocks, genesis, a);
        RootIsLowest(blocks, genesis, b);
        assert false;
      }
      CommonIsHighest(blocks, genesis, a.header.parentHash, b.header.parentHash);
    }

    method AddBlock(block: Header, oldChain: seq<Hash>, deleted: seq<nat>) returns (oldChain': seq<Hash>, deleted': seq<nat>)
      requires forall tx :: tx in deleted <==> OnBranch(oldChain, tx)
      ensures oldChain' == oldChain + [block.Hash()]
      ensures forall tx :: tx in deleted' <==> OnBranch(oldChain', tx)
    {
      oldChain', deleted' := oldChain + [block.Hash()], deleted + block.txs;
      forall tx ensures tx in deleted' <==> OnBranch(oldChain', tx) {
        OnBranchGrows(oldChain, [block.Hash()], tx);
        assert OnBranch([block.Hash()], tx) <==> tx in block.txs by {
          if tx in block.txs { assert [block.Hash()][0].header == block; }
        }
      }
    }

    /** Walks the higher of the two blocks down to the number of the other one. */
    method Level(oldBlock: Header, newBlock: Header)
      returns (older: Option<Header>, newer: Option<Header>, oldChain: seq<Hash>, newChain: seq<Hash>, deleted: seq<nat>)
      requires Descending(oldBlock.Hash(), newBlock.Hash(), oldBlock.Hash(), newBlock.Hash(), [], [])
      ensures older.Some? && newer.Some? && older.value.number == newer.value.number
      ensures Descending(oldBlock.Hash(), newBlock.Hash(), older.value.Hash(), newer.value.Hash(), oldChain, newChain)
      ensures forall tx :: tx in deleted <==> OnBranch(oldChain, tx)
    {
      ghost var a0, b0 := oldBlock.Hash(), newBlock.Hash();
      older, newer := Some(oldBlock), Some(newBlock);
      oldChain, newChain, deleted := [], [], [];
      if newBlock.number < oldBlock.number {
        while older.Some? && older.value.number != newBlock.number
          invariant older.Some? && newBlock.number <= older.value.number
          invariant Descending(a0, b0, older.value.Hash(), b0, oldChain, newChain)
          invariant forall tx :: tx in deleted <==> OnBranch(oldChain, tx)
          decreases if older.Some? then older.value.number else 0
        {
          StepOld(a0, b0, older.value.Hash(), b0, oldChain, newChain);
          oldChain, deleted := AddBlock(older.value, oldChain, deleted);
          older := GetBlock(older.value.parentHash);
        }
      } else {
        while newer.Some? && newer.value.number != oldBlock.number
          invariant newer.Some? && oldBlock.number <= newer.value.number
          invariant Descending(a0, b0, a0, newer.value.Hash(), oldChain, newChain)
          decreases if newer.Some? then newer.value.number else 0
        {
          StepNew(a0, b0, a0, newer.value.Hash(), oldChain, newChain);
          newChain := newChain + [newer.value.Hash()];
          newer := GetBlock(newer.value.parentHash);
        }
      }
    }

    /** The branches from the common ancestor of the two blocks, highest first, and the transactions of the old one. */
    method FindCommon(oldBlock: Header, newBlock: Header)
      returns (oldChain: seq<Hash>, newChain: seq<Hash>, deleted: seq<nat>, ok: bool)
      requires Rooted(blocks, genesis) && oldBlock.Hash() in blocks && newBlock.Hash() in blocks
      ensures ok && Common(oldBlock.Hash(), newBlock.Hash()).HashOf?
      ensures var n := Common(oldBlock.Hash(), newBlock.Hash()).header.number;
              oldChain == Branch(oldBlock.Hash(), n) && newChain == Branch(newBlock.Hash(), n)
      ensures forall tx :: tx in deleted <==> OnBranch(oldChain, tx)
    {
      ghost var a0, b0 := oldBlock.Hash(), newBlock.Hash();
      CommonIsHighest(blocks, genesis, a0, b0);
      var older, newer;
      older, newer, oldChain, newChain, deleted := Level(oldBlock, newBlock);
      if older == None || newer == None {
        return oldChain, newChain, deleted, false;
      }
      while older.value != newer.value
        invariant older.Some? && newer.Some? && older.value.number == newer.value.number
        invariant Descending(a0, b0, older.value.Hash(), newer.value.Hash(), oldChain, newChain)
        invariant forall tx :: tx in deleted <==> OnBranch(oldChain, tx)
        decreases older.value.number
      {
        StepBoth(a0, b0, older.value.Hash(), newer.value.Hash(), oldChain, newChain);
        oldChain, deleted := AddBlock(older.value, oldChain, deleted);
        newChain := newChain + [newer.value.Hash()];
        older := GetBlock(older.value.parentHash);
        if older == None {
          return oldChain, newChain, deleted, false;
        }
        newer := GetBlock(newer.value.parentHash);
        if newer == None {
          return oldChain, newChain, deleted, false;
        }
      }
      ok := true;
    }

    /** Makes `block` the head: its marker, its lookup entries and, if it was not canonical, the head header. */
    method WriteHeadBlock(block: Header)
      modifies this`markers, this`lookup, this`currentBlock, this`currentHeader
      ensures currentBlock == block && markers == old(markers)[block.number := block.Hash()]
      ensures forall tx :: Entry(lookup, tx) == if tx in block.txs then Some(block.number) else old(Entry(lookup, tx))
      ensures currentHeader == if old(Marker(markers, block.number)) != block.Hash() then block else old(currentHeader)
    {
      var updateHeads := Marker(markers, block.number) != block.Hash();
      markers := markers[block.number := block.Hash()];
      lookup := lookup + map tx | tx in block.txs :: block.number;
      if updateHeads {
        currentHeader := block;
      }
      currentBlock := block;
    }

    /** Writes the new branch, lowest block first, up to but without its top. */
    method WriteBranch(newChain: seq<Hash>, ghost to: Hash, ghost n: nat) returns (added: seq<nat>)
      requires Rooted(blocks, genesis) && to in blocks && to.HashOf? && n <= to.header.number && newChain == Branch(to, n)
      requires Shifted(markers, markers, to, n)
      modifies this`markers, this`lookup, this`currentBlock, this`currentHeader
      ensures var k: nat := if newChain == [] then n else to.header.number - 1;
              && Shifted(markers, old(markers), to, k) && Reindexing(lookup, old(lookup), AncestorAt(to, k), n)
              && forall tx :: tx in added <==> FindAbove(AncestorAt(to, k), n, tx).Some?
      ensures if |newChain| < 2 then currentBlock == old(currentBlock) else currentBlock.Hash() == to.header.parentHash
      ensures newChain == [] ==> currentHeader == old(currentHeader)
    {
      added := [];
      var i := |newChain| - 1;
      ghost var k: nat := n;
      ghost var markers0, lookup0 := markers, lookup;
      AncestorInTree(blocks, genesis, to, n);
      if newChain != [] { BranchAt(blocks, genesis, to, n, 0); }
      while 1 <= i
        invariant -1 <= i < |newChain| && k == to.header.number - (i + 1) && n <= k && (newChain != [] ==> 0 <= i)
        invariant AncestorAt(to, k).HashOf?
        invariant Shifted(markers, markers0, to, k) && Reindexing(lookup, lookup0, AncestorAt(to, k), n)
        invariant forall tx :: tx in added <==> FindAbove(AncestorAt(to, k), n, tx).Some?
        invariant currentBlock == if i == |newChain| - 1 then old(currentBlock) else AncestorAt(to, k).header
        invariant i == |newChain| - 1 ==> currentHeader == old(currentHeader)
      {
        BranchAt(blocks, genesis, to, n, i);
        ParentBelow(blocks, genesis, to, k);
        ghost var markers', lookup', at := markers, lookup, newChain[i];
        WriteHeadBlock(newChain[i].header);
        ShiftStep(markers', markers0, to, k, markers, k + 1);
        ReindexStep(lookup', lookup0, AncestorAt(to, k), n, lookup, at);
        added := added + newChain[i].header.txs;
        i := i - 1;
        k := k + 1;
      }
      assert 2 <= |newChain| ==> AncestorAt(to, k) == to.header.parentHash by {
        if 2 <= |newChain| { ParentBelow(blocks, genesis, to, k); }
      }
    }

    /** Deletes the markers above the current block until one is missing. */
    method Sweep() returns (batch: Markers, ghost end: nat)
      ensures currentBlock.number < end && Marker(markers, end) == Zero
      ensures forall n :: n in batch <==> currentBlock.number < n < end
      ensures forall n :: n in batch ==> batch[n] == Zero && Marker(markers, n) != Zero
    {
      batch := map[];
      var i := currentBlock.number + 1;
      ghost var left := set n | n in markers && i <= n;
      while Marker(markers, i) != Zero
        invariant currentBlock.number < i && forall n :: n in batch <==> currentBlock.number < n < i
        invariant forall n :: n in batch ==> batch[n] == Zero && Marker(markers, n) != Zero
        invariant left == set n | n in markers && i <= n
        decreases left
      {
        assert i in left;
        batch := batch[i := Zero];
        i := i + 1;
        left := set n | n in markers && i <= n;
      }
      end := i;
    }

    /** Deletes the markers above the current block: the old head, if less than two blocks are new, or else the last
        block written. */
    method DeleteUseless(ghost markers0: Markers, ghost from: Hash, ghost top: nat, ghost to: Hash, ghost k: nat,
                         ghost short: bool)
      requires Rooted(blocks, genesis) && from in blocks && to in blocks && from.HashOf? && to.HashOf?
      requires Banded(markers0, from, top) && Shifted(markers, markers0, to, k) && k <= to.header.number
      requires if short then currentBlock.Hash() == from && k <= from.header.number
               else currentBlock.Hash() == AncestorAt(to, k)
      modifies this`markers
      ensures if short then Moving(markers, from, to, k) else MarksPath(markers, AncestorAt(to, k))
    {
      var batch; ghost var end;
      batch, end := Sweep();
      ghost var markers1 := markers;
      AncestorInTree(blocks, genesis, to, k);
      markers := Written(markers, batch);
      SweepClears(markers1, markers0, from, top, to, k, currentBlock.number, batch, end, markers);
      if !short {
        forall n: nat | n <= k ensures Marker(markers, n) == AncestorAt(AncestorAt(to, k), n) {
          AncestorTwice(to, k, n);
        }
      }
    }

    /** The markers up to the current block are its path; there may be others right above them. */
    ghost predicate Marked()
      reads this
    {
      exists top: nat :: Banded(markers, currentBlock.Hash(), top)
    }

    /** Moves the canonical chain from the current block to the branch of `newBlock`, but for `newBlock` itself. */
    method Reorg(oldBlock: Header, newBlock: Header) returns (ok: bool, ghost n: nat, ghost k: nat)
      requires Stored() && oldBlock == currentBlock && newBlock.Hash() in blocks && Marked()
      modifies this`markers, this`lookup, this`currentBlock, this`currentHeader
      ensures ok && Prepared(markers, lookup, old(lookup), oldBlock.Hash(), newBlock.Hash(), n, k)
      ensures n == newBlock.number ==> currentHeader == old(currentHeader)
    {
      var oldChain, newChain, deleted;
      oldChain, newChain, deleted, ok := FindCommon(oldBlock, newBlock);
      if !ok {
        return;
      }
      ghost var from, to := oldBlock.Hash(), newBlock.Hash();
      ghost var top: nat :| Banded(markers, from, top);
      ghost var markers0, lookup0 := markers, lookup;
      n := Common(from, to).header.number;
      CommonIsHighest(blocks, genesis, from, to);
      k := if newChain == [] then n else newBlock.number - 1;
      if newChain != [] { BranchAt(blocks, genesis, to, n, 0); }
      var added := WriteBranch(newChain, to, n);
      var useless := TxDifference(deleted, added);
      ghost var lookup1 := lookup;
      lookup := lookup - Members(useless);
      DropOldBranch(lookup1, lookup0, from, AncestorAt(to, k), n, deleted, added, lookup);
      DeleteUseless(markers0, from, top, to, k, |newChain| < 2);
    }

    /** What holds over every run: no marker up to the head, and no lookup entry, is wrong. */
    ghost predicate Valid()
      reads this
    {
      Stored() && Marked() && PartlyIndexes(lookup, currentBlock.Hash())
    }

    /** The markers are the path of the current block, and the lookup entries its transactions. */
    ghost predicate Exact()
      reads this
    {
      MarksPath(markers, currentBlock.Hash()) && Indexes(lookup, currentBlock.Hash())
    }

    /** The new head is a child of the current block. */
    method ExtendHead(block: Header)
      requires Valid() && block.Hash() in blocks && block.parentHash == currentBlock.Hash()
      modifies this`markers, this`lookup, this`currentBlock, this`currentHeader
      ensures Valid() && currentBlock == block
      ensures currentHeader == if old(Marker(markers, block.number)) == block.Hash() then old(currentHeader) else block
      ensures MarksPath(markers, block.Hash()) <==> old(Marker(markers, block.number + 1)) == Zero
      ensures Indexes(lookup, block.Hash()) <==> IndexSurvives(old(lookup), old(currentBlock).Hash(), block.Hash())
    {
      ghost var from, to := currentBlock.Hash(), block.Hash();
      ghost var top: nat :| Banded(markers, from, top);
      ghost var markers0, lookup0 := markers, lookup;
      ChildIsReindexed(blocks, genesis, lookup, from, to);
      WriteHeadBlock(block);
      top := ChildMarked(blocks, genesis, markers0, from, top, to, markers);
      IndexAfter(blocks, genesis, lookup0, lookup0, from, to, from, from.header.number, lookup);
    }

    /** The new head is anywhere else. */
    method SwitchHead(block: Header) returns (ok: bool)
      requires Valid() && block.Hash() in blocks
      modifies this`markers, this`lookup, this`currentBlock, this`currentHeader
      ensures ok && Valid() && currentBlock == block
      ensures currentHeader == if Common(old(currentBlock).Hash(), block.Hash()) == block.Hash() then old(currentHeader)
                               else block
      ensures MarksPath(markers, block.Hash()) <==> SweepReaches(old(currentBlock).Hash(), block.Hash())
      ensures Indexes(lookup, block.Hash()) <==> IndexSurvives(old(lookup), old(currentBlock).Hash(), block.Hash())
    {
      ghost var from, to, lookup0 := currentBlock.Hash(), block.Hash(), lookup;
      ghost var n, k;
      ok, n, k := Reorg(currentBlock, block);
      if !ok {
        return;
      }
      ghost var markers1, lookup1 := markers, lookup;
      WasMarked(blocks, genesis, markers, lookup, lookup0, from, to, n, k);
      WriteHeadBlock(block);
      ghost var top := HeadMarked(blocks, genesis, markers1, lookup1, lookup0, from, to, n, k, markers);
      HeadIndexed(blocks, genesis, markers1, lookup1, lookup0, from, to, n, k, lookup);
    }

    /** Makes a stored block the head. Its markers come out exact if and only if there is none above a child of the old
        head, or else the sweep reaches all old ones; its lookup entries if and only if the index survives. */
    method WriteKnownBlock(block: Header) returns (ok: bool)
      requires Valid() && block.Hash() in blocks
      modifies this`markers, this`lookup, this`currentBlock, this`currentHeader
      ensures ok && Valid() && currentBlock == block
      ensures MarksPath(markers, block.Hash()) <==>
              if block.parentHash == old(currentBlock).Hash() then old(Marker(markers, block.number + 1)) == Zero
              else SweepReaches(old(currentBlock).Hash(), block.Hash())
      ensures Indexes(lookup, block.Hash()) <==> IndexSurvives(old(lookup), old(currentBlock).Hash(), block.Hash())
      ensures currentHeader ==
              if (if block.parentHash == old(currentBlock).Hash() then old(Marker(markers, block.number)) == block.Hash()
                  else Common(old(currentBlock).Hash(), block.Hash()) == block.Hash())
              then old(currentHeader) else block
    {
      if block.parentHash != currentBlock.Hash() {
        ok := SwitchHead(block);
      } else {
        ExtendHead(block);
        ok := true;
      }
    }

    /** From an exact state, the outcome is exact if and only if the sweep reaches and nothing is lost. */
    lemma ExactStays(markers0: Markers, lookup0: map<nat, nat>, from: Hash, to: Hash)
      requires Rooted(blocks, genesis) && from in blocks && to in blocks
      requires MarksPath(markers0, from) && Indexes(lookup0, from)
      ensures IndexSurvives(lookup0, from, to) <==> NothingLost(from, to)
      ensures to.HashOf? && to.header.parentHash == from ==>
                Marker(markers0, to.header.number + 1) == Zero && SweepReaches(from, to)
    {
      ExactSurvives(blocks, genesis, lookup0, from, to);
      if to.HashOf? && to.header.parentHash == from {
        ChildIsReindexed(blocks, genesis, lookup0, from, to);
        assert Linked(blocks, genesis, to);
      }
    }

    /** No block has a higher total difficulty than the current one, or the same and a lower number. */
    ghost predicate Heaviest()
      reads this
    {
      forall h :: h in blocks ==> Leads(currentBlock, h)
    }

    constructor (genesis: Header)
      requires genesis.number == 0
      ensures Valid() && Exact() && Heaviest() && this.genesis == genesis && currentBlock == genesis
      ensures blocks == {genesis.Hash()}
    {
      this.genesis := genesis;
      blocks := {genesis.Hash()};
      tds := map[genesis.Hash() := genesis.difficulty];
      markers := map[0 := genesis.Hash()];
      lookup := map tx | tx in genesis.txs :: 0;
      currentBlock, currentHeader := genesis, genesis;
      new;
      assert Banded(markers, genesis.Hash(), 0);
    }

    /** Stores a block whose parent is known and makes it the head if the fork choice says so. */
    method WriteBlock(block: Header, choice: Choice) returns (status: WriteStatus, err: ChainError)
      requires Valid()
      requires block.parentHash in blocks && block.parentHash.HashOf? ==> block.number == block.parentHash.header.number + 1
      modifies this
      ensures Valid() && (old(Heaviest()) ==> Heaviest())
      ensures err == if block.parentHash in old(blocks) then NoError else UnknownAncestor
      ensures blocks == if err == NoError then old(blocks) + {block.Hash()} else old(blocks)
      ensures status == if err != NoError then NonStat
                        else if choice.Prefers(block, old(currentBlock)) then CanonStat else SideStat
      ensures status != CanonStat ==> currentBlock == old(currentBlock) && (old(Exact()) ==> Exact())
      ensures status == CanonStat ==>
                && currentBlock == block
                && (MarksPath(markers, block.Hash()) <==>
                    if block.parentHash == old(currentBlock).Hash() then old(Marker(markers, block.number + 1)) == Zero
                    else SweepReaches(old(currentBlock).Hash(), block.Hash()))
                && (Indexes(lookup, block.Hash()) <==> IndexSurvives(old(lookup), old(currentBlock).Hash(), block.Hash()))
      ensures status == CanonStat && old(Exact()) ==>
                && (MarksPath(markers, block.Hash()) <==> SweepReaches(old(currentBlock).Hash(), block.Hash()))
                && (Indexes(lookup, block.Hash()) <==> NothingLost(old(currentBlock).Hash(), block.Hash()))
    {
      assert block.parentHash in blocks ==> Linked(blocks, genesis, block.parentHash);
      if block.parentHash !in tds {
        return NonStat, UnknownAncestor;
      }
      var localTd := tds[currentBlock.Hash()];
      var externTd := block.difficulty + tds[block.parentHash];
      GrowTree(blocks, genesis, block.Hash());
      tds := tds[block.Hash() := externTd];
      blocks := blocks + {block.Hash()};
      var reorg := externTd > localTd;
      if !reorg && externTd == localTd {
        if block.number < currentBlock.number {
          reorg := true;
        } else if block.number == currentBlock.number {
          reorg := !choice.preserveCurrent && (choice.preserveBlock || choice.coin);
        }
      }
      if !reorg {
        return SideStat, NoError;
      }
      if old(Exact()) {
        ExactStays(markers, lookup, currentBlock.Hash(), block.Hash());
      }
      var ok := WriteKnownBlock(block);
      return CanonStat, NoError;
    }

    /** Over every run no marker up to the head and no lookup entry is wrong, and the head stays heaviest; if the
        reorganisations are safe, markers and index also stay exact. */
    method Run(steps: seq<BlockStep>)
      requires Valid() && forall i :: 0 <= i < |steps| ==> steps[i].Numbered()
      modifies this
      ensures Valid() && (old(Heaviest()) ==> Heaviest())
      ensures old(Exact()) && SafeRun(old(blocks), old(currentBlock), steps) ==> Exact()
    {
      for i := 0 to |steps|
        invariant Valid() && (old(Heaviest()) ==> Heaviest())
        invariant old(Exact()) && SafeRun(old(blocks), old(currentBlock), steps) ==>
                    Exact() && SafeRun(blocks, currentBlock, steps[i..])
      {
        assert steps[i..][0] == steps[i] && steps[i..][1..] == steps[i + 1..];
        var status, err := WriteBlock(steps[i].block, steps[i].choice);
      }
    }
  }

  /** Where one transaction is all there is, an index that is not exact lacks it. */
  lemma OneMissing(lookup: map<nat, nat>, h: Hash, tx: nat)
    requires PartlyIndexes(lookup, h) && forall other :: other != tx ==> Find(h, other) == None
    ensures Indexes(lookup, h) || Entry(lookup, tx) == None
  {
  }

  /** A genesis block, and a block with one transaction on it. */
  function Root(): Header {
    Header(Zero, 0, 1, [])
  }

  function First(): Header {
    Header(Root().Hash(), 1, 1, [7])
  }

  /** Two blocks on that: one repeats the transaction, the other is heavier and empty. */
  function Repeat(): Header {
    Header(First().Hash(), 2, 1, [7])
  }

  function Rival(): Header {
    Header(First().Hash(), 2, 9, [])
  }

  method Repeated() returns (chain: BlockChain)
    ensures chain.Valid() && chain.Exact() && chain.currentBlock == Repeat() && chain.genesis == Root()
    ensures chain.blocks == {Root().Hash(), First().Hash(), Repeat().Hash()} && fresh(chain)
  {
    var choice := Choice(false, false, false);
    chain := new BlockChain(Root());
    assert TotalDifficulty(First().Hash()) == 2 && TotalDifficulty(Repeat().Hash()) == 3;
    var status, err := chain.WriteBlock(First(), choice);
    assert Common(Root().Hash(), First().Hash()) == Common(Root().Hash(), Root().Hash());
    status, err := chain.WriteBlock(Repeat(), choice);
    assert Common(First().Hash(), Repeat().Hash()) == Common(First().Hash(), First().Hash());
  }

  /** A short heavy fork leaves a marker of the longer chain behind. */
  method MarkerStays() returns (chain: BlockChain)
    ensures chain.Valid() && !MarksPath(chain.markers, chain.currentBlock.Hash())
  {
    chain := Repeated();
    var heavy := Header(Root().Hash(), 1, 9, []);
    assert TotalDifficulty(Repeat().Hash()) == 3 && TotalDifficulty(heavy.Hash()) == 10;
    var status, err := chain.WriteBlock(heavy, Choice(false, false, false));
    assert Common(Repeat().Hash(), heavy.Hash()) == Common(First().Hash(), heavy.Hash());
    assert Common(First().Hash(), heavy.Hash()) == Common(Root().Hash(), Root().Hash());
  }

  lemma RivalHoldsOne()
    ensures Find(Rival().Hash(), 7) == Some(1) && forall tx :: tx != 7 ==> Find(Rival().Hash(), tx) == None
    ensures Common(Repeat().Hash(), Rival().Hash()) == First().Hash() && !NothingLost(Repeat().Hash(), Rival().Hash())
  {
    assert Common(Repeat().Hash(), Rival().Hash()) == Common(First().Hash(), First().Hash());
    forall tx | tx != 7 ensures Find(Rival().Hash(), tx) == None {
      assert Find(First().Hash(), tx) == Find(Root().Hash(), tx);
    }
  }

  /** A transaction that the old branch repeats loses the entry of its first block. */
  method EntryGetsLost() returns (chain: BlockChain)
    ensures chain.Valid() && MarksPath(chain.markers, chain.currentBlock.Hash())
    ensures Find(chain.currentBlock.Hash(), 7) == Some(1) && Entry(chain.lookup, 7) == None
  {
    chain := Repeated();
    assert TotalDifficulty(Repeat().Hash()) == 3 && TotalDifficulty(Rival().Hash()) == 11;
    var status, err := chain.WriteBlock(Rival(), Choice(false, false, false));
    RivalHoldsOne();
    OneMissing(chain.lookup, Rival().Hash(), 7);
  }
}
