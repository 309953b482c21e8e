/**
  Go's `container/heap` over a slice: a binary heap kept in a sequence, ordered by
  a strict weak order `less`.  The nonce heap and the price heap of the transaction
  pool, and the heap behind `prque`, are instances.
 */
module Heap {
  /** What Go asks of a `Less` method. */
  ghost predicate StrictWeakOrder<T(!new)>(less: (T, T) -> bool) {
    && (forall x :: !less(x, x))
    && (forall x, y, z :: less(x, y) && less(y, z) ==> less(x, z))
    && (forall x, y, z :: !less(x, y) && !less(y, z) ==> !less(x, z))
  }

  lemma Asymmetric<T(!new)>(less: (T, T) -> bool, x: T, y: T)
    requires StrictWeakOrder(less) && less(x, y)
    ensures !less(y, x)
  {
  }

  function Parent(j: nat): nat
    requires 0 < j
  {
    (j - 1) / 2
  }

  ghost predicate Ordered<T>(h: seq<T>, less: (T, T) -> bool, j: nat)
    requires j < |h|
  {
    0 < j ==> !less(h[j], h[Parent(j)])
  }

  /** No element is less than its parent. */
  ghost predicate IsHeap<T>(h: seq<T>, less: (T, T) -> bool) {
    forall j: nat :: j < |h| ==> Ordered(h, less, j)
  }

  /** Every element whose parent is at `lo` or later is ordered, except around the hole `i`. */
  ghost predicate HeapAround<T>(h: seq<T>, less: (T, T) -> bool, lo: nat, i: nat) {
    && (forall j: nat :: 0 < j < |h| && lo <= Parent(j) && Parent(j) != i && j != i ==> Ordered(h, less, j))
    && (forall j: nat :: 0 < i && lo <= Parent(i) && 0 < j < |h| && Parent(j) == i ==> !less(h[j], h[Parent(i)]))
  }

  function Swap<T>(h: seq<T>, i: nat, j: nat): (r: seq<T>)
    requires i < |h| && j < |h|
    ensures |r| == |h| && multiset(r) == multiset(h)
    ensures r[i] == h[j] && r[j] == h[i]
    ensures forall k :: 0 <= k < |h| && k != i && k != j ==> r[k] == h[k]
  {
    h[i := h[j]][j := h[i]]
  }

  /** Sinking the hole to its least child keeps the heap around the hole. */
  lemma SinkStep<T(!new)>(h: seq<T>, less: (T, T) -> bool, lo: nat, i: nat, j: nat, r: seq<T>)
    requires StrictWeakOrder(less) && HeapAround(h, less, lo, i) && lo <= i && 2 * i + 1 < |h|
    requires 0 < j < |h| && Parent(j) == i && less(h[j], h[i])
    requires !less(h[2 * i + 1], h[j])
    requires 2 * i + 2 < |h| ==> !less(h[2 * i + 2], h[j])
    requires r == Swap(h, i, j)
    ensures HeapAround(r, less, lo, j) && Ordered(r, less, j)
    ensures 0 < i && lo <= Parent(i) ==> Ordered(r, less, i)
  {
    forall k: nat | 0 < k < |r| && lo <= Parent(k) && Parent(k) != j && k != j
      ensures Ordered(r, less, k)
    {
      if k != i && Parent(k) != i {
        assert Ordered(h, less, k);
      } else if Parent(k) == i {
        assert k == 2 * i + 1 || k == 2 * i + 2;
      }
    }
    forall k: nat | 0 < k < |r| && Parent(k) == j
      ensures !less(r[k], r[i])
    {
      assert Ordered(h, less, k);
    }
  }

  lemma SinkEnds<T(!new)>(h: seq<T>, less: (T, T) -> bool, lo: nat, i: nat)
    requires i < |h| && HeapAround(h, less, lo, i)
    requires 2 * i + 1 < |h| ==> !less(h[2 * i + 1], h[i])
    requires 2 * i + 2 < |h| ==> !less(h[2 * i + 2], h[i])
    ensures forall j: nat :: 0 < j < |h| && lo <= Parent(j) && j != i ==> Ordered(h, less, j)
  {
    forall j: nat | 0 < j < |h| && Parent(j) == i
      ensures Ordered(h, less, j)
    {
      assert j == 2 * i + 1 || j == 2 * i + 2;
    }
  }

  /** Lifting an element above its parent keeps every other element ordered. */
  lemma LiftStep<T(!new)>(h: seq<T>, less: (T, T) -> bool, i: nat, r: seq<T>)
    requires StrictWeakOrder(less) && 0 < i < |h| && less(h[i], h[Parent(i)])
    requires forall j: nat :: j < |h| && j != i ==> Ordered(h, less, j)
    requires forall j: nat :: 0 < j < |h| && Parent(j) == i ==> !less(h[j], h[Parent(i)])
    requires r == Swap(h, Parent(i), i)
    ensures forall j: nat :: j < |r| && j != Parent(i) ==> Ordered(r, less, j)
    ensures forall j: nat :: 0 < Parent(i) && 0 < j < |r| && Parent(j) == Parent(i) ==>
              !less(r[j], r[Parent(Parent(i))])
  {
    var p := Parent(i);
    assert Ordered(h, less, p);
    forall j: nat | j < |r| && j != p
      ensures Ordered(r, less, j)
    {
      if 0 < j && j != i {
        assert Ordered(h, less, j);
        if Parent(j) == p {
          assert r[j] == h[j] && r[p] == h[i];
          assert !less(h[j], h[p]) && !less(h[p], h[i]);
        }
      }
    }
    forall j: nat | 0 < p && 0 < j < |r| && Parent(j) == p
      ensures !less(r[j], r[Parent(p)])
    {
      assert Ordered(h, less, j) || j == i;
      assert r[Parent(p)] == h[Parent(p)];
    }
  }

  method Down<T(!new)>(h0: seq<T>, less: (T, T) -> bool, ghost lo: nat, i0: nat) returns (h: seq<T>, moved: bool)
    requires StrictWeakOrder(less)
    requires lo <= i0 < |h0| && HeapAround(h0, less, lo, i0)
    ensures |h| == |h0| && multiset(h) == multiset(h0)
    ensures forall j: nat :: 0 < j < |h| && lo <= Parent(j) && (moved || j != i0) ==> Ordered(h, less, j)
    ensures !moved ==> h == h0
  {
    h := h0;
    var i := i0;
    while 2 * i + 1 < |h|
      invariant i0 <= i < |h| == |h0| && multiset(h) == multiset(h0)
      invariant HeapAround(h, less, lo, i)
      invariant i != i0 ==> Ordered(h, less, i)
      invariant i == i0 ==> h == h0
      decreases |h| - i
    {
      var j := 2 * i + 1;
      if j + 1 < |h| && less(h[j + 1], h[j]) {
        Asymmetric(less, h[j + 1], h[j]);
        j := j + 1;
      }
      if !less(h[j], h[i]) {
        break;
      }
      var r := Swap(h, i, j);
      SinkStep(h, less, lo, i, j, r);
      h, i := r, j;
    }
    SinkEnds(h, less, lo, i);
    moved := i > i0;
  }

  method Up<T(!new)>(h0: seq<T>, less: (T, T) -> bool, i0: nat) returns (h: seq<T>)
    requires StrictWeakOrder(less)
    requires i0 < |h0|
    requires forall j: nat :: j < |h0| && j != i0 ==> Ordered(h0, less, j)
    requires forall j: nat :: 0 < i0 && 0 < j < |h0| && Parent(j) == i0 ==> !less(h0[j], h0[Parent(i0)])
    ensures multiset(h) == multiset(h0) && IsHeap(h, less)
  {
    h := h0;
    var i := i0;
    while 0 < i && less(h[i], h[Parent(i)])
      invariant i < |h| == |h0| && multiset(h) == multiset(h0)
      invariant forall j: nat :: j < |h| && j != i ==> Ordered(h, less, j)
      invariant forall j: nat :: 0 < i && 0 < j < |h| && Parent(j) == i ==> !less(h[j], h[Parent(i)])
    {
      var r := Swap(h, Parent(i), i);
      LiftStep(h, less, i, r);
      h, i := r, Parent(i);
    }
  }

  method Init<T(!new)>(h0: seq<T>, less: (T, T) -> bool) returns (h: seq<T>)
    requires StrictWeakOrder(less)
    ensures multiset(h) == multiset(h0) && IsHeap(h, less)
  {
    h := h0;
    var i := |h| / 2;
    while 0 < i
      invariant i <= |h| / 2 && |h| == |h0| && multiset(h) == multiset(h0)
      invariant forall j: nat :: 0 < j < |h| && i <= Parent(j) ==> Ordered(h, less, j)
    {
      i := i - 1;
      var moved;
      h, moved := Down(h, less, i, i);
    }
  }

  method Push<T(!new)>(h0: seq<T>, less: (T, T) -> bool, x: T) returns (h: seq<T>)
    requires StrictWeakOrder(less) && IsHeap(h0, less)
    ensures multiset(h) == multiset(h0) + multiset{x} && IsHeap(h, less)
  {
    h := h0 + [x];
    forall j: nat | j < |h| && j != |h0|
      ensures Ordered(h, less, j)
    {
      assert Ordered(h0, less, j);
    }
    h := Up(h, less, |h0|);
  }

  lemma AfterSwap<T(!new)>(h0: seq<T>, less: (T, T) -> bool, i: nat, h: seq<T>)
    requires StrictWeakOrder(less) && IsHeap(h0, less)
    requires i < |h0| - 1 && h == Swap(h0, i, |h0| - 1)[..|h0| - 1]
    ensures HeapAround(h, less, 0, i)
  {
    forall j: nat | 0 < j < |h| && Parent(j) != i && j != i
      ensures Ordered(h, less, j)
    {
      assert Ordered(h0, less, j);
    }
    forall j: nat | 0 < i && 0 < j < |h| && Parent(j) == i
      ensures !less(h[j], h[Parent(i)])
    {
      assert Ordered(h0, less, j) && Ordered(h0, less, i);
    }
  }

  method Remove<T(!new)>(h0: seq<T>, less: (T, T) -> bool, i: nat) returns (x: T, h: seq<T>)
    requires StrictWeakOrder(less) && IsHeap(h0, less) && i < |h0|
    ensures x == h0[i] && IsHeap(h, less)
    ensures multiset(h0) == multiset(h) + multiset{x}
  {
    var n := |h0| - 1;
    var s := Swap(h0, i, n);
    h := s[..n];
    x := s[n];
    assert s == h + [x];
    if i < n {
      AfterSwap(h0, less, i, h);
      var moved;
      h, moved := Down(h, less, 0, i);
      if !moved {
        h := Up(h, less, i);
      }
    } else {
      forall j: nat | j < |h| ensures Ordered(h, less, j) { assert Ordered(h0, less, j); }
    }
  }

  method Pop<T(!new)>(h0: seq<T>, less: (T, T) -> bool) returns (x: T, h: seq<T>)
    requires StrictWeakOrder(less) && IsHeap(h0, less) && h0 != []
    ensures x == h0[0] && IsHeap(h, less)
    ensures multiset(h0) == multiset(h) + multiset{x}
  {
    x, h := Remove(h0, less, 0);
  }

  /** The root is a least element. */
  lemma {:induction false} RootIsLeast<T(!new)>(h: seq<T>, less: (T, T) -> bool, k: nat)
    requires StrictWeakOrder(less) && IsHeap(h, less) && k < |h|
    ensures !less(h[k], h[0])
  {
    if 0 < k {
      RootIsLeast(h, less, Parent(k));
      assert Ordered(h, less, k);
    }
  }

  ghost predicate Sorted<T>(s: seq<T>, less: (T, T) -> bool) {
    forall i, j :: 0 <= i < j < |s| ==> !less(s[j], s[i])
  }

  /** Go's `sort.Sort`: some sorted permutation. */
  method Sort<T(!new)>(s: seq<T>, less: (T, T) -> bool) returns (r: seq<T>)
    requires StrictWeakOrder(less)
    ensures Sorted(r, less) && multiset(r) == multiset(s) && |r| == |s|
  {
    r := [];
    var h := Init(s, less);
    while h != []
      invariant IsHeap(h, less) && Sorted(r, less)
      invariant multiset(r) + multiset(h) == multiset(s)
      invariant forall x, y :: x in r && y in h ==> !less(y, x)
      decreases |h|
    {
      var h1 := h;
      forall y | y in h ensures !less(y, h[0]) {
        var k: nat :| k < |h| && h[k] == y;
        RootIsLeast(h, less, k);
      }
      var x;
      x, h := Pop(h1, less);
      assert |multiset(h1)| == |multiset(h)| + 1;
      forall y | y in h ensures y in h1 { assert y in multiset(h) && y in multiset(h1); }
      r := r + [x];
    }
    assert |multiset(r)| == |multiset(s)|;
  }
}
