/**
  The meaning of a per-account transaction list: a plain map from nonces to
  transactions, and what each list operation does to it.
 */
module NonceMaps {
  import opened Transactions

  type NonceMap = map<nat, Transaction>

  /** The nonces held. */
  function Keys(m: NonceMap): (keys: set<nat>)
    ensures forall n :: n in keys <==> n in m
  {
    set n | n in m
  }

  /** The number of transactions. */
  function Size(m: NonceMap): nat {
    |Keys(m)|
  }

  ghost predicate Keyed(m: NonceMap) {
    forall n :: n in m ==> m[n].nonce == n
  }

  function Below(m: NonceMap, t: nat): NonceMap {
    map n | n in m && n < t :: m[n]
  }

  function AtLeast(m: NonceMap, t: nat): NonceMap {
    map n | n in m && t <= n :: m[n]
  }

  /** How many nonces of `m` are below `n`. */
  function Rank(m: NonceMap, n: nat): nat {
    |set k | k in m && k < n|
  }

  /** The `k` transactions with the lowest nonces. */
  function Lowest(m: NonceMap, k: nat): NonceMap {
    map n | n in m && Rank(m, n) < k :: m[n]
  }

  function Without(m: NonceMap, gone: NonceMap): NonceMap {
    map n | n in m && n !in gone :: m[n]
  }

  function Restrict(m: NonceMap, keys: set<nat>): NonceMap {
    map n | n in m && n in keys :: m[n]
  }

  ghost predicate Holds(m: NonceMap, tx: Transaction) {
    tx.nonce in m && m[tx.nonce] == tx
  }

  function Select(m: NonceMap, f: Transaction -> bool): NonceMap {
    map n | n in m && f(m[n]) :: m[n]
  }

  /** `n` is reached from the lowest nonce without a gap. */
  predicate InRun(m: NonceMap, n: nat) {
    n in m && forall k :: 0 <= k < n && k !in m ==> forall j :: j in m ==> k < j
  }

  /** The transactions `Ready(start)` takes: none if all nonces are above `start`,
      otherwise the maximal gapless run from the lowest nonce. */
  function Ready(m: NonceMap, start: nat): NonceMap {
    if exists n :: n in m && n <= start then map n | n in m && InRun(m, n) :: m[n] else map[]
  }

  /** `s` lists the transactions of `m`, each once. */
  ghost predicate Lists(s: seq<Transaction>, m: NonceMap) {
    && (forall i, j :: 0 <= i < j < |s| ==> s[i].nonce != s[j].nonce)
    && (forall i :: 0 <= i < |s| ==> s[i].nonce in m && m[s[i].nonce] == s[i])
    && |s| == Size(m)
  }

  /** `s` lists the transactions of `m` by increasing nonce. */
  ghost predicate Enumerates(s: seq<Transaction>, m: NonceMap) {
    && (forall i, j :: 0 <= i < j < |s| ==> s[i].nonce < s[j].nonce)
    && (forall i :: 0 <= i < |s| ==> s[i].nonce in m && m[s[i].nonce] == s[i])
    && |s| == Size(m)
  }

  ghost function Nonces(s: seq<Transaction>): set<nat> {
    set i | 0 <= i < |s| :: s[i].nonce
  }

  lemma {:induction false} NoncesSize(s: seq<Transaction>)
    requires forall i, j :: 0 <= i < j < |s| ==> s[i].nonce != s[j].nonce
    ensures |Nonces(s)| == |s|
  {
    if s != [] {
      var init := s[..|s| - 1];
      NoncesSize(init);
      assert Nonces(s) == Nonces(init) + {s[|s| - 1].nonce};
    }
  }

  lemma SubsetSize<T>(a: set<T>, b: set<T>)
    requires a <= b
    ensures |a| <= |b|
    ensures |a| == |b| ==> a == b
  {
    assert b == a + (b - a);
  }

  /** A listing misses no transaction. */
  lemma ListingIsComplete(s: seq<Transaction>, m: NonceMap, n: nat) returns (i: nat)
    requires Lists(s, m) && n in m
    ensures i < |s| && s[i] == m[n]
  {
    NoncesSize(s);
    SubsetSize(Nonces(s), Keys(m));
    assert n in Nonces(s);
    i :| 0 <= i < |s| && s[i].nonce == n;
  }

  /** Distinct nonces that are exactly the nonces of `m` are as many as `m`. */
  lemma CountListing(s: seq<Transaction>, m: NonceMap)
    requires forall i, j :: 0 <= i < j < |s| ==> s[i].nonce != s[j].nonce
    requires forall n :: n in m <==> n in Nonces(s)
    ensures |s| == Size(m)
  {
    NoncesSize(s);
    assert Keys(m) == Nonces(s);
  }

  /** In an enumeration, the rank of an element's nonce is its position. */
  lemma RankIsPosition(c: seq<Transaction>, m: NonceMap, i: nat)
    requires Keyed(m) && Enumerates(c, m) && i < |c|
    ensures Rank(m, c[i].nonce) == i
  {
    var below := map n | n in m && n < c[i].nonce :: m[n];
    forall n ensures n in below <==> n in Nonces(c[..i]) {
      if n in below {
        var j := ListingIsComplete(c, m, n);
        assert c[..i][j].nonce == n;
      }
    }
    CountListing(c[..i], below);
    assert Keys(below) == set k | k in m && k < c[i].nonce;
  }

  /** Sorted listings of one map are equal. */
  lemma EnumerationIsUnique(a: seq<Transaction>, b: seq<Transaction>, m: NonceMap)
    requires Keyed(m) && Enumerates(a, m) && Enumerates(b, m)
    ensures a == b
  {
    forall i | 0 <= i < |a| ensures a[i] == b[i] {
      var j := ListingIsComplete(b, m, a[i].nonce);
      RankIsPosition(a, m, i);
      RankIsPosition(b, m, j);
    }
  }

  /** A prefix of an enumeration enumerates the lowest nonces. */
  lemma PrefixIsLowest(c: seq<Transaction>, m: NonceMap, k: nat)
    requires Keyed(m) && Enumerates(c, m) && k <= |c|
    ensures Enumerates(c[..k], Lowest(m, k))
  {
    var low := Lowest(m, k);
    forall i | 0 <= i < k ensures c[i].nonce in low && low[c[i].nonce] == c[i] {
      RankIsPosition(c, m, i);
    }
    forall n ensures n in low <==> n in Nonces(c[..k]) {
      if n in low {
        var i := ListingIsComplete(c, m, n);
        RankIsPosition(c, m, i);
        assert c[..k][i].nonce == n;
      }
    }
    CountListing(c[..k], low);
  }

  lemma CutSize(m: NonceMap, t: nat)
    ensures Size(m) == Size(Below(m, t)) + Size(AtLeast(m, t))
  {
    assert Keys(m) == Keys(Below(m, t)) + Keys(AtLeast(m, t));
  }

  lemma CutEnumeration(c: seq<Transaction>, m: NonceMap, t: nat, k: nat)
    requires Keyed(m) && Enumerates(c, m) && k <= |c|
    requires forall i :: 0 <= i < |c| ==> (c[i].nonce < t <==> i < k)
    ensures Enumerates(c[..k], Below(m, t)) && Enumerates(c[k..], AtLeast(m, t))
  {
    forall n ensures n in Below(m, t) <==> n in Nonces(c[..k]) {
      if n in Below(m, t) {
        var i := ListingIsComplete(c, m, n);
        assert c[..k][i].nonce == n;
      }
    }
    CountListing(c[..k], Below(m, t));
    CutSize(m, t);
  }

  /** The part of an enumeration below a nonce is a prefix of it. */
  lemma SplitEnumeration(c: seq<Transaction>, m: NonceMap, t: nat, r: seq<Transaction>)
    requires Keyed(m) && Enumerates(c, m) && Enumerates(r, Below(m, t))
    ensures |r| <= |c| && c[..|r|] == r && Enumerates(c[|r|..], AtLeast(m, t))
  {
    var k := 0;
    while k < |c| && c[k].nonce < t
      invariant k <= |c| && forall i :: 0 <= i < k ==> c[i].nonce < t
    {
      k := k + 1;
    }
    CutEnumeration(c, m, t, k);
    EnumerationIsUnique(c[..k], r, Below(m, t));
  }

  lemma ListOneMore(s: seq<Transaction>, m: NonceMap, tx: Transaction)
    requires Lists(s, m) && tx.nonce !in m
    ensures Lists(s + [tx], m[tx.nonce := tx])
    ensures Enumerates(s, m) && (forall n :: n in m ==> n < tx.nonce) ==>
              Enumerates(s + [tx], m[tx.nonce := tx])
  {
    assert Keys(m[tx.nonce := tx]) == Keys(m) + {tx.nonce};
  }

  lemma CountAtLeastTwo<T>(r: seq<T>, i: nat, j: nat)
    requires i < j < |r| && r[i] == r[j]
    ensures multiset(r)[r[i]] >= 2
  {
    assert r == r[..j] + r[j..];
    assert r[..j][i] == r[i] && r[j..][0] == r[i];
    assert r[i] in multiset(r[..j]) && r[i] in multiset(r[j..]);
  }

  lemma CountAtMostOne<T>(s: seq<T>, k: nat)
    requires k < |s| && forall i :: 0 <= i < |s| && i != k ==> s[i] != s[k]
    ensures multiset(s)[s[k]] == 1
  {
    assert s == s[..k] + [s[k]] + s[k + 1..];
    assert s[k] !in multiset(s[..k]) && s[k] !in multiset(s[k + 1..]);
  }

  /** A permutation of a listing lists the same map. */
  lemma PermutedListing(s: seq<Transaction>, r: seq<Transaction>, m: NonceMap)
    requires Keyed(m) && Lists(s, m) && multiset(r) == multiset(s)
    ensures Lists(r, m)
  {
    forall i | 0 <= i < |r| ensures r[i] in s {
      assert r[i] in multiset(r) && r[i] in multiset(s);
    }
    forall i, j | 0 <= i < j < |r| ensures r[i].nonce != r[j].nonce {
      if r[i] == r[j] {
        CountAtLeastTwo(r, i, j);
        var k: nat :| k < |s| && s[k] == r[i];
        CountAtMostOne(s, k);
      }
    }
    assert |multiset(r)| == |multiset(s)|;
  }

  lemma RankIsBelowSize(m: NonceMap, n: nat)
    requires n in m
    ensures Rank(m, n) < Size(m)
  {
    var below := set j | j in m && j < n;
    SubsetSize(below + {n}, Keys(m));
  }

  lemma LowestIsAll(m: NonceMap, k: nat)
    requires Size(m) <= k
    ensures Lowest(m, k) == m
    ensures Without(m, Lowest(m, k)) == map[]
  {
    forall n | n in m ensures Rank(m, n) < k {
      RankIsBelowSize(m, n);
    }
  }

  predicate IsHighest(m: NonceMap, h: nat) {
    h in m && forall n :: n in m ==> n <= h
  }

  lemma ShrinkAbove(m: NonceMap, h: nat, n: nat)
    requires n in AtLeast(m, h + 1)
    ensures Size(AtLeast(m, n + 1)) < Size(AtLeast(m, h + 1))
  {
    SubsetSize(Keys(AtLeast(m, n + 1)) + {n}, Keys(AtLeast(m, h + 1)));
  }

  lemma HighestNonce(m: NonceMap) returns (h: nat)
    requires m != map[]
    ensures IsHighest(m, h)
  {
    h :| h in m;
    var rest := AtLeast(m, h + 1);
    while rest != map[]
      invariant h in m && rest == AtLeast(m, h + 1)
      decreases Size(rest)
    {
      var n :| n in rest;
      ShrinkAbove(m, h, n);
      h, rest := n, AtLeast(m, n + 1);
    }
    forall n | n in m ensures n <= h {
      assert n in AtLeast(m, h + 1) <==> h < n;
    }
  }

  lemma RankGrows(m: NonceMap, i: nat, j: nat)
    requires i in m && i < j
    ensures Rank(m, i) < Rank(m, j)
  {
    SubsetSize((set k | k in m && k < i) + {i}, set k | k in m && k < j);
  }

  /** All but one of the lowest nonces: everything but the highest. */
  lemma LowestButOne(m: NonceMap, h: nat)
    requires IsHighest(m, h)
    ensures Size(m - {h}) == Size(m) - 1 && Lowest(m, Size(m) - 1) == m - {h}
  {
    assert Keys(m) == Keys(m - {h}) + {h};
    assert (set k | k in m && k < h) == Keys(m - {h});
    forall n | n in m && n != h ensures Rank(m, n) < Size(m) - 1 {
      RankGrows(m, n, h);
    }
  }

  lemma SameRank(m: NonceMap, low: NonceMap, n: nat)
    requires forall i :: 0 <= i < n ==> (i in m <==> i in low)
    ensures Rank(m, n) == Rank(low, n)
  {
    assert (set k | k in m && k < n) == (set k | k in low && k < n);
  }

  /** Taking the lowest nonces twice is taking the fewer. */
  lemma LowestTwice(m: NonceMap, k: nat, j: nat)
    requires j <= k
    ensures Lowest(Lowest(m, k), j) == Lowest(m, j)
  {
    var low := Lowest(m, k);
    forall n | n in low ensures Rank(low, n) == Rank(m, n) {
      forall i | i in m && i < n ensures i in low {
        RankGrows(m, i, n);
      }
      SameRank(m, low, n);
    }
  }

  lemma {:induction false} LowestSize(m: NonceMap, k: nat)
    ensures Size(Lowest(m, k)) == if k < Size(m) then k else Size(m)
    decreases Size(m)
  {
    if Size(m) <= k {
      LowestIsAll(m, k);
    } else {
      assert Keys(m) != {};
      var h := HighestNonce(m);
      LowestButOne(m, h);
      LowestTwice(m, Size(m) - 1, k);
      LowestSize(m - {h}, k);
    }
  }
}
