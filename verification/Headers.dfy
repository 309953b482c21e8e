/** Block headers, their hashes and their ancestors. */
module Headers {
  import opened Basics

  /** Hashing is injective and never yields the zero hash: a hash is a free constructor over the hashed header. */
  datatype Hash = Zero | HashOf(header: Header)

  /** `txs` are the transactions the header commits to. */
  datatype Header = Header(parentHash: Hash, number: uint64, difficulty: nat, txs: seq<nat>) {
    function Hash(): Hash {
      HashOf(this)
    }
  }

  /** The hash `k` parent links up. */
  function Up(h: Hash, k: nat): Hash {
    if k == 0 || h.Zero? then h else Up(h.header.parentHash, k - 1)
  }

  /** The first hash on the way to the root whose number is at most `n`. */
  function AncestorAt(h: Hash, n: nat): Hash {
    if h.Zero? || h.header.number <= n then h else AncestorAt(h.header.parentHash, n)
  }

  /** The sum of the difficulties on the path from the header with number 0. */
  function TotalDifficulty(h: Hash): nat {
    if h.Zero? then 0
    else h.header.difficulty + if h.header.number == 0 then 0 else TotalDifficulty(h.header.parentHash)
  }

  /** `head` has a higher total difficulty than `h`, or the same and no higher number. */
  ghost predicate Leads(head: Header, h: Hash) {
    || TotalDifficulty(h) < TotalDifficulty(head.Hash())
    || (TotalDifficulty(h) == TotalDifficulty(head.Hash()) && (h.HashOf? ==> head.number <= h.header.number))
  }

  /** `h` is the root, or its parent is in `s` and numbered one less. */
  ghost predicate Linked(s: set<Hash>, genesis: Header, h: Hash) {
    && h.HashOf?
    && (h == HashOf(genesis) ||
        (0 < h.header.number && h.header.parentHash in s && h.header.parentHash.HashOf? &&
         h.header.parentHash.header.number == h.header.number - 1))
  }

  /** A tree of headers: it holds the root and the parent of every other member. */
  ghost predicate Rooted(s: set<Hash>, genesis: Header) {
    && genesis.number == 0 && HashOf(genesis) in s
    && forall h {:trigger Linked(s, genesis, h)} :: h in s ==> Linked(s, genesis, h)
  }

  lemma {:induction false} AncestorTwice(h: Hash, m: nat, n: nat)
    requires n <= m
    ensures AncestorAt(AncestorAt(h, m), n) == AncestorAt(h, n)
    decreases h
  {
    if h.HashOf? && m < h.header.number {
      AncestorTwice(h.header.parentHash, m, n);
    }
  }

  /** In a tree, ancestors are in the tree, numbered as asked for, and reached by as many links. */
  lemma {:induction false} AncestorInTree(s: set<Hash>, genesis: Header, h: Hash, n: nat)
    requires Rooted(s, genesis) && h in s && h.HashOf? && n <= h.header.number
    ensures AncestorAt(h, n) in s && AncestorAt(h, n).HashOf? && AncestorAt(h, n).header.number == n
    ensures AncestorAt(h, n) == Up(h, h.header.number - n)
    decreases h
  {
    assert Linked(s, genesis, h);
    if n < h.header.number {
      AncestorInTree(s, genesis, h.header.parentHash, n);
    }
  }

  lemma {:induction false} UpTwice(h: Hash, j: nat, k: nat)
    ensures Up(Up(h, j), k) == Up(h, j + k)
    decreases h
  {
    if j != 0 && h.HashOf? {
      UpTwice(h.header.parentHash, j - 1, k);
    }
  }

  lemma RootIsLowest(s: set<Hash>, genesis: Header, h: Hash)
    requires Rooted(s, genesis) && h in s && h.HashOf? && h.header.number == 0
    ensures h == HashOf(genesis)
  {
    assert Linked(s, genesis, h);
  }

  lemma {:induction false} RootIsLightest(s: set<Hash>, genesis: Header, h: Hash)
    requires Rooted(s, genesis) && h in s
    ensures TotalDifficulty(HashOf(genesis)) <= TotalDifficulty(h)
    decreases h
  {
    assert Linked(s, genesis, h);
    if h != HashOf(genesis) {
      RootIsLightest(s, genesis, h.header.parentHash);
    }
  }

  function Depth(h: Hash): nat {
    if h.Zero? then 0 else 1 + Depth(h.header.parentHash)
  }

  lemma {:induction false} DepthFalls(h: Hash, n: nat)
    ensures Depth(AncestorAt(h, n)) <= Depth(h)
    decreases h
  {
    if h.HashOf? && n < h.header.number {
      DepthFalls(h.header.parentHash, n);
    }
  }

  /** Hashing is acyclic: the root is not the child of a member. */
  lemma RootHasNoParent(s: set<Hash>, genesis: Header)
    requires Rooted(s, genesis)
    ensures genesis.parentHash !in s
  {
    if genesis.parentHash in s {
      assert Linked(s, genesis, genesis.parentHash);
      AncestorInTree(s, genesis, genesis.parentHash, 0);
      RootIsLowest(s, genesis, AncestorAt(genesis.parentHash, 0));
      DepthFalls(genesis.parentHash, 0);
      assert false;
    }
  }

  /** A tree with no header numbered `n` has none numbered higher. */
  lemma {:induction false} NoneHigher(s: set<Hash>, genesis: Header, n: nat, h: Hash)
    requires Rooted(s, genesis) && (forall g :: g in s && g.HashOf? ==> g.header.number != n) && h in s
    ensures h.HashOf? && h.header.number < n
  {
    assert Linked(s, genesis, h);
    if n <= h.header.number {
      AncestorInTree(s, genesis, h, n);
    }
  }

  lemma GrowTree(s: set<Hash>, genesis: Header, h: Hash)
    requires Rooted(s, genesis) && Linked(s, genesis, h)
    ensures Rooted(s + {h}, genesis)
  {
    forall g | g in s + {h} ensures Linked(s + {h}, genesis, g) {
      assert g != h ==> Linked(s, genesis, g);
    }
  }

  lemma PruneTree(s: set<Hash>, genesis: Header, n: nat, low: set<Hash>)
    requires Rooted(s, genesis) && low == set h | h in s && h.HashOf? && h.header.number <= n
    ensures Rooted(low, genesis)
  {
    forall g | g in low ensures Linked(low, genesis, g) {
      assert Linked(s, genesis, g);
    }
  }
}
