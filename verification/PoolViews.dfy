/**
  The views of the transaction pool of core/tx_pool.go as plain values: the index of all
  transactions, and lists of transactions per account.  Besides the pending and the queued
  lists there are the loose ones: taken out of a list, but still in the index, while an
  operation is under way.
 */
module PoolViews {
  import opened Basics
  import opened Transactions
  import opened NonceMaps
  import opened TxPricing

  type Lists = map<Address, NonceMap>

  function At(l: Lists, a: Address): NonceMap {
    if a in l then l[a] else map[]
  }

  ghost predicate Held(l: Lists, tx: Transaction) {
    tx.nonce in At(l, tx.from) && At(l, tx.from)[tx.nonce] == tx
  }

  /** Lists hold signed transactions of their account, under their nonces. */
  ghost predicate Owned(l: Lists) {
    forall a, n :: n in At(l, a) ==> var tx := At(l, a)[n]; tx.nonce == n && tx.from == a && tx.signed
  }

  /** No account has the same nonce in both. */
  ghost predicate Apart(p: Lists, q: Lists) {
    forall a, n :: n in At(p, a) ==> n !in At(q, a)
  }

  ghost predicate NoneEmpty(l: Lists) {
    forall a :: a in l ==> l[a] != map[]
  }

  /** The index is exactly the disjoint union of the pending, queued and loose lists. */
  ghost predicate AgreeInFull(all: Lookup, p: Lists, q: Lists, r: Lists) {
    && Owned(p) && Owned(q) && Owned(r)
    && Apart(p, q) && Apart(p, r) && Apart(q, r)
    && forall h :: h in all <==> Held(p, h.tx) || Held(q, h.tx) || Held(r, h.tx)
  }

  /** `AgreeInFull`, guarded so that a proof sees the definition only after `Expand`. */
  ghost predicate Agree(all: Lookup, p: Lists, q: Lists, r: Lists) {
    forall k {:trigger Open(k)} :: Open(k) ==> AgreeInFull(all, p, q, r)
  }

  lemma Expand(all: Lookup, p: Lists, q: Lists, r: Lists)
    ensures Agree(all, p, q, r) <==> AgreeInFull(all, p, q, r)
  {
    assert Open(0);
  }

  /** `l` with `m` as the list of `a`. */
  function With(l: Lists, a: Address, m: NonceMap): (l': Lists)
    ensures forall b :: At(l', b) == if b == a then m else At(l, b)
  {
    l[a := m]
  }

  lemma OnlyList(a: Address, m: NonceMap)
    ensures With(map[], a, m) == map[a := m]
  {
  }

  lemma WithTwice(l: Lists, a: Address, m: NonceMap, m': NonceMap)
    ensures With(With(l, a, m), a, m') == With(l, a, m')
  {
  }

  lemma WithSame(l: Lists, a: Address)
    requires a in l
    ensures With(l, a, l[a]) == l
  {
  }

  function Tidy(l: Lists, a: Address): (l': Lists)
    ensures forall b :: At(l', b) == At(l, b)
    ensures (forall b :: b in l && b != a ==> l[b] != map[]) ==> NoneEmpty(l')
  {
    if a in l && l[a] == map[] then l - {a} else l
  }

  /** The lists with `gone` added to the list of `a`. */
  function Merge(l: Lists, a: Address, gone: NonceMap): (l': Lists)
    ensures forall b :: At(l', b) == if b == a then At(l, a) + gone else At(l, b)
    ensures NoneEmpty(l) ==> NoneEmpty(l')
  {
    if gone == map[] then l else With(l, a, At(l, a) + gone)
  }

  /** Pending lists without `tx` and what follows it. */
  function CutPending(p: Lists, tx: Transaction): (p': Lists)
    ensures forall b :: At(p', b) == if b == tx.from then Below(At(p, b), tx.nonce) else At(p, b)
    ensures NoneEmpty(p) ==> NoneEmpty(p')
  {
    Tidy(With(p, tx.from, Below(At(p, tx.from), tx.nonce)), tx.from)
  }

  /** Queued lists without `tx`. */
  function CutQueued(q: Lists, tx: Transaction): (q': Lists)
    ensures forall b :: At(q', b) == if b == tx.from then At(q, b) - {tx.nonce} else At(q, b)
    ensures NoneEmpty(q) ==> NoneEmpty(q')
  {
    Tidy(With(q, tx.from, At(q, tx.from) - {tx.nonce}), tx.from)
  }

  /** `tx` is taken off its list; what followed it on a pending list is queued. */
  ghost predicate Unlisted(p: Lists, q: Lists, tx: Transaction, p': Lists, q': Lists) {
    if tx.nonce in At(p, tx.from) then
      p' == CutPending(p, tx) && q' == Merge(q, tx.from, AtLeast(At(p, tx.from), tx.nonce + 1))
    else
      p' == p && q' == CutQueued(q, tx)
  }

  /** `kept` and `gone` partition `m`. */
  ghost predicate Splits(m: NonceMap, kept: NonceMap, gone: NonceMap) {
    && (forall n :: n in gone <==> n in m && n !in kept)
    && (forall n :: n in gone ==> gone[n] == m[n])
    && (forall n :: n in kept ==> n in m && kept[n] == m[n])
  }

  /** A part of a pending list comes loose. */
  lemma LoosenPending(all: Lookup, p: Lists, q: Lists, r: Lists, a: Address, gone: NonceMap, kept: NonceMap)
    requires Agree(all, p, q, r) && At(r, a) == map[]
    requires Splits(At(p, a), kept, gone)
    ensures Agree(all, With(p, a, kept), q, With(r, a, gone))
  {
    Expand(all, p, q, r);
    var p', r' := With(p, a, kept), With(r, a, gone);
    forall tx ensures Held(p, tx) || Held(r, tx) <==> Held(p', tx) || Held(r', tx) {
      assert At(p', tx.from) == if tx.from == a then kept else At(p, tx.from);
      assert At(r', tx.from) == if tx.from == a then gone else At(r, tx.from);
    }
  }

  /** The same for a queued list. */
  lemma LoosenQueued(all: Lookup, p: Lists, q: Lists, r: Lists, a: Address, gone: NonceMap, kept: NonceMap)
    requires Agree(all, p, q, r) && At(r, a) == map[]
    requires Splits(At(q, a), kept, gone)
    ensures Agree(all, p, With(q, a, kept), With(r, a, gone))
  {
    Expand(all, p, q, r);
    LoosenPending(all, q, p, r, a, gone, kept);
  }

  /** A loose transaction joins a list in which its nonce is free. */
  lemma JoinPending(all: Lookup, p: Lists, q: Lists, r: Lists, tx: Transaction)
    requires Agree(all, p, q, r) && Held(r, tx)
    ensures Agree(all, With(p, tx.from, At(p, tx.from)[tx.nonce := tx]), q,
                  With(r, tx.from, At(r, tx.from) - {tx.nonce}))
  {
    Expand(all, p, q, r);
    var a := tx.from;
    var p', r' := With(p, a, At(p, a)[tx.nonce := tx]), With(r, a, At(r, a) - {tx.nonce});
    forall x ensures Held(p, x) || Held(r, x) <==> Held(p', x) || Held(r', x) {
      assert At(p', x.from) == if x.from == a then At(p, a)[tx.nonce := tx] else At(p, x.from);
      assert At(r', x.from) == if x.from == a then At(r, a) - {tx.nonce} else At(r, x.from);
    }
  }

  lemma JoinQueued(all: Lookup, p: Lists, q: Lists, r: Lists, tx: Transaction)
    requires Agree(all, p, q, r) && Held(r, tx)
    ensures Agree(all, p, With(q, tx.from, At(q, tx.from)[tx.nonce := tx]),
                  With(r, tx.from, At(r, tx.from) - {tx.nonce}))
  {
    Expand(all, p, q, r);
    JoinPending(all, q, p, r, tx);
  }

  lemma HeldDropped(r: Lists, tx: Transaction, r': Lists, t: Transaction)
    requires Held(r, tx) && r' == With(r, tx.from, At(r, tx.from) - {tx.nonce})
    ensures Held(r', t) <==> Held(r, t) && t != tx
  {
    assert At(r', t.from) == if t.from == tx.from then At(r, tx.from) - {tx.nonce} else At(r, t.from);
  }

  /** A loose transaction leaves the index. */
  lemma DropLoose(all: Lookup, p: Lists, q: Lists, r: Lists, tx: Transaction)
    requires Agree(all, p, q, r) && Held(r, tx)
    ensures Agree(all - {tx.Hash()}, p, q, With(r, tx.from, At(r, tx.from) - {tx.nonce}))
    ensures tx.Hash() in all
  {
    Expand(all, p, q, r);
    var a := tx.from;
    var r' := With(r, a, At(r, a) - {tx.nonce});
    assert tx.Hash().tx == tx;
    forall h ensures h in all - {tx.Hash()} <==> Held(p, h.tx) || Held(q, h.tx) || Held(r', h.tx) {
      HeldDropped(r, tx, r', h.tx);
      assert HashOf(h.tx) == h;
    }
    assert AgreeInFull(all - {tx.Hash()}, p, q, r');
  }

  /** Loose lists matter only through what they hold. */
  lemma SameLoose(all: Lookup, p: Lists, q: Lists, r: Lists, r': Lists)
    requires Agree(all, p, q, r) && forall a :: At(r, a) == At(r', a)
    ensures Agree(all, p, q, r')
  {
    Expand(all, p, q, r);
    forall tx ensures Held(r, tx) <==> Held(r', tx) {}
  }

  lemma SameLists(all: Lookup, p: Lists, q: Lists, r: Lists, p': Lists, q': Lists)
    requires Agree(all, p, q, r) && (forall a :: At(p, a) == At(p', a)) && (forall a :: At(q, a) == At(q', a))
    ensures Agree(all, p', q', r)
  {
    Expand(all, p, q, r);
    forall tx ensures (Held(p, tx) <==> Held(p', tx)) && (Held(q, tx) <==> Held(q', tx)) {}
  }

  lemma HeldAdded(q: Lists, tx: Transaction, q': Lists, t: Transaction)
    requires tx.nonce !in At(q, tx.from) && q' == With(q, tx.from, At(q, tx.from)[tx.nonce := tx])
    ensures Held(q', t) <==> t == tx || Held(q, t)
  {
    assert At(q', t.from) == if t.from == tx.from then At(q, tx.from)[tx.nonce := tx] else At(q, t.from);
  }

  lemma PutStaysOwned(l: Lists, tx: Transaction)
    requires Owned(l) && tx.signed
    ensures Owned(With(l, tx.from, At(l, tx.from)[tx.nonce := tx]))
  {
  }

  lemma PutStaysApart(l: Lists, tx: Transaction, m: Lists)
    requires (Apart(l, m) || Apart(m, l)) && tx.nonce !in At(m, tx.from)
    ensures var l' := With(l, tx.from, At(l, tx.from)[tx.nonce := tx]); Apart(l', m) && Apart(m, l')
  {
  }

  lemma HeldReplaced(p: Lists, tx: Transaction, held: Transaction, p': Lists, t: Transaction)
    requires tx.nonce in At(p, tx.from) && held == At(p, tx.from)[tx.nonce] && held.nonce == tx.nonce && held.from == tx.from
    requires p' == With(p, tx.from, At(p, tx.from)[tx.nonce := tx])
    ensures Held(p', t) <==> t == tx || (Held(p, t) && t != held)
  {
    assert At(p', t.from) == if t.from == tx.from then At(p, tx.from)[tx.nonce := tx] else At(p, t.from);
  }

  /** A new transaction takes the place, in a list and in the index, of one with its nonce. */
  lemma ReplacePending(all: Lookup, p: Lists, q: Lists, r: Lists, tx: Transaction)
    requires Agree(all, p, q, r) && tx.signed && tx.nonce in At(p, tx.from) && tx.Hash() !in all
    ensures var held := At(p, tx.from)[tx.nonce];
            && held.Hash() in all && held.Hash() != tx.Hash() && held.from == tx.from && held.signed
            && Agree((all - {held.Hash()})[tx.Hash() := tx], With(p, tx.from, At(p, tx.from)[tx.nonce := tx]), q, r)
  {
    Expand(all, p, q, r);
    var a := tx.from;
    var held := At(p, a)[tx.nonce];
    var p' := With(p, a, At(p, a)[tx.nonce := tx]);
    assert Held(p, held) && held.Hash().tx == held && tx.Hash().tx == tx;
    forall h ensures h in (all - {held.Hash()})[tx.Hash() := tx] <==>
                     Held(p', h.tx) || Held(q, h.tx) || Held(r, h.tx) {
      HeldReplaced(p, tx, held, p', h.tx);
      assert HashOf(h.tx) == h;
    }
    PutStaysOwned(p, tx);
    PutStaysApart(p, tx, q);
    PutStaysApart(p, tx, r);
    assert AgreeInFull((all - {held.Hash()})[tx.Hash() := tx], p', q, r);
  }

  lemma ReplaceQueued(all: Lookup, p: Lists, q: Lists, r: Lists, tx: Transaction)
    requires Agree(all, p, q, r) && tx.signed && tx.nonce in At(q, tx.from) && tx.Hash() !in all
    ensures var held := At(q, tx.from)[tx.nonce];
            && held.Hash() in all && held.Hash() != tx.Hash() && held.from == tx.from && held.signed
            && Agree((all - {held.Hash()})[tx.Hash() := tx], p, With(q, tx.from, At(q, tx.from)[tx.nonce := tx]), r)
  {
    Expand(all, p, q, r);
    ReplacePending(all, q, p, r, tx);
  }

  /** A new transaction whose nonce is free joins the index and a queued list. */
  lemma AddQueued(all: Lookup, p: Lists, q: Lists, r: Lists, tx: Transaction)
    requires Agree(all, p, q, r) && tx.signed
    requires tx.nonce !in At(p, tx.from) && tx.nonce !in At(q, tx.from) && tx.nonce !in At(r, tx.from)
    ensures tx.Hash() !in all
    ensures Agree(all[tx.Hash() := tx], p, With(q, tx.from, At(q, tx.from)[tx.nonce := tx]), r)
  {
    Expand(all, p, q, r);
    var a := tx.from;
    var q' := With(q, a, At(q, a)[tx.nonce := tx]);
    assert tx.Hash().tx == tx;
    forall h ensures h in all[tx.Hash() := tx] <==> Held(p, h.tx) || Held(q', h.tx) || Held(r, h.tx) {
      HeldAdded(q, tx, q', h.tx);
      assert HashOf(h.tx) == h;
    }
    PutStaysOwned(q, tx);
    PutStaysApart(q, tx, p);
    PutStaysApart(q, tx, r);
    assert AgreeInFull(all[tx.Hash() := tx], p, q', r);
  }

  /** A loose transaction is in the index, and its nonce is free in the lists. */
  lemma LooseIsFree(all: Lookup, p: Lists, q: Lists, r: Lists, tx: Transaction)
    requires Agree(all, p, q, r) && Held(r, tx)
    ensures tx.Hash() in all && tx.signed && tx.nonce !in At(p, tx.from) && tx.nonce !in At(q, tx.from)
  {
    Expand(all, p, q, r);
    assert tx.Hash().tx == tx;
  }

  /** With nothing loose, what is in the index is pending or queued. */
  lemma IndexedIsListed(all: Lookup, p: Lists, q: Lists, h: Hash)
    requires Agree(all, p, q, map[]) && h in all
    ensures if h.tx.nonce in At(p, h.tx.from) then Held(p, h.tx) else Held(q, h.tx)
  {
    Expand(all, p, q, map[]);
  }

  lemma ListedIsIndexed(all: Lookup, p: Lists, q: Lists, r: Lists, tx: Transaction)
    requires Agree(all, p, q, r) && (Held(p, tx) || Held(q, tx))
    ensures tx.Hash() in all && tx.signed
  {
    Expand(all, p, q, r);
    assert tx.Hash().tx == tx;
  }

  lemma NoncesApart(all: Lookup, p: Lists, q: Lists, r: Lists, a: Address)
    requires Agree(all, p, q, r)
    ensures forall n :: n in At(p, a) ==> n !in At(q, a)
  {
    Expand(all, p, q, r);
  }

  lemma ListsAreOwned(all: Lookup, p: Lists, q: Lists, r: Lists)
    requires Agree(all, p, q, r)
    ensures Owned(p) && Owned(q) && Owned(r) && Apart(p, q)
  {
    Expand(all, p, q, r);
  }

  /** An indexed transaction whose nonce is pending is itself pending; one that is pending is indexed. */
  lemma ListedByHash(all: Lookup, p: Lists, q: Lists, tx: Transaction)
    requires Agree(all, p, q, map[])
    ensures Held(p, tx) <==> tx.Hash() in all && tx.nonce in At(p, tx.from)
  {
    Expand(all, p, q, map[]);
    assert tx.Hash().tx == tx;
  }
}
