/** The transaction pool of core/tx_pool.go. */
module TxPools {
  import opened Basics
  import opened Transactions
  import opened NonceMaps
  import opened TxLists
  import opened TxPricing
  import opened PoolViews
  import opened TxNoncers
  import opened Fairness
  import opened PoolSteps
  import opened Additions
  import opened Reorgs
  import opened Heartbeats
  import IntrinsicGas
  import TxSortedMaps

  class TxPool {
    const config: Config
    var gasPrice: nat
    var currentState: State
    var pendingNonces: TxNoncer
    var currentMaxGas: nat
    var istanbul: bool
    var locals: set<Address>
    var pending: Lists
    var queue: Lists
    var beats: map<Address, nat>
    const all: TxLookup
    const priced: TxPricedList

    /** Every transaction that was ever added without an error. */
    ghost var accepted: set<Hash>

    /** No transaction was put into the price heap while it was still in it. */
    ghost var clean: bool

    ghost predicate Priced(but: seq<Transaction>, owed: int)
      reads `clean, all, priced
    {
      && priced.all == all && all.Valid() && priced.Valid()
      && priced.Covers(but) && (clean ==> priced.Balanced(owed))
    }

    ghost predicate ValidInFull(r: Lists, but: seq<Transaction>, owed: int)
      reads `pending, `queue, `beats, `clean, all, priced
    {
      && Priced(but, owed)
      && Agree(all.all, pending, queue, r)
      && forall a :: a in queue ==> a in beats
    }

    /** The views agree, up to loose transactions `r`, transactions `but` taken out of the price heap,
        and `owed` removals not yet reported to it; guarded, by `Inside`, as `Agree` is. */
    ghost predicate Valid(r: Lists, but: seq<Transaction>, owed: int)
      reads `pending, `queue, `beats, `clean, all, priced
    {
      forall k {:trigger Inside(k)} :: Inside(k) ==> ValidInFull(r, but, owed)
    }

    /** Every transaction was accepted once, and is local or bids at least the pool's price. */
    ghost predicate Floor()
      reads `accepted, `locals, `gasPrice, all
    {
      Admitted(all.all, accepted, locals, gasPrice)
    }

    ghost predicate ConsistentInFull()
      reads `pending, `queue, `beats, `clean, `accepted, `locals, `gasPrice, all, priced
    {
      && Valid(map[], [], 0) && NoneEmpty(pending) && NoneEmpty(queue) && Floor()
      && config.Usable()
    }

    /** What holds between operations; guarded, by `Inside`, as `Agree` is. */
    ghost predicate Consistent()
      reads `pending, `queue, `beats, `clean, `accepted, `locals, `gasPrice, all, priced
    {
      forall k {:trigger Inside(k)} :: Inside(k) ==> ConsistentInFull()
    }

    lemma Indexed(r: Lists, but: seq<Transaction>, owed: int, h: Hash)
      requires Valid(r, but, owed) && h in all.all
      ensures all.all[h] == h.tx
    {
      assert Inside(0);
    }

    lemma Agreed(r: Lists, but: seq<Transaction>, owed: int)
      requires Valid(r, but, owed)
      ensures Agree(all.all, pending, queue, r)
    {
      assert Inside(0);
    }

    lemma Unpack(r: Lists, but: seq<Transaction>, owed: int)
      requires Valid(r, but, owed)
      ensures Priced(but, owed) && Agree(all.all, pending, queue, r) && forall a :: a in queue ==> a in beats
    {
      assert Inside(0);
    }

    lemma Validate(r: Lists, but: seq<Transaction>, owed: int)
      requires Priced(but, owed) && Agree(all.all, pending, queue, r) && forall a :: a in queue ==> a in beats
      ensures Valid(r, but, owed)
    {
    }

    lemma Seal()
      requires Valid(map[], [], 0) && NoneEmpty(pending) && NoneEmpty(queue) && Floor() && config.Usable()
      ensures Consistent()
    {
    }

    lemma Unseal()
      requires Consistent()
      ensures Valid(map[], [], 0) && NoneEmpty(pending) && NoneEmpty(queue) && Floor() && config.Usable()
    {
      assert Inside(0);
    }

    lemma ViewsAgree()
      requires Consistent()
      ensures Agree(all.all, pending, queue, map[]) && NoneEmpty(pending) && NoneEmpty(queue)
      ensures config.Usable() && forall a :: a in queue ==> a in beats
    {
      assert Inside(0);
    }

    lemma HoldsOnlyAccepted()
      requires Consistent()
      ensures config.Usable() && forall h :: h in all.all ==> h in accepted
    {
      assert Inside(0);
      ExpandAdmitted(all.all, accepted, locals, gasPrice);
    }

    /** Every account's pending nonces run from its state nonce up to its virtual nonce, without a gap. */
    ghost predicate Contiguous()
      reads `pending, `currentState, `pendingNonces, pendingNonces
    {
      forall a :: Interval(At(pending, a), currentState.Nonce(a), pendingNonces.Next(a))
    }

    /** What transactions are judged by. */
    ghost function Terms(): Rules
      reads `gasPrice, `currentState, `currentMaxGas, `istanbul
    {
      Rules(config, gasPrice, currentState, currentMaxGas, istanbul)
    }

    ghost function Now(): Views
      reads `pending, `queue, `locals, all, priced
    {
      Views(all.all, pending, queue, locals, priced.items)
    }

    /** Everything pending can be paid for at the pool's state. */
    ghost predicate IsSolvent()
      reads `pending, `currentState, `currentMaxGas
    {
      Solvent(pending, currentState, currentMaxGas)
    }

    /** A pool at the state of the current head. */
    constructor (config: Config, locals: set<Address>, state: State, maxGas: nat, istanbul: bool)
      ensures Consistent() && Contiguous() && IsSolvent() && Now() == Views(map[], map[], map[], locals, [])
      ensures Terms() == Rules(config.Sanitize(), config.Sanitize().priceLimit, state, maxGas, istanbul)
      ensures accepted == {} && clean
      ensures fresh(all) && fresh(priced) && fresh(pendingNonces)
    {
      this.config, gasPrice, this.locals := config.Sanitize(), config.Sanitize().priceLimit, locals;
      currentState, currentMaxGas, this.istanbul := state, maxGas, istanbul;
      pending, queue, beats, accepted, clean := map[], map[], map[], {}, true;
      pendingNonces := new TxNoncer(state);
      var lookup := new TxLookup();
      all := lookup;
      priced := new TxPricedList(lookup);
    }

    /** Enters a transaction into the index and the price heap. */
    method Record(tx: Transaction)
      requires Priced([], 0) && tx.Hash() !in all.all && (clean ==> tx !in priced.items)
      modifies all, priced
      ensures Priced([], 0) && all.all == old(all.all)[tx.Hash() := tx]
      ensures |priced.items| == |old(priced.items)| + 1
    {
      AddedCount(all.all, tx);
      all.Add(tx);
      ghost var before := priced.items;
      priced.Put(tx);
      SameMultiset(priced.items, before + [tx]);
    }

    /** Takes a transaction out of the index and reports it as stale in the price heap. */
    method Forget(hash: Hash)
      requires Priced([], 0) && hash in all.all
      modifies all, priced
      ensures Priced([], 0) && all.all == old(all.all) - {hash} && |priced.items| <= |old(priced.items)|
      ensures forall y :: y in priced.items ==> y in old(priced.items) || y.Hash() in all.all
    {
      RemovedCount(all.all, hash);
      all.Remove(hash);
      priced.Removed(1);
    }

    method Exchange(hash: Hash, tx: Transaction)
      requires Priced([], 0) && hash in all.all && tx.Hash() !in all.all && (clean ==> tx !in priced.items)
      modifies all, priced
      ensures Priced([], 0) && all.all == (old(all.all) - {hash})[tx.Hash() := tx]
      ensures |priced.items| <= |old(priced.items)| + 1
    {
      Forget(hash);
      Record(tx);
    }

    /** Removes a loose transaction from the index. */
    method DropOne(tx: Transaction, ghost r: Lists, ghost but: seq<Transaction>, ghost owed: int)
      requires Valid(r, but, owed) && Held(r, tx)
      modifies all
      ensures Valid(With(r, tx.from, At(r, tx.from) - {tx.nonce}), but, owed + 1)
      ensures all.all == old(all.all) - {tx.Hash()}
    {
      assert Inside(0);
      DropLoose(all.all, pending, queue, r, tx);
      RemovedCount(all.all, tx.Hash());
      all.Remove(tx.Hash());
      Validate(With(r, tx.from, At(r, tx.from) - {tx.nonce}), but, owed + 1);
    }

    /** Removes the loose transactions `gone` of `a` from the index. */
    method DropAll(gone: NonceMap, ghost a: Address, ghost but: seq<Transaction>, ghost owed: int)
      requires Valid(map[a := gone], but, owed)
      modifies all
      ensures Valid(map[], but, owed + Size(gone))
      ensures forall h :: h in all.all <==> h in old(all.all) && !(h.tx.from == a && Holds(gone, h.tx))
    {
      var todo := Keys(gone);
      ghost var r: Lists := map[a := gone];
      ghost var before := all.all;
      assert Restrict(gone, todo) == gone;
      while todo != {}
        invariant todo <= Keys(gone) && Valid(r, but, owed + Size(gone) - |todo|)
        invariant r == map[a := Restrict(gone, todo)]
        invariant forall h :: h in all.all <==>
                              h in before && !(h.tx.from == a && Holds(gone, h.tx) && h.tx.nonce !in todo)
      {
        var n :| n in todo;
        Agreed(r, but, owed + Size(gone) - |todo|);
        LooseOne(all.all, pending, queue, r, a, gone, todo, n);
        DropOne(gone[n], r, but, owed + Size(gone) - |todo|);
        todo := todo - {n};
        r := map[a := Restrict(gone, todo)];
      }
      Agreed(r, but, owed + Size(gone));
      SameLoose(all.all, pending, queue, r, map[]);
    }

    /** Puts a transaction into its sender's queue: a new one, or a loose one (in `r`).  A new one must
        outbid the queued transaction with its nonce, if there is one. */
    method EnqueueTx(tx: Transaction, now: nat, ghost r: Lists, ghost but: seq<Transaction>, ghost owed: int)
      returns (replaced: bool, ok: bool)
      requires Valid(r, but, owed)
      requires tx.Hash() in all.all ==> Held(r, tx)
      requires tx.Hash() !in all.all ==>
                 && tx.signed && but == [] && owed == 0
                 && tx.nonce !in At(pending, tx.from) && tx.nonce !in At(r, tx.from)
                 && (clean && Fits(At(queue, tx.from), tx, config.priceBump) ==> tx !in priced.items)
      modifies this`queue, this`beats, all, priced
      ensures ok == Fits(old(At(queue, tx.from)), tx, config.priceBump)
      ensures !ok ==> queue == old(queue) && all.all == old(all.all) && Valid(r, but, owed) && !replaced
      ensures ok ==> queue == With(old(queue), tx.from, old(At(queue, tx.from))[tx.nonce := tx])
      ensures ok ==> replaced == (tx.nonce in old(At(queue, tx.from)))
      ensures beats == if ok && tx.from !in old(beats) then old(beats)[tx.from := now] else old(beats)
      ensures |priced.items| <= |old(priced.items)| + 1 && (!ok ==> priced.items == old(priced.items))
      ensures ok && tx.Hash() !in old(all.all) ==>
                && Valid(r, but, owed)
                && all.all == (if replaced then old(all.all) - {old(At(queue, tx.from))[tx.nonce].Hash()}
                               else old(all.all))[tx.Hash() := tx]
      ensures tx.Hash() in old(all.all) ==>
                ok && !replaced && all.all == old(all.all) && priced.items == old(priced.items)
                && priced.stales == old(priced.stales)
                && Valid(With(r, tx.from, At(r, tx.from) - {tx.nonce}), but, owed)
    {
      assert Inside(0);
      replaced := false;
      if tx.Hash() in all.all {
        LooseIsFree(all.all, pending, queue, r, tx);
      }
      var from := tx.from;
      var list := At(queue, from);
      ok := Fits(list, tx, config.priceBump);
      if !ok {
        return;
      }
      replaced := tx.nonce in list;
      ghost var left := r;
      if tx.Hash() in all.all {
        left := With(r, tx.from, At(r, tx.from) - {tx.nonce});
        JoinQueued(all.all, pending, queue, r, tx);
      } else if replaced {
        ReplaceQueued(all.all, pending, queue, r, tx);
        Forget(list[tx.nonce].Hash());
      } else {
        AddQueued(all.all, pending, queue, r, tx);
      }
      if tx.Hash() !in all.all {
        Record(tx);
      }
      queue := With(queue, from, list[tx.nonce := tx]);
      if from !in beats {
        beats := beats[from := now];
      }
      Validate(left, but, owed);
    }

    /** Puts the loose transactions `gone` of `a` into its queue. */
    method EnqueueAll(gone: NonceMap, a: Address, now: nat, ghost but: seq<Transaction>, ghost owed: int)
      requires Valid(map[a := gone], but, owed)
      modifies this`queue, this`beats, all, priced
      ensures Valid(map[], but, owed) && all.all == old(all.all) && priced.items == old(priced.items)
      ensures priced.stales == old(priced.stales)
      ensures queue == Merge(old(queue), a, gone)
      ensures beats == Touched(old(beats), a, gone, now)
    {
      var todo := Keys(gone);
      ghost var r: Lists := map[a := gone];
      ghost var q := queue;
      assert Restrict(gone, todo) == gone;
      assert Without(gone, gone) == map[];
      while todo != {}
        invariant todo <= Keys(gone) && Valid(r, but, owed)
        invariant r == map[a := Restrict(gone, todo)]
        invariant all.all == old(all.all) && priced.items == old(priced.items)
        invariant priced.stales == old(priced.stales)
        invariant queue == Merge(q, a, Without(gone, Restrict(gone, todo)))
        invariant beats == if todo != Keys(gone) && a !in old(beats) then old(beats)[a := now] else old(beats)
      {
        var n :| n in todo;
        Agreed(r, but, owed);
        LooseOne(all.all, pending, queue, r, a, gone, todo, n);
        MergeOne(q, a, gone, todo, n);
        var replaced, ok := EnqueueTx(gone[n], now, r, but, owed);
        todo := todo - {n};
        r := map[a := Restrict(gone, todo)];
      }
      assert Without(gone, Restrict(gone, {})) == gone;
      Agreed(r, but, owed);
      SameLoose(all.all, pending, queue, r, map[]);
    }

    /** Takes a transaction out of the index, and reports it to the price heap unless it has left that already. */
    method Unindex(hash: Hash, outofbound: bool, ghost but: seq<Transaction>, ghost owed: int)
      requires Priced(but, owed) && hash in all.all
      requires outofbound ==> but == [] && owed == 0
      modifies all, priced
      ensures Priced(but, if outofbound then 0 else owed + 1) && all.all == old(all.all) - {hash}
      ensures !outofbound ==> priced.items == old(priced.items)
    {
      if outofbound {
        Forget(hash);
      } else {
        RemovedCount(all.all, hash);
        all.Remove(hash);
      }
    }

    /** The pending part of `RemoveTx`: what follows the transaction falls back into the queue. */
    method RemovePending(tx: Transaction, outofbound: bool, now: nat, ghost but: seq<Transaction>, ghost owed: int)
      requires Valid(map[], but, owed) && NoneEmpty(pending) && NoneEmpty(queue) && Held(pending, tx)
      requires outofbound ==> but == [] && owed == 0
      modifies this`pending, this`queue, this`beats, all, priced
      ensures Valid(map[], but, if outofbound then 0 else owed + 1) && NoneEmpty(pending) && NoneEmpty(queue)
      ensures all.all == old(all.all) - {tx.Hash()}
      ensures !outofbound ==> priced.items == old(priced.items)
      ensures pending == CutPending(old(pending), tx)
      ensures queue == Merge(old(queue), tx.from, AtLeast(old(At(pending, tx.from)), tx.nonce + 1))
      ensures Hushed([tx], old(beats), beats, now)
    {
      assert Inside(0);
      var a := tx.from;
      var list := At(pending, a);
      var invalids := AtLeast(list, tx.nonce + 1);
      StrictRemoval(all.all, pending, queue, tx);
      Unindex(tx.Hash(), outofbound, but, owed);
      pending := CutPending(pending, tx);
      EnqueueAll(invalids, a, now, but, if outofbound then 0 else owed + 1);
    }

    /** The queued part of `RemoveTx`. */
    method RemoveQueued(tx: Transaction, outofbound: bool, ghost but: seq<Transaction>, ghost owed: int)
      requires Valid(map[], but, owed) && NoneEmpty(queue) && Held(queue, tx)
      requires tx.nonce !in At(pending, tx.from)
      requires outofbound ==> but == [] && owed == 0
      modifies this`queue, this`beats, all, priced
      ensures Valid(map[], but, if outofbound then 0 else owed + 1) && NoneEmpty(queue)
      ensures all.all == old(all.all) - {tx.Hash()}
      ensures !outofbound ==> priced.items == old(priced.items)
      ensures queue == CutQueued(old(queue), tx)
      ensures beats == if tx.from in queue then old(beats) else old(beats) - {tx.from}
    {
      Unpack(map[], but, owed);
      QueuedRemoval(all.all, pending, queue, tx);
      Unindex(tx.Hash(), outofbound, but, owed);
      queue := CutQueued(queue, tx);
      if tx.from !in queue {
        beats := beats - {tx.from};
      }
      Validate(map[], but, if outofbound then 0 else owed + 1);
    }

    method RemoveKnown(tx: Transaction, outofbound: bool, now: nat, ghost but: seq<Transaction>, ghost owed: int)
      requires Valid(map[], but, owed) && NoneEmpty(pending) && NoneEmpty(queue) && tx.Hash() in all.all
      requires outofbound ==> but == [] && owed == 0
      modifies this`pending, this`queue, this`beats, all, priced, pendingNonces
      ensures NoneEmpty(pending) && NoneEmpty(queue) && all.all == old(all.all) - {tx.Hash()}
      ensures Valid(map[], but, if outofbound then 0 else owed + 1)
      ensures !outofbound ==> priced.items == old(priced.items)
      ensures Unlisted(old(pending), old(queue), tx, pending, queue)
      ensures forall b :: pendingNonces.Next(b) == NextAfter(old(pending), tx, b, old(pendingNonces.Next(b)))
      ensures old(Contiguous()) ==> Contiguous()
      ensures tx.nonce !in old(At(pending, tx.from)) ==> Stills(old(queue), old(beats), queue, beats)
      ensures Hushed([tx], old(beats), beats, now)
    {
      Agreed(map[], but, owed);
      IndexedIsListed(all.all, pending, queue, tx.Hash());
      if tx.nonce in At(pending, tx.from) {
        RemovePending(tx, outofbound, now, but, owed);
        pendingNonces.SetIfLower(tx.from, tx.nonce);
      } else {
        RemoveQueued(tx, outofbound, but, owed);
      }
      forall a | old(Contiguous())
        ensures Interval(At(pending, a), currentState.Nonce(a), pendingNonces.Next(a))
      {
        CutInterval(old(pending), tx, a, currentState.Nonce(a), old(pendingNonces.Next(a)));
      }
    }

    /** Removes a transaction from every view; unknown hashes are ignored.  If it was pending, the
        transactions after it fall back into the queue and the virtual nonce drops to it. */
    method RemoveTx(hash: Hash, outofbound: bool, now: nat, ghost but: seq<Transaction>, ghost owed: int)
      requires Valid(map[], but, owed) && NoneEmpty(pending) && NoneEmpty(queue)
      requires outofbound ==> but == [] && owed == 0
      modifies this`pending, this`queue, this`beats, all, priced, pendingNonces
      ensures NoneEmpty(pending) && NoneEmpty(queue) && all.all == old(all.all) - {hash}
      ensures hash !in old(all.all) ==> Valid(map[], but, owed)
      ensures hash in old(all.all) ==> Valid(map[], but, if outofbound then 0 else owed + 1)
      ensures !outofbound ==> priced.items == old(priced.items)
      ensures hash !in old(all.all) ==> pending == old(pending) && queue == old(queue)
      ensures hash in old(all.all) ==> Unlisted(old(pending), old(queue), hash.tx, pending, queue)
      ensures forall b :: pendingNonces.Next(b) ==
                          if hash in old(all.all) then NextAfter(old(pending), hash.tx, b, old(pendingNonces.Next(b)))
                          else old(pendingNonces.Next(b))
      ensures old(Contiguous()) ==> Contiguous()
      ensures hash in old(all.all) && hash.tx.nonce !in old(At(pending, hash.tx.from)) ==>
                Stills(old(queue), old(beats), queue, beats)
      ensures Hushed([hash.tx], old(beats), beats, now)
    {
      if hash in all.all {
        Indexed(map[], but, owed, hash);
        RemoveKnown(all.all[hash], outofbound, now, but, owed);
      }
    }

    /** One round of `RemoveDropped`. */
    method RemoveNext(drop: seq<Transaction>, i: nat, now: nat, ghost p0: Lists)
      requires i < |drop| && Valid(map[], drop[i..], i - |drop|) && NoneEmpty(pending) && NoneEmpty(queue)
      requires (clean ==> NoDuplicates(multiset(drop))) && Owned(p0)
      requires forall a :: At(pending, a) == Spared(At(p0, a), drop[..i])
      requires drop[i] in drop[..i] || drop[i].Hash() in all.all
      modifies this`pending, this`queue, this`beats, all, priced, pendingNonces
      ensures Valid(map[], drop[i + 1..], i + 1 - |drop|) && NoneEmpty(pending) && NoneEmpty(queue)
      ensures priced.items == old(priced.items)
      ensures forall h :: h in all.all <==> h in old(all.all) && h.tx != drop[i]
      ensures forall a :: At(pending, a) == Spared(At(p0, a), drop[..i + 1])
      ensures forall a, next :: Lowers(At(p0, a), drop[..i], next, old(pendingNonces.Next(a))) ==>
                                Lowers(At(p0, a), drop[..i + 1], next, pendingNonces.Next(a))
      ensures old(Contiguous()) ==> Contiguous()
      ensures Hushed([drop[i]], old(beats), beats, now)
    {
      Agreed(map[], drop[i..], i - |drop|);
      ghost var p := pending;
      var hash := drop[i].Hash();
      NextDropped(drop, i, clean);
      ListedByHash(all.all, pending, queue, drop[i]);
      RemoveTx(hash, false, now, drop[i..], i - |drop|);
      assert drop[i..] == [drop[i]] + drop[i + 1..] && drop[..i + 1] == drop[..i] + [drop[i]];
      assert hash.tx == drop[i];
      SparedNext(p0, p, drop, i, pending);
      forall a, next | Lowers(At(p0, a), drop[..i], next, old(pendingNonces.Next(a)))
        ensures Lowers(At(p0, a), drop[..i + 1], next, pendingNonces.Next(a))
      {
        LowersNext(p0, p, drop, i, a, next, old(pendingNonces.Next(a)), pendingNonces.Next(a));
      }
    }

    /** Removes the transactions the price heap has given up. */
    method RemoveDropped(drop: seq<Transaction>, now: nat)
      requires Valid(map[], drop, -|drop|) && NoneEmpty(pending) && NoneEmpty(queue)
      requires clean ==> NoDuplicates(multiset(drop))
      requires forall tx :: tx in drop ==> tx.Hash() in all.all
      modifies this`pending, this`queue, this`beats, all, priced, pendingNonces
      ensures Valid(map[], [], 0) && NoneEmpty(pending) && NoneEmpty(queue) && priced.items == old(priced.items)
      ensures Cleared(old(Now()), drop, Now())
      ensures forall a :: Lowers(old(At(pending, a)), drop, old(pendingNonces.Next(a)), pendingNonces.Next(a))
      ensures old(Contiguous()) ==> Contiguous()
      ensures Hushed(drop, old(beats), beats, now)
    {
      ghost var before, p0 := all.all, pending;
      Agreed(map[], drop, -|drop|);
      ListsAreOwned(all.all, pending, queue, map[]);
      for i := 0 to |drop|
        invariant Valid(map[], drop[i..], i - |drop|) && NoneEmpty(pending) && NoneEmpty(queue)
        invariant priced.items == old(priced.items)
        invariant forall h :: h in all.all <==> h in before && h.tx !in drop[..i]
        invariant forall a :: At(pending, a) == Spared(At(p0, a), drop[..i])
        invariant forall a :: Lowers(At(p0, a), drop[..i], old(pendingNonces.Next(a)), pendingNonces.Next(a))
        invariant old(Contiguous()) ==> Contiguous()
        invariant Hushed(drop[..i], old(beats), beats, now)
      {
        RemoveNext(drop, i, now, p0);
      }
      assert drop[|drop|..] == [] && drop[..|drop|] == drop;
      Agreed(map[], [], 0);
    }

    method ValidateTx(tx: Transaction, local: bool) returns (err: TxError)
      ensures err == NoError <==> Terms().Accepts(tx, local, locals)
      ensures err != NoError ==> Terms().Blames(err, tx, local, locals)
    {
      if tx.size > TX_MAX_SIZE {
        return OversizedData;
      }
      if tx.value < 0 {
        return NegativeValue;
      }
      if currentMaxGas < tx.gas {
        return GasLimit;
      }
      if !tx.signed {
        return InvalidSender;
      }
      if !(local || tx.from in locals) && tx.gasPrice < gasPrice {
        return Underpriced;
      }
      if currentState.Nonce(tx.from) > tx.nonce {
        return NonceTooLow;
      }
      if currentState.Balance(tx.from) < tx.Cost() {
        return InsufficientFunds;
      }
      var intrGas := IntrinsicGas.IntrinsicGas(tx.data, tx.creation, true, istanbul);
      if intrGas == None {
        return GasUintOverflow;
      }
      if tx.gas < intrGas.value {
        return IntrinsicGasTooLow;
      }
      err := NoError;
    }

    ghost predicate Full()
      reads all
    {
      |Hashes(all.all)| >= config.globalSlots + config.globalQueue
    }

    /** Removes the cheapest transactions that are not local to free the slots `tx` needs. */
    method DiscardFor(tx: Transaction, now: nat) returns (crash: bool, ghost drop: seq<Transaction>)
      requires Consistent() && Full()
      modifies this`pending, this`queue, this`beats, all, priced, pendingNonces
      ensures Consistent() && (old(Contiguous()) ==> Contiguous())
      ensures Discards(Terms().Limit(), tx, old(Now()), drop, crash, Now())
      ensures forall a :: Lowers(old(At(pending, a)), drop, old(pendingNonces.Next(a)), pendingNonces.Next(a))
      ensures Hushed(drop, old(beats), beats, now)
    {
      assert Inside(0);
      SlotSumAtLeastCount(Hashes(all.all));
      ghost var was := Now();
      var slots := all.slots - (config.globalSlots + config.globalQueue) + NumSlots(tx);
      var dropped;
      dropped, crash := priced.Discard(slots, locals);
      drop := dropped;
      if !crash {
        RemoveDropped(dropped, now);
        FewerAdmitted(was.all, all.all, accepted, locals, gasPrice);
      }
      DiscardsBy(Terms().Limit(), tx, slots, was, drop, crash, Now());
    }

    /** Whether a transaction that is not local bids no more than every other one. */
    method OutbidsNobody(tx: Transaction, local: bool) returns (r: bool)
      requires Consistent()
      modifies priced
      ensures Consistent() && Pruned(all.all, old(priced.items), priced.items)
      ensures local || IsLocal(tx, locals) ==> priced.items == old(priced.items)
      ensures r <==> !local && !IsLocal(tx, locals) && all.all != map[]
                     && forall h :: h in all.all ==> tx.gasPrice <= h.tx.gasPrice
    {
      assert Inside(0);
      r := false;
      if local {
        ItselfPruned(all.all, priced.items);
      } else {
        r := priced.Underpriced(tx, locals);
      }
    }

    /** If the pool is full, rejects a transaction that outbids nobody, and else makes room for it by
        removing the cheapest transactions that are not local. */
    method MakeRoom(tx: Transaction, local: bool, now: nat)
      returns (ok: bool, crash: bool, ghost drop: seq<Transaction>, ghost held: seq<Transaction>)
      requires Consistent()
      modifies this`pending, this`queue, this`beats, all, priced, pendingNonces
      ensures Consistent() && (old(Contiguous()) ==> Contiguous())
      ensures ok <==> !BidsTooLittle(Terms().Limit(), tx, local, old(Now()))
      ensures !ok ==> !crash && drop == [] && Pruned(old(all.all), old(priced.items), held)
                      && Now() == old(Now()).(heap := held)
      ensures ok ==> MakesRoom(Terms().Limit(), tx, local, old(Now()), held, drop, crash, Now())
      ensures forall h :: h in all.all ==> h in old(all.all)
      ensures forall a :: Lowers(old(At(pending, a)), drop, old(pendingNonces.Next(a)), pendingNonces.Next(a))
      ensures Hushed(drop, old(beats), beats, now)
    {
      ghost var was := Now();
      ok, crash, drop, held := true, false, [], priced.items;
      var count := all.Count();
      if count >= config.globalSlots + config.globalQueue {
        var under := OutbidsNobody(tx, local);
        held := priced.items;
        if under {
          ok := false;
          return;
        }
        crash, drop := DiscardFor(tx, now);
        FullMakesRoom(Terms().Limit(), tx, local, was, held, drop, crash, Now());
      }
    }

    /** Takes note of a transaction that will be `put` into the price heap. */
    ghost method Mark(tx: Transaction, put: bool)
      requires Valid(map[], [], 0)
      modifies this`clean
      ensures Valid(map[], [], 0) && clean == (old(clean) && (put ==> tx !in priced.items))
    {
      assert Inside(0);
      clean := clean && (put ==> tx !in priced.items);
    }

    /** Puts a new transaction in the place of a pending one with its nonce, in the list and in the index. */
    method Trade(tx: Transaction, held: Transaction, now: nat)
      requires Valid(map[], [], 0) && tx.signed && tx.nonce in At(pending, tx.from) && tx.Hash() !in all.all
      requires held == At(pending, tx.from)[tx.nonce] && (clean ==> tx !in priced.items)
      modifies this`pending, this`beats, all, priced
      ensures Valid(map[], [], 0) && beats == old(beats)[tx.from := now]
      ensures pending == With(old(pending), tx.from, old(At(pending, tx.from))[tx.nonce := tx])
      ensures all.all == (old(all.all) - {held.Hash()})[tx.Hash() := tx] && |priced.items| <= |old(priced.items)| + 1
      ensures held.Hash() in old(all.all) && held.from == tx.from
    {
      assert Inside(0);
      var list := At(pending, tx.from);
      ReplacePending(all.all, pending, queue, map[], tx);
      Exchange(held.Hash(), tx);
      pending := With(pending, tx.from, list[tx.nonce := tx]);
      beats := beats[tx.from := now];
      Validate(map[], [], 0);
    }

    /** The same transaction slot, with a transaction that bids more. */
    method SwapPending(tx: Transaction, held: Transaction, now: nat)
      requires Consistent() && tx.signed && tx.nonce in At(pending, tx.from) && tx.Hash() !in all.all
      requires held == At(pending, tx.from)[tx.nonce] && MayReplace(held, tx, config.priceBump)
      modifies this`pending, this`beats, this`accepted, this`clean, all, priced
      ensures Consistent() && beats == old(beats)[tx.from := now]
      ensures pending == With(old(pending), tx.from, old(At(pending, tx.from))[tx.nonce := tx])
      ensures all.all == (old(all.all) - {held.Hash()})[tx.Hash() := tx] && |priced.items| <= |old(priced.items)| + 1
      ensures accepted == old(accepted) + {tx.Hash()} && clean == (old(clean) && tx !in old(priced.items))
    {
      Unseal();
      ghost var before := all.all;
      Mark(tx, true);
      Trade(tx, held, now);
      DearerAdmitted(before, accepted, locals, gasPrice, held, tx);
      accepted := accepted + {tx.Hash()};
      Seal();
    }

    /** Puts a new transaction in the place of a pending one with its nonce, if it outbids that. */
    method ReplaceInPending(tx: Transaction, ghost local: bool, now: nat) returns (ok: bool)
      requires Consistent() && tx.signed && tx.nonce in At(pending, tx.from) && tx.Hash() !in all.all
      modifies this`pending, this`beats, this`accepted, this`clean, all, priced
      ensures Consistent() && (old(Contiguous()) ==> Contiguous())
      ensures Inserts(config.priceBump, tx, local, old(Now()), if ok then NoError else ReplaceUnderpriced, ok, Now())
      ensures beats == if ok then old(beats)[tx.from := now] else old(beats)
      ensures accepted == if ok then old(accepted) + {tx.Hash()} else old(accepted)
      ensures clean == (old(clean) && (ok ==> tx !in old(priced.items)))
    {
      ghost var room := Now();
      var held := At(pending, tx.from)[tx.nonce];
      ok := MayReplace(held, tx, config.priceBump);
      if ok {
        SwapPending(tx, held, now);
        SameNonces(At(room.pending, tx.from), tx);
      }
      ReplacingInserts(config.priceBump, tx, local, room, ok, Now());
    }

    /** A transaction that joined the index `index` is accepted; a local one makes its sender a local account. */
    method Welcome(tx: Transaction, local: bool, ghost index: Lookup)
      requires Valid(map[], [], 0) && NoneEmpty(pending) && NoneEmpty(queue) && config.Usable()
      requires Admitted(index, accepted, locals, gasPrice) && forall h :: h in all.all ==> h in index || h == tx.Hash()
      requires tx.signed && (local || tx.from in locals || gasPrice <= tx.gasPrice)
      modifies this`locals, this`accepted
      ensures Consistent() && accepted == old(accepted) + {tx.Hash()}
      ensures locals == if local then old(locals) + {tx.from} else old(locals)
    {
      OneMoreAdmitted(index, tx, all.all, accepted, locals, if local then locals + {tx.from} else locals, gasPrice);
      accepted := accepted + {tx.Hash()};
      if local && tx.from !in locals {
        locals := locals + {tx.from};
      }
      Seal();
    }

    /** The new transaction joins the queue, but is not admitted yet. */
    method EnqueueNew(tx: Transaction, now: nat) returns (replaced: bool, ok: bool)
      requires Consistent() && tx.Hash() !in all.all && tx.signed && tx.nonce !in At(pending, tx.from)
      modifies this`queue, this`beats, this`clean, all, priced
      ensures Valid(map[], [], 0) && NoneEmpty(pending) && NoneEmpty(queue) && config.Usable()
      ensures ok == Fits(old(At(queue, tx.from)), tx, config.priceBump)
      ensures replaced == (ok && tx.nonce in old(At(queue, tx.from)))
      ensures Admitted(old(all.all), accepted, locals, gasPrice) && |priced.items| <= |old(priced.items)| + 1
      ensures if ok then
                && queue == With(old(queue), tx.from, old(At(queue, tx.from))[tx.nonce := tx])
                && all.all == (if replaced then old(all.all) - {old(At(queue, tx.from))[tx.nonce].Hash()}
                               else old(all.all))[tx.Hash() := tx]
              else queue == old(queue) && all.all == old(all.all) && priced.items == old(priced.items)
      ensures Hears(tx, ok, false, old(beats), beats, now) && clean == (old(clean) && (ok ==> tx !in old(priced.items)))
    {
      Unseal();
      Mark(tx, Fits(At(queue, tx.from), tx, config.priceBump));
      replaced, ok := EnqueueTx(tx, now, map[], [], 0);
    }

    /** Puts a new transaction into the queue, if it outbids the queued one with its nonce. */
    method InsertQueued(tx: Transaction, local: bool, now: nat) returns (replaced: bool, err: TxError)
      requires Consistent() && tx.Hash() !in all.all && tx.signed && tx.nonce !in At(pending, tx.from)
      requires local || tx.from in locals || gasPrice <= tx.gasPrice
      modifies this`queue, this`beats, this`locals, this`accepted, this`clean, all, priced
      ensures Consistent() && Inserts(config.priceBump, tx, local, old(Now()), err, replaced, Now())
      ensures accepted == if err == NoError then old(accepted) + {tx.Hash()} else old(accepted)
      ensures Hears(tx, err == NoError, false, old(beats), beats, now)
      ensures clean == (old(clean) && (err == NoError ==> tx !in old(priced.items)))
    {
      ghost var room := Now();
      var ok;
      replaced, ok := EnqueueNew(tx, now);
      err := if ok then NoError else ReplaceUnderpriced;
      if ok {
        Welcome(tx, local, room.all);
      } else {
        Seal();
      }
      QueueingInserts(config.priceBump, tx, local, room, ok, Now());
    }

    /** The last part of `Add`: into the pending list, or into the queue.  It fails exactly when a transaction
        with the same nonce is not outbid. */
    method Insert(tx: Transaction, local: bool, now: nat) returns (replaced: bool, err: TxError)
      requires Consistent() && tx.Hash() !in all.all && tx.signed
      requires local || tx.from in locals || gasPrice <= tx.gasPrice
      modifies this`pending, this`queue, this`beats, this`locals, this`accepted, this`clean, all, priced
      ensures Consistent() && (old(Contiguous()) ==> Contiguous())
      ensures Inserts(config.priceBump, tx, local, old(Now()), err, replaced, Now())
      ensures accepted == if err == NoError then old(accepted) + {tx.Hash()} else old(accepted)
      ensures Hears(tx, err == NoError, tx.nonce in old(At(pending, tx.from)), old(beats), beats, now)
      ensures clean == (old(clean) && (err == NoError ==> tx !in old(priced.items)))
    {
      if tx.nonce in At(pending, tx.from) {
        var done := ReplaceInPending(tx, local, now);
        return done, if done then NoError else ReplaceUnderpriced;
      }
      replaced, err := InsertQueued(tx, local, now);
    }

    /** Puts a new transaction into the room that was made for it, unless making room crashed. */
    method Seat(tx: Transaction, local: bool, now: nat, crash: bool, ghost was: Views, ghost held: seq<Transaction>,
                ghost drop: seq<Transaction>)
      returns (replaced: bool, err: TxError, ghost step: Addition)
      requires Consistent() && tx.Hash() !in was.all && tx.Hash() !in all.all && Terms().Accepts(tx, local, was.locals)
      requires was.locals == locals && !BidsTooLittle(Terms().Limit(), tx, local, was)
      requires MakesRoom(Terms().Limit(), tx, local, was, held, drop, crash, Now())
      modifies this`pending, this`queue, this`beats, this`locals, this`accepted, this`clean, all, priced
      ensures Consistent() && (old(Contiguous()) ==> Contiguous())
      ensures Adds(Terms(), local, step)
      ensures step == Addition(tx, was, held, drop, crash, old(Now()), err, replaced, Now())
      ensures accepted == if err == NoError && !crash then old(accepted) + {tx.Hash()} else old(accepted)
      ensures Hears(tx, err == NoError && !crash, tx.nonce in old(At(pending, tx.from)), old(beats), beats, now)
      ensures clean == (old(clean) && !PutsAgain(step))
    {
      ghost var room := Now();
      replaced, err := false, NoError;
      if !crash {
        replaced, err := Insert(tx, local, now);
      }
      step := Addition(tx, was, held, drop, crash, room, err, replaced, Now());
      InsertionAdds(Terms(), local, step);
    }

    /** Adds an acceptable transaction: makes room, and then swaps a pending transaction with the same nonce or
        enters the queue. */
    method Admit(tx: Transaction, local: bool, now: nat)
      returns (replaced: bool, err: TxError, crash: bool, ghost step: Addition)
      requires Consistent() && tx.Hash() !in all.all && Terms().Accepts(tx, local, locals)
      modifies this`pending, this`queue, this`beats, this`locals, this`accepted, this`clean
      modifies all, priced, pendingNonces
      ensures Consistent() && (old(Contiguous()) ==> Contiguous())
      ensures Adds(Terms(), local, step) && step.tx == tx && step.before == old(Now()) && step.after == Now()
      ensures step.err == err && step.replaced == replaced && step.crash == crash
      ensures accepted == if err == NoError && !crash then old(accepted) + {tx.Hash()} else old(accepted)
      ensures forall a :: Lowers(old(At(pending, a)), step.drop, old(pendingNonces.Next(a)), pendingNonces.Next(a))
      ensures StepBeats(step, old(beats), beats, now)
      ensures clean == (old(clean) && !PutsAgain(step))
    {
      ghost var was, beats0 := Now(), beats;
      var ok;
      ghost var drop, held;
      ok, crash, drop, held := MakeRoom(tx, local, now);
      if !ok {
        replaced, err := false, Underpriced;
        step := Refusal(tx, was, Underpriced).(held := held, room := Now(), after := Now());
        LowBidAdds(Terms(), tx, local, was, held);
        return;
      }
      ghost var beats1 := beats;
      replaced, err, step := Seat(tx, local, now, crash, was, held, drop);
      StepHeard(step, beats0, beats1, beats, now);
    }

    /** Adds a transaction, unless it is known or unacceptable. */
    method Add(tx: Transaction, local: bool, now: nat)
      returns (replaced: bool, err: TxError, crash: bool, ghost step: Addition)
      requires Consistent()
      modifies this`pending, this`queue, this`beats, this`locals, this`accepted, this`clean
      modifies all, priced, pendingNonces
      ensures Consistent() && (old(Contiguous()) ==> Contiguous())
      ensures Adds(Terms(), local, step) && step.tx == tx && step.before == old(Now()) && step.after == Now()
      ensures step.err == err && step.replaced == replaced && step.crash == crash
      ensures accepted == if err == NoError && !crash then old(accepted) + {tx.Hash()} else old(accepted)
      ensures forall a :: Lowers(old(At(pending, a)), step.drop, old(pendingNonces.Next(a)), pendingNonces.Next(a))
      ensures StepBeats(step, old(beats), beats, now)
      ensures clean == (old(clean) && !PutsAgain(step))
    {
      replaced, crash := false, false;
      if tx.Hash() in all.all {
        err := AlreadyKnown;
      } else {
        err := ValidateTx(tx, local);
      }
      if err == NoError {
        replaced, err, crash, step := Admit(tx, local, now);
      } else {
        step := Refusal(tx, Now(), err);
        RefusalAdds(Terms(), tx, local, Now(), err);
      }
    }

    /** The addition of one round of `AddTxsLocked`. */
    method AddNext(txs: seq<Transaction>, i: nat, local: bool, now: nat, ghost errs: seq<TxError>,
                   ghost steps: seq<Addition>, ghost was: Views, ghost next: Nexts, ghost dirty: set<Address>)
      returns (replaced: bool, err: TxError, crash: bool, ghost step: Addition)
      requires Consistent() && i < |txs| && |errs| == i
      requires Explains(Terms(), local, txs[..i], steps, errs, false, was, Now())
      requires AllLowered(steps, next, pendingNonces.Values())
      requires KeepsRuns(was.pending, next, pending, pendingNonces.Values())
      requires KeepsExhausted(dirty, was.queue, next, queue, pendingNonces.Values())
      modifies this`pending, this`queue, this`beats, this`locals, this`accepted, this`clean
      modifies all, priced, pendingNonces
      ensures Consistent() && (old(Contiguous()) ==> Contiguous())
      ensures step.tx == txs[i] && step.err == err && step.replaced == replaced && step.crash == crash
      ensures Explains(Terms(), local, if crash then txs else txs[..i + 1], steps + [step],
                       if crash then errs else errs + [err], crash, was, Now())
      ensures forall h :: h in accepted <==> h in old(accepted) || (!crash && err == NoError && h == txs[i].Hash())
      ensures forall h :: Accepted(txs, errs + [err], h) <==> Accepted(txs, errs, h) || (err == NoError && h == txs[i].Hash())
      ensures KeepsRuns(was.pending, next, pending, pendingNonces.Values())
      ensures KeepsExhausted(if Joins(step, txs[i].from) then dirty + {txs[i].from} else dirty, was.queue, next, queue,
                             pendingNonces.Values())
      ensures StepBeats(step, old(beats), beats, now)
      ensures clean == (old(clean) && !PutsAgain(step))
      ensures AllLowered(steps + [step], next, pendingNonces.Values())
    {
      ViewsAgree();
      ghost var before := pendingNonces.Values();
      replaced, err, crash, step := Add(txs[i], local, now);
      if crash {
        ExplainsCrash(Terms(), local, txs, i, steps, errs, was, step);
      } else {
        ExplainsNext(Terms(), local, txs[..i], steps, errs, was, step);
        assert txs[..i] + [txs[i]] == txs[..i + 1];
      }
      KeepsRunsNext(was.pending, next, Terms(), local, step, before, pendingNonces.Values());
      AdditionKeepsAllExhausted(dirty, was.queue, next, Terms(), local, step, before, pendingNonces.Values());
      AllLoweredNext(steps, step, next, before, pendingNonces.Values());
      AcceptedGrows(txs, errs, err);
    }

    /** One round of `AddTxsLocked`, with what it keeps account of. */
    method AddRound(txs: seq<Transaction>, errs: seq<TxError>, dirty: set<Address>, local: bool, now: nat,
                    ghost steps: seq<Addition>, ghost was: Views, ghost next: Nexts, ghost known: set<Hash>,
                    ghost spotless: bool, ghost beats0: Beats)
      returns (errs': seq<TxError>, dirty': set<Address>, crash: bool, ghost steps': seq<Addition>)
      requires Consistent() && |errs| == |steps| < |txs|
      requires Explains(Terms(), local, txs[..|errs|], steps, errs, false, was, Now())
      requires forall a :: a in dirty <==> IsDirty(steps, a)
      requires forall h :: h in accepted <==> h in known || Accepted(txs, errs, h)
      requires HeardBy(steps, beats0, beats, now)
      requires clean == (spotless && NoneAgain(steps))
      requires AllLowered(steps, next, pendingNonces.Values())
      requires KeepsRuns(was.pending, next, pending, pendingNonces.Values())
      requires KeepsExhausted(dirty, was.queue, next, queue, pendingNonces.Values())
      modifies this`pending, this`queue, this`beats, this`locals, this`accepted, this`clean
      modifies all, priced, pendingNonces
      ensures Consistent() && (old(Contiguous()) ==> Contiguous())
      ensures |steps'| == |steps| + 1 && |errs'| == |errs| + if crash then 0 else 1
      ensures Explains(Terms(), local, if crash then txs else txs[..|errs| + 1], steps', errs', crash, was, Now())
      ensures forall a :: a in dirty' <==> IsDirty(steps', a)
      ensures forall h :: h in accepted <==> h in known || Accepted(txs, errs', h)
      ensures KeepsRuns(was.pending, next, pending, pendingNonces.Values())
      ensures KeepsExhausted(dirty', was.queue, next, queue, pendingNonces.Values())
      ensures clean == (spotless && NoneAgain(steps'))
      ensures AllLowered(steps', next, pendingNonces.Values())
      ensures HeardBy(steps', beats0, beats, now)
    {
      var replaced, err;
      ghost var step;
      ghost var b := beats;
      replaced, err, crash, step := AddNext(txs, |errs|, local, now, errs, steps, was, next, dirty);
      DirtyGrows(steps, step);
      AgainNext(steps, step);
      HeardNext(steps, step, beats0, b, beats, now);
      errs', dirty', steps' := errs, dirty, steps + [step];
      if crash {
        return;
      }
      errs' := errs + [err];
      if err == NoError && !replaced && txs[|errs|].signed {
        dirty' := dirty + {txs[|errs|].from};
      }
    }

    /** Adds transactions one by one, up to a panic; `dirty` are the senders whose queues grew. */
    method AddTxsLocked(txs: seq<Transaction>, local: bool, now: nat)
      returns (errs: seq<TxError>, dirty: set<Address>, crash: bool, ghost steps: seq<Addition>)
      requires Consistent()
      modifies this`pending, this`queue, this`beats, this`locals, this`accepted, this`clean
      modifies all, priced, pendingNonces
      ensures Consistent() && (old(Contiguous()) ==> Contiguous())
      ensures Explains(Terms(), local, txs, steps, errs, crash, old(Now()), Now()) && (!crash ==> |errs| == |txs|)
      ensures forall a :: a in dirty <==> IsDirty(steps, a)
      ensures forall h :: h in accepted <==> h in old(accepted) || Accepted(txs, errs, h)
      ensures txs == [] ==> !crash && pending == old(pending) && queue == old(queue)
                            && beats == old(beats) && forall a :: pendingNonces.Next(a) == old(pendingNonces.Next(a))
      ensures KeepsRuns(old(pending), old(pendingNonces.Values()), pending, pendingNonces.Values())
      ensures KeepsExhausted(dirty, old(queue), old(pendingNonces.Values()), queue, pendingNonces.Values())
      ensures HeardBy(steps, old(beats), beats, now)
      ensures clean == (old(clean) && NoneAgain(steps))
      ensures AllLowered(steps, old(pendingNonces.Values()), pendingNonces.Values())
    {
      errs, dirty, crash, steps := [], {}, false, [];
      var i := 0;
      ghost var was, next := Now(), pendingNonces.Values();
      ExplainsNone(Terms(), local, was);
      NoneLowered(next);
      HeardNone(beats, now);
      while i < |txs|
        invariant i <= |txs|
        invariant Consistent() && (old(Contiguous()) ==> Contiguous())
        invariant |errs| == |steps| == i && Explains(Terms(), local, txs[..i], steps, errs, false, was, Now())
        invariant Terms() == old(Terms()) && forall a :: a in dirty <==> IsDirty(steps, a)
        invariant forall h :: h in accepted <==> h in old(accepted) || Accepted(txs, errs, h)
        invariant HeardBy(steps, old(beats), beats, now) && (i == 0 ==> beats == old(beats))
        invariant i == 0 ==> pending == old(pending) && queue == old(queue)
        invariant clean == (old(clean) && NoneAgain(steps))
        invariant i == 0 ==> forall a :: pendingNonces.Next(a) == old(pendingNonces.Next(a))
        invariant AllLowered(steps, next, pendingNonces.Values())
        invariant KeepsRuns(was.pending, next, pending, pendingNonces.Values())
        invariant KeepsExhausted(dirty, was.queue, next, queue, pendingNonces.Values())
      {
        errs, dirty, crash, steps := AddRound(txs, errs, dirty, local, now, steps, was, next, old(accepted),
                                              old(clean), old(beats));
        if crash {
          return;
        }
        i := i + 1;
      }
      assert txs[..|txs|] == txs;
    }

    /** Moves a loose transaction into the pending list.  Its nonce is free there, so the branches of the
        source for a transaction that is refused, or swaps another, are never taken. */
    method PromoteTx(tx: Transaction, now: nat, ghost r: Lists, ghost owed: int)
      requires Valid(r, [], owed) && Held(r, tx)
      modifies this`pending, this`beats, pendingNonces
      ensures Valid(With(r, tx.from, At(r, tx.from) - {tx.nonce}), [], owed)
      ensures pending == With(old(pending), tx.from, old(At(pending, tx.from))[tx.nonce := tx])
      ensures tx.nonce !in old(At(pending, tx.from)) && beats == old(beats)[tx.from := now]
      ensures forall b :: pendingNonces.Next(b) == if b == tx.from then tx.nonce + 1 else old(pendingNonces.Next(b))
    {
      assert Inside(0);
      LooseIsFree(all.all, pending, queue, r, tx);
      var list := At(pending, tx.from);
      if tx.nonce in list {
        assert false;
      }
      JoinPending(all.all, pending, queue, r, tx);
      pending := With(pending, tx.from, list[tx.nonce := tx]);
      pendingNonces.Set(tx.from, tx.nonce + 1);
      beats := beats[tx.from := now];
    }

    method PromoteNth(a: Address, readies: NonceMap, n: nat, now: nat, ghost p: Lists, ghost owed: int)
      requires Valid(RestOf(a, readies, n), [], owed) && n in readies && pending == Merge(p, a, Below(readies, n))
      modifies this`pending, this`beats, pendingNonces
      ensures Valid(RestOf(a, readies, n + 1), [], owed) && pending == Merge(p, a, Below(readies, n + 1))
      ensures forall b :: pendingNonces.Next(b) == if b == a then n + 1 else old(pendingNonces.Next(b))
      ensures beats == old(beats)[a := now]
    {
      Agreed(RestOf(a, readies, n), [], owed);
      ghost var r := RestOf(a, readies, n);
      RunOne(all.all, pending, queue, r, a, readies, n);
      MergeNext(p, a, readies, n);
      PromoteTx(readies[n], now, r, owed);
    }

    method PromoteNext(a: Address, readies: NonceMap, ghost lo: nat, n: nat, now: nat, ghost p: Lists, ghost next: Nexts,
                       ghost beats0: Beats, ghost owed: int)
      requires Promoting(all.all, pending, queue, pendingNonces.Values(), beats, a, readies, lo, n, now, p, next, beats0)
      requires Priced([], owed) && n in readies && lo <= n
      modifies this`pending, this`beats, pendingNonces
      ensures Promoting(all.all, pending, queue, pendingNonces.Values(), beats, a, readies, lo, n + 1, now, p, next, beats0)
    {
      assert Inside(0);
      Validate(RestOf(a, readies, n), [], owed);
      PromoteNth(a, readies, n, now, p, owed);
      Agreed(RestOf(a, readies, n + 1), [], owed);
    }

    method PromoteEach(a: Address, readies: NonceMap, lo: nat, hi: nat, now: nat, ghost p: Lists, ghost next: Nexts,
                       ghost beats0: Beats, ghost owed: int)
      requires Promoting(all.all, pending, queue, pendingNonces.Values(), beats, a, readies, lo, lo, now, p, next, beats0)
      requires Priced([], owed) && Interval(readies, lo, hi)
      modifies this`pending, this`beats, pendingNonces
      ensures Promoting(all.all, pending, queue, pendingNonces.Values(), beats, a, readies, lo, hi, now, p, next, beats0)
    {
      var n := lo;
      while n < hi
        invariant lo <= n <= hi && Priced([], owed) && unchanged(all, priced, `queue)
        invariant Promoting(all.all, pending, queue, pendingNonces.Values(), beats, a, readies, lo, n, now, p, next, beats0)
      {
        PromoteNext(a, readies, lo, n, now, p, next, beats0, owed);
        n := n + 1;
      }
    }

    /** Promotes the gapless run `readies`, lowest nonce first. */
    method PromoteRun(a: Address, readies: NonceMap, lo: nat, hi: nat, now: nat, ghost owed: int)
      requires Valid(map[a := readies], [], owed) && Interval(readies, lo, hi)
      modifies this`pending, this`beats, pendingNonces
      ensures Valid(map[], [], owed) && pending == Merge(old(pending), a, readies)
      ensures forall b :: pendingNonces.Next(b) == if b == a && lo < hi then hi else old(pendingNonces.Next(b))
      ensures beats == if lo < hi then old(beats)[a := now] else old(beats)
    {
      ghost var p, next, beats0 := pending, pendingNonces.Values(), beats;
      assert Inside(0);
      StartPromoting(all.all, pending, queue, next, beats, a, readies, lo, hi, now);
      PromoteEach(a, readies, lo, hi, now, p, next, beats0, owed);
      EndPromoting(all.all, pending, queue, pendingNonces.Values(), beats, a, readies, lo, hi, now, p, next, beats0);
      Validate(map[], [], owed);
    }

    /** Shrinks a queued list to `kept` and removes the rest, `gone`, from the index. */
    method ShedQueued(a: Address, kept: NonceMap, gone: NonceMap, ghost owed: int)
      requires Valid(map[], [], owed) && a in queue
      requires Splits(queue[a], kept, gone)
      modifies this`queue, all
      ensures Valid(map[], [], owed + Size(gone)) && queue == With(old(queue), a, kept)
      ensures old(Floor()) ==> Floor()
    {
      assert Inside(0);
      LoosenQueued(all.all, pending, queue, map[], a, gone, kept);
      queue := With(queue, a, kept);
      OnlyList(a, gone);
      ghost var before := all.all;
      DropAll(gone, a, [], owed);
      FewerAdmitted(before, all.all, accepted, locals, gasPrice);
    }

    /** Removes the unpayable ones from a queue, of which `before` transactions have been removed already. */
    method ShedPoor(a: Address, rest: NonceMap, before: nat) returns (count: nat, live: NonceMap)
      requires Valid(map[], [], before) && a in queue && queue[a] == rest
      modifies this`queue, all
      ensures live == Kept(rest, Unpayable(rest, currentState.Balance(a), currentMaxGas), false)
      ensures Valid(map[], [], count) && queue == With(old(queue), a, live)
      ensures old(Floor()) ==> Floor()
    {
      var drops := Unpayable(rest, currentState.Balance(a), currentMaxGas);
      SplitsByPay(rest, currentState.Balance(a), currentMaxGas);
      live := Kept(rest, drops, false);
      ShedQueued(a, live, drops, before);
      count := before + Size(drops);
    }

    /** Removes the queued transactions of `a` with stale nonces, and those it cannot pay for. */
    method ShedStale(a: Address) returns (count: nat, live: NonceMap)
      requires Valid(map[], [], 0) && a in queue
      modifies this`queue, all
      ensures live == old(StillPayable(queue[a], currentState, a, currentMaxGas))
      ensures Valid(map[], [], count) && queue == With(old(queue), a, live)
      ensures old(Floor()) ==> Floor()
    {
      var list := queue[a];
      var nonce := currentState.Nonce(a);
      var forwards, rest := Below(list, nonce), AtLeast(list, nonce);
      SplitsByNonce(list, nonce);
      ghost var q := queue;
      ShedQueued(a, rest, forwards, 0);
      WithTwice(q, a, rest, StillPayable(list, currentState, a, currentMaxGas));
      count, live := ShedPoor(a, rest, Size(forwards));
    }

    /** Promotes what is ready in the queue of `a`. */
    method PromoteReady(a: Address, list: NonceMap, now: nat, ghost owed: int)
      returns (readies: NonceMap, ghost lo: nat, ghost hi: nat)
      requires Valid(map[], [], owed) && a in queue && queue[a] == list
      modifies this`pending, this`queue, this`beats, pendingNonces
      ensures readies == Ready(list, old(pendingNonces.Next(a)))
      ensures Valid(map[], [], owed) && pending == Merge(old(pending), a, readies)
      ensures queue == With(old(queue), a, Without(list, readies))
      ensures IsRun(list, old(pendingNonces.Next(a)), lo, hi)
      ensures forall b :: pendingNonces.Next(b) == if b == a && lo < hi then hi else old(pendingNonces.Next(b))
      ensures beats == if lo < hi then old(beats)[a := now] else old(beats)
    {
      Agreed(map[], [], owed);
      var next := pendingNonces.Get(a);
      var first, end := RunBounds(list, next);
      lo, hi := first, end;
      readies := Ready(list, next);
      LoosenQueued(all.all, pending, queue, map[], a, readies, Without(list, readies));
      queue := With(queue, a, Without(list, readies));
      OnlyList(a, readies);
      PromoteRun(a, readies, first, end, now, owed);
    }

    /** Cuts the queue of an account that is not local to its limit. */
    method CapQueued(a: Address, list: NonceMap, ghost owed: nat) returns (kept: NonceMap, count: nat)
      requires Valid(map[], [], owed) && a in queue && queue[a] == list
      modifies this`queue, all
      ensures kept == if a in locals then list else Lowest(list, config.accountQueue)
      ensures Valid(map[], [], owed + count) && queue == With(old(queue), a, kept)
      ensures old(Floor()) ==> Floor()
    {
      kept, count := list, 0;
      WithSame(queue, a);
      if a !in locals {
        kept := Lowest(list, config.accountQueue);
        var caps := Without(list, kept);
        SplitsByRank(list, config.accountQueue);
        ShedQueued(a, kept, caps, owed);
        count := Size(caps);
      }
    }

    /** Reports removals to the price heap and drops an empty queue. */
    method FinishQueue(a: Address, removed: nat)
      requires Valid(map[], [], removed) && a in queue
      modifies this`queue, this`beats, priced
      ensures Valid(map[], [], 0) && queue == Tidy(old(queue), a)
      ensures beats == if a in queue then old(beats) else old(beats) - {a}
    {
      assert Inside(0);
      priced.Removed(removed);
      SameLists(all.all, pending, queue, map[], pending, Tidy(queue, a));
      queue := Tidy(queue, a);
      if a !in queue {
        beats := beats - {a};
      }
    }

    /** The first part of a round of `PromoteExecutables`: what is stale or unpayable leaves, what is ready is promoted. */
    method PromotePayable(a: Address, now: nat)
      returns (count: nat, live: NonceMap, readies: NonceMap, ghost lo: nat, ghost hi: nat)
      requires Valid(map[], [], 0) && a in queue
      modifies this`pending, this`queue, this`beats, all, pendingNonces
      ensures Valid(map[], [], count) && live == old(StillPayable(queue[a], currentState, a, currentMaxGas))
      ensures readies == Ready(live, old(pendingNonces.Next(a))) && IsRun(live, old(pendingNonces.Next(a)), lo, hi)
      ensures pending == Merge(old(pending), a, readies)
      ensures queue == With(With(old(queue), a, live), a, Without(live, readies))
      ensures forall b :: pendingNonces.Next(b) == if b == a && lo < hi then hi else old(pendingNonces.Next(b))
      ensures beats == (if lo < hi then old(beats)[a := now] else old(beats)) && (old(Floor()) ==> Floor())
    {
      count, live := ShedStale(a);
      readies, lo, hi := PromoteReady(a, live, now, count);
    }

    /** The last part: the queue is cut to its limit, and dropped if it is empty. */
    method CapAndFinish(a: Address, list: NonceMap, removed: nat) returns (kept: NonceMap)
      requires Valid(map[], [], removed) && a in queue && queue[a] == list
      modifies this`queue, this`beats, all, priced
      ensures Valid(map[], [], 0) && kept == Capped(list, QueueCap(locals, config.accountQueue, a))
      ensures queue == Tidy(With(old(queue), a, kept), a)
      ensures beats == (if a in queue then old(beats) else old(beats) - {a}) && (old(Floor()) ==> Floor())
    {
      var caps;
      kept, caps := CapQueued(a, list, removed);
      FinishQueue(a, removed + caps);
    }

    /** One round of `PromoteExecutables`: the nonces from `lo` up to `hi` become pending. */
    method PromoteAccount(a: Address, now: nat)
      returns (readies: NonceMap, ghost live: NonceMap, ghost lo: nat, ghost hi: nat)
      requires Consistent() && a in queue
      modifies this`pending, this`queue, this`beats, all, priced, pendingNonces
      ensures Consistent()
      ensures live == old(StillPayable(queue[a], currentState, a, currentMaxGas))
      ensures readies == Ready(live, old(pendingNonces.Next(a))) && IsRun(live, old(pendingNonces.Next(a)), lo, hi)
      ensures At(queue, a) == if a in locals then Without(live, readies)
                              else Lowest(Without(live, readies), config.accountQueue)
      ensures forall b :: b != a ==> At(queue, b) == old(At(queue, b))
      ensures pending == Merge(old(pending), a, readies)
      ensures forall b :: pendingNonces.Next(b) == if b == a && lo < hi then hi else old(pendingNonces.Next(b))
      ensures beats == Beaten(old(beats), a, lo < hi, At(queue, a) != map[], now)
    {
      Unseal();
      ghost var q := queue;
      var count, left;
      count, left, readies, lo, hi := PromotePayable(a, now);
      live := left;
      var kept := CapAndFinish(a, Without(left, readies), count);
      ListTidied(q, a, left, Without(left, readies), kept, queue);
      assert a in queue <==> At(queue, a) != map[];
      Seal();
    }

    /** No queued transaction of `a` could be pending: all nonces are above the virtual nonce. */
    ghost predicate Drained(a: Address)
      reads `queue, `pendingNonces, pendingNonces
    {
      Exhausted(At(queue, a), pendingNonces.Next(a))
    }

    /** The same round, with what it does to the pending lists. */
    method PromoteTracked(a: Address, now: nat) returns (ghost live: NonceMap, ghost lo: nat, ghost hi: nat)
      requires Consistent() && a in queue
      modifies this`pending, this`queue, this`beats, all, priced, pendingNonces
      ensures Consistent() && live == old(StillPayable(queue[a], currentState, a, currentMaxGas))
      ensures IsRun(live, old(pendingNonces.Next(a)), lo, hi) && old(queue[a]) != map[]
      ensures PromotableFrom(old(At(pending, a)), live, currentState, a, currentMaxGas)
      ensures forall b :: At(pending, b) == if b == a then old(At(pending, a)) + Ready(live, old(pendingNonces.Next(a)))
                                            else old(At(pending, b))
      ensures forall b :: pendingNonces.Next(b) == if b == a && lo < hi then hi else old(pendingNonces.Next(b))
      ensures At(queue, a) == LeftQueued(old(queue[a]), old(pendingNonces.Next(a)), currentState, a, currentMaxGas,
                                         QueueCap(locals, config.accountQueue, a))
      ensures forall b :: b != a ==> At(queue, b) == old(At(queue, b))
      ensures beats == Beaten(old(beats), a, lo < hi, At(queue, a) != map[], now)
    {
      ViewsAgree();
      NoncesApart(all.all, pending, queue, map[], a);
      PayableIsPromotable(At(pending, a), queue[a], currentState, a, currentMaxGas);
      var readies;
      readies, live, lo, hi := PromoteAccount(a, now);
    }

    /** After a reset, before the pending lists are cleaned up: what is pending from the state nonce on is
        an interval, and the virtual nonce is the state nonce, or the end of a payable interval. */
    ghost predicate Staged()
      reads `pending, `currentState, `currentMaxGas, `pendingNonces, pendingNonces
    {
      forall a :: StagedList(At(pending, a), currentState, a, currentMaxGas, pendingNonces.Next(a))
    }

    method PromoteOne(a: Address, now: nat)
      requires Consistent() && a in queue
      modifies this`pending, this`queue, this`beats, all, priced, pendingNonces
      ensures Consistent()
      ensures IsPromoted(old(At(pending, a)), old(At(queue, a)), old(pendingNonces.Next(a)), currentState, a,
                         currentMaxGas, QueueCap(locals, config.accountQueue, a), At(pending, a), At(queue, a),
                         pendingNonces.Next(a))
      ensures forall b :: b != a ==> At(pending, b) == old(At(pending, b)) && At(queue, b) == old(At(queue, b))
                                     && pendingNonces.Next(b) == old(pendingNonces.Next(b))
      ensures old(Contiguous()) ==> Contiguous()
      ensures old(Staged()) ==> Staged()
      ensures Pulse(beats, a) == PulseAfter(old(At(queue, a)), old(pendingNonces.Next(a)), currentState, a, currentMaxGas,
                                            QueueCap(locals, config.accountQueue, a), old(Pulse(beats, a)), now)
      ensures forall b :: b != a ==> Pulse(beats, b) == old(Pulse(beats, b))
    {
      ghost var p, q, next := At(pending, a), At(queue, a), pendingNonces.Next(a);
      ghost var live, lo, hi := PromoteTracked(a, now);
      RunKeeps(p, live, currentState, a, currentMaxGas, next, lo, hi);
      RunIsPromoted(p, q, next, currentState, a, currentMaxGas, QueueCap(locals, config.accountQueue, a), lo, hi,
                    At(pending, a), At(queue, a), pendingNonces.Next(a));
      BeatenPulse(old(beats), p, q, next, currentState, a, currentMaxGas, QueueCap(locals, config.accountQueue, a), lo, hi,
                  now);
      forall b | old(Contiguous()) ensures Interval(At(pending, b), currentState.Nonce(b), pendingNonces.Next(b)) {
        assert Interval(old(At(pending, b)), currentState.Nonce(b), old(pendingNonces.Next(b)));
      }
      forall b | old(Staged())
        ensures StagedList(At(pending, b), currentState, b, currentMaxGas, pendingNonces.Next(b))
      {
        assert StagedList(old(At(pending, b)), currentState, b, currentMaxGas, old(pendingNonces.Next(b)));
      }
    }

    /** Moves what is ready from the queues of `accounts` to the pending lists. */
    method PromoteExecutables(accounts: seq<Address>, now: nat)
      requires Consistent()
      modifies this`pending, this`queue, this`beats, all, priced, pendingNonces
      ensures Consistent()
      ensures old(Contiguous()) ==> Contiguous()
      ensures old(Staged()) ==> Staged()
      ensures Promotes(currentState, currentMaxGas, locals, config.accountQueue, Members(accounts), old(pending),
                       old(queue), old(pendingNonces.Values()), pending, queue, pendingNonces.Values())
      ensures Pulses(currentState, currentMaxGas, locals, config.accountQueue, now, Members(accounts), old(queue),
                     old(pendingNonces.Values()), old(beats), beats)
    {
      ghost var p0, q0, next0, done := pending, queue, pendingNonces.Values(), {};
      PromotesNone(currentState, currentMaxGas, locals, config.accountQueue, p0, q0, next0);
      for i := 0 to |accounts|
        invariant Consistent()
        invariant old(Contiguous()) ==> Contiguous()
        invariant old(Staged()) ==> Staged()
        invariant done == Members(accounts[..i])
        invariant Promotes(currentState, currentMaxGas, locals, config.accountQueue, done, p0, q0, next0, pending, queue,
                           pendingNonces.Values())
        invariant Pulses(currentState, currentMaxGas, locals, config.accountQueue, now, done, q0, next0, old(beats), beats)
      {
        var a := accounts[i];
        ghost var p, q, next, b := pending, queue, pendingNonces.Values(), beats;
        if a in queue {
          PromoteOne(a, now);
        } else {
          NothingToPromote(At(p, a), next.Next(a), currentState, a, currentMaxGas,
                           QueueCap(locals, config.accountQueue, a));
        }
        PulsesNext(currentState, currentMaxGas, locals, config.accountQueue, now, done, p0, q0, next0, old(beats), p, q, next,
                   b, a, beats);
        PromotesNext(currentState, currentMaxGas, locals, config.accountQueue, done, p0, q0, next0, p, q, next, a, pending,
                     queue, pendingNonces.Values());
        MembersNext(accounts, i);
        done := done + {a};
      }
      assert accounts[..|accounts|] == accounts;
    }

    /** Shrinks a pending list to `kept`; the rest, `gone`, is in no list for now. */
    method Loosen(a: Address, kept: NonceMap, gone: NonceMap, ghost owed: int)
      requires Valid(map[], [], owed) && a in pending && Splits(pending[a], kept, gone)
      modifies this`pending
      ensures Valid(map[a := gone], [], owed) && pending == With(old(pending), a, kept)
    {
      assert Inside(0);
      LoosenPending(all.all, pending, queue, map[], a, gone, kept);
      pending := With(pending, a, kept);
      OnlyList(a, gone);
    }

    /** Shrinks a pending list to `kept` and removes the rest, `gone`, from the index. */
    method ShedPending(a: Address, kept: NonceMap, gone: NonceMap, ghost owed: int)
      requires Valid(map[], [], owed) && a in pending && Splits(pending[a], kept, gone)
      modifies this`pending, all
      ensures Valid(map[], [], owed + Size(gone)) && pending == With(old(pending), a, kept)
      ensures old(Floor()) ==> Floor()
    {
      Loosen(a, kept, gone, owed);
      ghost var before := all.all;
      DropAll(gone, a, [], owed);
      FewerAdmitted(before, all.all, accepted, locals, gasPrice);
    }

    /** Shrinks a pending list to `kept` and puts the rest, `gone`, back into the queue. */
    method RequeuePending(a: Address, kept: NonceMap, gone: NonceMap, now: nat)
      requires Valid(map[], [], 0) && a in pending && Splits(pending[a], kept, gone)
      modifies this`pending, this`queue, this`beats, all, priced
      ensures Valid(map[], [], 0) && pending == With(old(pending), a, kept)
      ensures queue == Merge(old(queue), a, gone) && all.all == old(all.all)
      ensures old(Floor()) ==> Floor()
      ensures old(NoneEmpty(queue)) ==> NoneEmpty(queue)
      ensures beats == Touched(old(beats), a, gone, now)
    {
      Loosen(a, kept, gone, 0);
      EnqueueAll(gone, a, now, [], 0);
    }

    /** Removes the unpayable ones, and reports them with the `count` already removed to the price heap. */
    method ShedDrops(a: Address, rest: NonceMap, count: nat) returns (drops: NonceMap)
      requires Valid(map[], [], count) && a in pending && pending[a] == rest
      modifies this`pending, all, priced
      ensures drops == Unpayable(rest, currentState.Balance(a), currentMaxGas)
      ensures Valid(map[], [], 0) && pending == With(old(pending), a, Without(rest, drops))
      ensures old(Floor()) ==> Floor()
    {
      assert Inside(0);
      drops := Unpayable(rest, currentState.Balance(a), currentMaxGas);
      SplitsWithout(rest, drops);
      ShedPending(a, Without(rest, drops), drops, count);
      priced.Removed(count + Size(drops));
    }

    /** Removes the stale and the unpayable pending transactions of `a`. */
    method ShedUnpayable(a: Address, list: NonceMap) returns (rest: NonceMap, drops: NonceMap)
      requires Valid(map[], [], 0) && a in pending && pending[a] == list
      modifies this`pending, all, priced
      ensures rest == AtLeast(list, currentState.Nonce(a))
      ensures drops == Unpayable(rest, currentState.Balance(a), currentMaxGas)
      ensures Valid(map[], [], 0) && pending == With(old(pending), a, Without(rest, drops))
      ensures old(Floor()) ==> Floor()
    {
      ghost var p := pending;
      var olds := Below(list, currentState.Nonce(a));
      rest := AtLeast(list, currentState.Nonce(a));
      SplitsByNonce(list, currentState.Nonce(a));
      ShedPending(a, rest, olds, 0);
      drops := ShedDrops(a, rest, Size(olds));
      WithTwice(p, a, rest, Without(rest, drops));
    }

    method TidyPending(a: Address)
      requires Valid(map[], [], 0)
      modifies this`pending
      ensures Valid(map[], [], 0) && pending == Tidy(old(pending), a)
    {
      assert Inside(0);
      SameLists(all.all, pending, queue, map[], Tidy(pending, a), queue);
      pending := Tidy(pending, a);
    }

    /** Puts a pending list that does not start at the state nonce back into the queue; drops an empty list. */
    method DemoteGapped(a: Address, list: NonceMap, now: nat) returns (kept: NonceMap)
      requires Valid(map[], [], 0) && a in pending && pending[a] == list && NoneEmpty(queue)
      modifies this`pending, this`queue, this`beats, all, priced
      ensures kept == if currentState.Nonce(a) in list then list else map[]
      ensures Valid(map[], [], 0) && pending == Tidy(With(old(pending), a, kept), a)
      ensures queue == Merge(old(queue), a, if currentState.Nonce(a) in list then map[] else list)
      ensures NoneEmpty(queue) && (old(Floor()) ==> Floor())
      ensures beats == Touched(old(beats), a, if currentState.Nonce(a) in list then map[] else list, now)
    {
      kept := list;
      WithSame(pending, a);
      if list != map[] && currentState.Nonce(a) !in list {
        kept := map[];
        SplitsAll(list);
        RequeuePending(a, kept, list, now);
      }
      TidyPending(a);
    }

    /** Removes what is stale or unpayable from a pending list and queues what that cuts off. */
    method CutUnpayable(a: Address, list: NonceMap, now: nat) returns (runs: NonceMap)
      requires Valid(map[], [], 0) && a in pending && pending[a] == list && NoneEmpty(queue)
      modifies this`pending, this`queue, this`beats, all, priced
      ensures runs == Executable(list, currentState, a, currentMaxGas)
      ensures Valid(map[], [], 0) && pending == With(old(pending), a, runs)
      ensures queue == Merge(old(queue), a, CutOffBy(list, currentState, a, currentMaxGas))
      ensures NoneEmpty(queue) && (old(Floor()) ==> Floor())
      ensures beats == Touched(old(beats), a, CutOffBy(list, currentState, a, currentMaxGas), now)
    {
      ghost var p := pending;
      var rest, drops := ShedUnpayable(a, list);
      runs := Kept(rest, drops, true);
      SplitsCutOff(rest, drops);
      RequeuePending(a, runs, CutOff(rest, drops), now);
      WithTwice(p, a, Without(rest, drops), runs);
    }

    /** One round of `DemoteUnexecutables`. */
    method DemoteAccount(a: Address, now: nat)
      requires Consistent() && a in pending
      modifies this`pending, this`queue, this`beats, all, priced
      ensures Consistent() && Accounts(pending) >= old(Accounts(pending)) - {a}
      ensures CleanedUp(true, old(At(pending, a)), old(At(queue, a)), currentState, a, currentMaxGas, At(pending, a),
                        At(queue, a))
      ensures forall b :: b != a ==> At(pending, b) == old(At(pending, b)) && At(queue, b) == old(At(queue, b))
      ensures beats == Touched(old(beats), a, Requeued(old(At(pending, a)), currentState, a, currentMaxGas), now)
    {
      assert Inside(0);
      ghost var q := queue;
      var list := pending[a];
      var runs := CutUnpayable(a, list, now);
      var kept := DemoteGapped(a, runs, now);
      TouchedTwice(old(beats), list, currentState, a, currentMaxGas, now);
      RequeuedParts(q, list, currentState, a, currentMaxGas, if currentState.Nonce(a) in runs then map[] else runs, queue);
      Seal();
    }

    /** Every pending list is an interval from the state nonce on, and the virtual nonce is its end, or
        still the state nonce. */
    ghost predicate Settled()
      reads `pending, `currentState, `pendingNonces, pendingNonces
    {
      forall a :: SettledList(At(pending, a), currentState.Nonce(a), pendingNonces.Next(a))
    }

    /** Cleans up every pending list after a reset: removes what is stale or unpayable, and puts what it cuts off
        back into the queue. */
    method DemoteUnexecutables(now: nat)
      requires Consistent()
      modifies this`pending, this`queue, this`beats, all, priced
      ensures Consistent() && (old(Staged()) ==> Settled())
      ensures CleansUp(currentState, currentMaxGas, {}, old(pending), old(queue), pending, queue)
      ensures Revives(currentState, currentMaxGas, now, {}, old(pending), old(beats), beats)
    {
      ghost var p, q := pending, queue;
      var todo := Accounts(pending);
      CleansUpNone(currentState, currentMaxGas, p, q);
      RevivesNone(currentState, currentMaxGas, now, p, beats);
      while todo != {}
        invariant Consistent() && todo <= Accounts(pending)
        invariant CleansUp(currentState, currentMaxGas, todo, p, q, pending, queue)
        invariant Revives(currentState, currentMaxGas, now, todo, p, old(beats), beats)
      {
        var a :| a in todo;
        ghost var p', q', b := pending, queue, beats;
        assert Holder(a);
        DemoteAccount(a, now);
        RevivesNext(currentState, currentMaxGas, now, todo, p, p', old(beats), b, a, beats);
        CleansUpNext(currentState, currentMaxGas, todo, p, q, p', q', a, pending, queue);
        todo := todo - {a};
      }
      forall a | old(Staged())
        ensures SettledList(At(pending, a), currentState.Nonce(a), pendingNonces.Next(a))
      {
        assert Holder(a);
        StagedSettles(At(p, a), currentState, a, currentMaxGas, pendingNonces.Next(a));
      }
    }

    method TrimHighest(a: Address) returns (h: nat, kept: NonceMap)
      requires Consistent() && a in pending && 2 <= Size(pending[a])
      modifies this`pending, all, priced
      ensures Consistent() && IsHighest(old(pending[a]), h)
      ensures kept == Lowest(old(pending[a]), Size(old(pending[a])) - 1) && Size(kept) == Size(old(pending[a])) - 1
      ensures kept != map[] && kept == old(pending[a]) - {h} && pending == With(old(pending), a, kept)
    {
      assert Inside(0);
      var list := pending[a];
      kept := Lowest(list, Size(list) - 1);
      var caps := Without(list, kept);
      ghost var top := OneCapped(list, kept, caps);
      h :| h in caps;
      SplitsByRank(list, Size(list) - 1);
      ShedPending(a, kept, caps, 0);
      priced.Removed(Size(caps));
      Seal();
    }

    /** Takes the highest nonce off a pending list with more than one transaction. */
    method TrimOne(a: Address) returns (kept: NonceMap)
      requires Consistent() && a in pending && 2 <= Size(pending[a])
      modifies this`pending, all, priced, pendingNonces
      ensures Consistent()
      ensures kept == Lowest(old(pending[a]), Size(old(pending[a])) - 1) && Size(kept) == Size(old(pending[a])) - 1
      ensures pending == With(old(pending), a, kept)
      ensures old(Contiguous()) ==> Contiguous()
      ensures old(Settled()) ==> Settled()
      ensures Spares(old(pending), old(pendingNonces.Values()), pending, pendingNonces.Values())
    {
      ghost var list := pending[a];
      var h;
      h, kept := TrimHighest(a);
      TrimKeeps(list, h, currentState.Nonce(a), pendingNonces.Next(a));
      pendingNonces.SetIfLower(a, h);
    }

    /** One pass of the trimming loops: takes the highest nonce off each list of `offenders`, all of which
        hold `level` transactions. */
    method TrimAll(offenders: seq<Address>, ghost level: nat)
      requires Consistent() && 2 <= level
      requires forall i, j :: 0 <= i < j < |offenders| ==> offenders[i] != offenders[j]
      requires forall a :: a in offenders ==> a in pending && Size(pending[a]) == level
      modifies this`pending, all, priced, pendingNonces
      ensures Consistent() && Accounts(pending) == old(Accounts(pending))
      ensures TrimmedSoFar(old(pending), pending, offenders, level - 1)
      ensures Total(pending) == old(Total(pending)) - |offenders|
      ensures old(Contiguous()) ==> Contiguous()
      ensures old(Settled()) ==> Settled()
      ensures Spares(old(pending), old(pendingNonces.Values()), pending, pendingNonces.Values())
    {
      ghost var p := pending;
      for i := 0 to |offenders|
        invariant Consistent() && Accounts(pending) == Accounts(p)
        invariant TrimmedSoFar(p, pending, offenders[..i], level - 1)
        invariant Total(pending) == Total(p) - i
        invariant old(Contiguous()) ==> Contiguous()
        invariant old(Settled()) ==> Settled()
        invariant Spares(old(pending), old(pendingNonces.Values()), pending, pendingNonces.Values())
      {
        ghost var before := pending;
        NextOffender(p, pending, offenders, i, level);
        var kept := TrimOne(offenders[i]);
        PassOne(p, before, offenders, i, level, kept);
      }
      assert offenders[..|offenders|] == offenders;
    }

    /** One pass: every offender loses its highest nonce. */
    method TrimPass(offenders: seq<Address>, ghost threshold: nat, count: nat, ghost p0: Lists, ghost level: nat)
      returns (left: nat, ghost lower: nat)
      requires Consistent() && offenders != [] && 1 <= threshold < level && config.globalSlots < count
      requires Trimming(p0, pending, locals, offenders, threshold, level, count, config.globalSlots)
      requires Distinct(offenders) && count == Total(pending)
      requires forall a :: a in offenders ==> a in pending && Size(pending[a]) == level
      modifies this`pending, all, priced, pendingNonces
      ensures Consistent() && lower == level - 1
      ensures Trimming(p0, pending, locals, offenders, threshold, lower, left, config.globalSlots)
      ensures left == Total(pending) && forall a :: a in offenders ==> a in pending && Size(pending[a]) == lower
      ensures old(Contiguous()) ==> Contiguous()
      ensures old(Settled()) ==> Settled()
      ensures Spares(old(pending), old(pendingNonces.Values()), pending, pendingNonces.Values())
    {
      ghost var p := pending;
      TrimAll(offenders, level);
      left, lower := count - |offenders|, level - 1;
      PassLowers(p0, p, pending, locals, offenders, threshold, level, count, config.globalSlots, lower, left);
      OffenderSize(p0, pending, locals, offenders, threshold, lower, left, config.globalSlots);
    }

    /** Trims the lists of `offenders`, which are equally long, down to `threshold`, or until the limit is met. */
    method TrimTo(offenders: seq<Address>, threshold: nat, count: nat, ghost p0: Lists, ghost level: nat)
      returns (left: nat, ghost lower: nat)
      requires Consistent() && offenders != [] && 1 <= threshold
      requires Trimming(p0, pending, locals, offenders, threshold, level, count, config.globalSlots)
      modifies this`pending, all, priced, pendingNonces
      ensures Consistent() && threshold <= lower <= level
      ensures Trimming(p0, pending, locals, offenders, threshold, lower, left, config.globalSlots)
      ensures left <= config.globalSlots || lower == threshold
      ensures old(Contiguous()) ==> Contiguous()
      ensures old(Settled()) ==> Settled()
      ensures Spares(old(pending), old(pendingNonces.Values()), pending, pendingNonces.Values())
    {
      left, lower := count, level;
      OffenderSize(p0, pending, locals, offenders, threshold, lower, left, config.globalSlots);
      var last := offenders[|offenders| - 1];
      while left > config.globalSlots && Size(pending[last]) > threshold
        invariant Consistent() && threshold <= lower <= level
        invariant Trimming(p0, pending, locals, offenders, threshold, lower, left, config.globalSlots)
        invariant Distinct(offenders) && left == Total(pending)
        invariant forall a :: a in offenders ==> a in pending && Size(pending[a]) == lower
        invariant old(Contiguous()) ==> Contiguous()
        invariant old(Settled()) ==> Settled()
        invariant Spares(old(pending), old(pendingNonces.Values()), pending, pendingNonces.Values())
        decreases lower
      {
        left, lower := TrimPass(offenders, threshold, left, p0, lower);
      }
    }

    /** One round of the first trimming loop: pops the next offender and trims those before it to its height. */
    method TrimNext(offenders: seq<Address>, spammers: set<Address>, count: nat, ghost p0: Lists, ghost level: nat)
      returns (a: Address, left: nat, ghost lower: nat)
      requires Consistent() && spammers != {} && config.globalSlots < count
      requires offenders == [] ==> pending == p0 && count == Total(p0)
      requires Leveled(p0, pending, locals, level, count, config.globalSlots)
      requires offenders != [] ==> Trimming(p0, pending, locals, offenders, level, level, count, config.globalSlots)
      requires Waiting(p0, locals, config.accountSlots, offenders, spammers, level)
      modifies this`pending, all, priced, pendingNonces
      ensures Consistent() && a in spammers && config.accountSlots <= lower
      ensures Leveled(p0, pending, locals, lower, left, config.globalSlots)
      ensures config.globalSlots < left ==>
                && Trimming(p0, pending, locals, offenders + [a], lower, lower, left, config.globalSlots)
                && Waiting(p0, locals, config.accountSlots, offenders + [a], spammers - {a}, lower)
      ensures old(Contiguous()) ==> Contiguous()
      ensures old(Settled()) ==> Settled()
      ensures Spares(old(pending), old(pendingNonces.Values()), pending, pendingNonces.Values())
    {
      WaitingSizes(p0, pending, locals, config.accountSlots, offenders, spammers, level, count, config.globalSlots);
      a := PopTallest(pending, spammers);
      if offenders == [] {
        FirstOffender(p0, locals, config.accountSlots, spammers, a, level, count, config.globalSlots);
        left, lower := count, Size(At(p0, a));
        TrimmingIsLeveled(p0, pending, locals, [a], lower, lower, left, config.globalSlots);
        assert offenders + [a] == [a];
      } else {
        NextThreshold(p0, pending, locals, config.accountSlots, offenders, spammers, a, level, count, config.globalSlots);
        ghost var threshold := Size(At(p0, a));
        left, lower := TrimTo(offenders, Size(pending[a]), count, p0, level);
        TrimmingIsLeveled(p0, pending, locals, offenders, threshold, lower, left, config.globalSlots);
        if config.globalSlots < left {
          JoinOffenders(p0, pending, locals, config.accountSlots, offenders, spammers, a, lower, left, config.globalSlots);
        }
      }
    }

    /** Nobody waits any more: all offenders are trimmed to the guaranteed slots. */
    method TrimLast(offenders: seq<Address>, count: nat, ghost p0: Lists, ghost level: nat)
      returns (left: nat, ghost lower: nat)
      requires Consistent() && offenders != [] && config.accountSlots <= level
      requires Trimming(p0, pending, locals, offenders, level, level, count, config.globalSlots)
      requires Waiting(p0, locals, config.accountSlots, offenders, {}, level)
      modifies this`pending, all, priced, pendingNonces
      ensures Consistent() && config.accountSlots <= lower
      ensures Leveled(p0, pending, locals, lower, left, config.globalSlots)
      ensures left <= config.globalSlots || lower == config.accountSlots
      ensures old(Contiguous()) ==> Contiguous()
      ensures old(Settled()) ==> Settled()
      ensures Spares(old(pending), old(pendingNonces.Values()), pending, pendingNonces.Values())
    {
      HoldsOnlyAccepted();
      LastThreshold(p0, pending, locals, config.accountSlots, offenders, level, count, config.globalSlots);
      left, lower := TrimTo(offenders, config.accountSlots, count, p0, level);
      TrimmingIsLeveled(p0, pending, locals, offenders, config.accountSlots, lower, left, config.globalSlots);
    }

    /** The first trimming loop: pops the lists that are too long, tallest first, and trims those popped before to the
        height of each, until the limit is met or none is left. */
    method TrimSpammers(spammers0: set<Address>, count0: nat, ghost p0: Lists, ghost level0: nat)
      returns (offenders: seq<Address>, spammers: set<Address>, count: nat, ghost level: nat)
      requires Consistent() && config.accountSlots <= level0 && pending == p0 && count0 == Total(p0)
      requires spammers0 == {} ==> level0 == config.accountSlots
      requires Leveled(p0, p0, locals, level0, count0, config.globalSlots)
      requires config.globalSlots < count0 && spammers0 != {} ==>
                 Waiting(p0, locals, config.accountSlots, [], spammers0, level0)
      modifies this`pending, all, priced, pendingNonces
      ensures Consistent() && config.accountSlots <= level && (count <= config.globalSlots || spammers == {})
      ensures offenders == [] ==> pending == p0 && count == Total(p0)
      ensures offenders == [] && spammers == {} ==> level == config.accountSlots
      ensures Leveled(p0, pending, locals, level, count, config.globalSlots)
      ensures config.globalSlots < count && offenders != [] ==>
                && Trimming(p0, pending, locals, offenders, level, level, count, config.globalSlots)
                && Waiting(p0, locals, config.accountSlots, offenders, {}, level)
      ensures old(Contiguous()) ==> Contiguous()
      ensures old(Settled()) ==> Settled()
      ensures Spares(old(pending), old(pendingNonces.Values()), pending, pendingNonces.Values())
    {
      offenders, spammers, count, level := [], spammers0, count0, level0;
      while count > config.globalSlots && spammers != {}
        invariant Consistent() && config.accountSlots <= level
        invariant offenders == [] ==> pending == p0 && count == Total(p0)
        invariant offenders == [] && spammers == {} ==> level == config.accountSlots
        invariant Leveled(p0, pending, locals, level, count, config.globalSlots)
        invariant config.globalSlots < count && offenders != [] ==>
                    Trimming(p0, pending, locals, offenders, level, level, count, config.globalSlots)
        invariant config.globalSlots < count && (offenders != [] || spammers != {}) ==>
                    Waiting(p0, locals, config.accountSlots, offenders, spammers, level)
        invariant old(Contiguous()) ==> Contiguous()
        invariant old(Settled()) ==> Settled()
        invariant Spares(old(pending), old(pendingNonces.Values()), pending, pendingNonces.Values())
        decreases spammers
      {
        var a: Address;
        a, count, level := TrimNext(offenders, spammers, count, p0, level);
        offenders, spammers := offenders + [a], spammers - {a};
      }
    }

    /** Trims the pending lists that are not local to one common level, the highest at which the pool's limit
        on pending transactions is met, but not below the slots every account is guaranteed. */
    method TruncatePending() returns (ghost level: nat)
      requires Consistent()
      modifies this`pending, all, priced, pendingNonces
      ensures Consistent() && Truncates(config, locals, old(pending), level, pending)
      ensures old(Contiguous()) ==> Contiguous()
      ensures old(Settled()) ==> Settled()
      ensures Spares(old(pending), old(pendingNonces.Values()), pending, pendingNonces.Values())
    {
      ghost var p0 := pending;
      var count: nat := CountTransactions(pending);
      level := count + config.accountSlots;
      if count <= config.globalSlots {
        StartTruncation(p0, locals, config.accountSlots, Cut(p0, locals, config.accountSlots), level, count,
                        config.globalSlots);
        ExpandLeveled(p0, pending, locals, level, count, config.globalSlots);
        return;
      }
      var spammers := set a | a in pending && a !in locals && Size(pending[a]) > config.accountSlots;
      StartTruncation(p0, locals, config.accountSlots, spammers, level, count, config.globalSlots);
      if spammers == {} {
        level := config.accountSlots;
      }
      var offenders;
      offenders, spammers, count, level := TrimSpammers(spammers, count, p0, level);
      if count > config.globalSlots && offenders != [] {
        count, level := TrimLast(offenders, count, p0, level);
      }
      ExpandLeveled(p0, pending, locals, level, count, config.globalSlots);
    }

    /** Removes one queued transaction. */
    method RemoveFromQueue(a: Address, nonce: nat, now: nat)
      requires Consistent() && nonce in At(queue, a)
      modifies this`pending, this`queue, this`beats, all, priced, pendingNonces
      ensures Consistent() && pending == old(pending) && Total(queue) == old(Total(queue)) - 1
      ensures forall b :: At(queue, b) == if b == a then old(At(queue, a)) - {nonce} else old(At(queue, b))
      ensures forall b :: pendingNonces.Next(b) == old(pendingNonces.Next(b))
      ensures Stills(old(queue), old(beats), queue, beats)
    {
      assert Inside(0);
      ListsAreOwned(all.all, pending, queue, map[]);
      var tx := At(queue, a)[nonce];
      assert Held(queue, tx) && tx.from == a && tx.nonce == nonce && tx.Hash().tx == tx;
      ListedIsIndexed(all.all, pending, queue, map[], tx);
      TotalCut(queue, tx);
      ghost var before := all.all;
      RemoveTx(tx.Hash(), true, now, [], 0);
      FewerAdmitted(before, all.all, accepted, locals, gasPrice);
      Seal();
    }

    /** Removes the `n` queued transactions of `a` with the highest nonces. */
    method CutQueue(a: Address, n: nat, now: nat)
      requires Consistent() && a in queue && n <= Size(queue[a])
      modifies this`pending, this`queue, this`beats, all, priced, pendingNonces
      ensures Consistent() && pending == old(pending) && Total(queue) == old(Total(queue)) - n
      ensures forall b :: At(queue, b) == if b == a then Lowest(old(queue[a]), Size(old(queue[a])) - n) else old(At(queue, b))
      ensures forall b :: pendingNonces.Next(b) == old(pendingNonces.Next(b))
      ensures Stills(old(queue), old(beats), queue, beats)
    {
      ghost var list := queue[a];
      LowestIsAll(list, Size(list));
      for i := 0 to n
        invariant Consistent() && pending == old(pending) && Total(queue) == old(Total(queue)) - i
        invariant At(queue, a) == Lowest(list, Size(list) - i)
        invariant forall b :: b != a ==> At(queue, b) == old(At(queue, b))
        invariant forall b :: pendingNonces.Next(b) == old(pendingNonces.Next(b))
        invariant Stills(old(queue), old(beats), queue, beats)
      {
        ghost var h := NextHighest(list, Size(list) - i, At(queue, a), Size(list) - (i + 1));
        var nonce: nat :| IsHighest(At(queue, a), nonce);
        OneHighest(At(queue, a), nonce, h);
        RemoveFromQueue(a, nonce, now);
      }
    }

    /** Removes every queued transaction of `a`. */
    method ClearQueue(a: Address, now: nat)
      requires Consistent() && a in queue
      modifies this`pending, this`queue, this`beats, all, priced, pendingNonces
      ensures Consistent() && pending == old(pending) && Total(queue) == old(Total(queue)) - Size(old(queue[a]))
      ensures forall b :: At(queue, b) == if b == a then map[] else old(At(queue, b))
      ensures forall b :: pendingNonces.Next(b) == old(pendingNonces.Next(b))
      ensures Stills(old(queue), old(beats), queue, beats)
    {
      ghost var list := queue[a];
      var todo := Keys(queue[a]);
      assert Restrict(list, todo) == list;
      while todo != {}
        invariant Consistent() && pending == old(pending) && Total(queue) == old(Total(queue)) - Size(list) + |todo|
        invariant todo <= Keys(list) && At(queue, a) == Restrict(list, todo)
        invariant forall b :: b != a ==> At(queue, b) == old(At(queue, b))
        invariant forall b :: pendingNonces.Next(b) == old(pendingNonces.Next(b))
        invariant Stills(old(queue), old(beats), queue, beats)
      {
        var nonce: nat :| nonce in todo;
        RestrictOne(list, todo, nonce);
        RemoveFromQueue(a, nonce, now);
        todo := todo - {nonce};
      }
      assert Restrict(list, {}) == map[];
    }

    /** A cut of `TruncateQueue` that takes the whole queue of `a`. */
    method CutFirst(a: Address, now: nat, ghost q0: Lists, ghost heartbeats: map<Address, nat>,
                    ghost gone: set<Address>, ghost todo: set<Address>)
      requires Consistent() && a in queue && a in todo && a in heartbeats
      requires Cutting(q0, queue, heartbeats, locals, gone, todo)
      requires forall b :: b in todo && b in heartbeats ==> heartbeats[b] <= heartbeats[a]
      modifies this`pending, this`queue, this`beats, all, priced, pendingNonces
      ensures Consistent() && pending == old(pending) && Total(queue) == old(Total(queue)) - Size(old(queue[a]))
      ensures forall b :: pendingNonces.Next(b) == old(pendingNonces.Next(b))
      ensures Cutting(q0, queue, heartbeats, locals, gone + {a}, todo - {a})
      ensures Stills(old(queue), old(beats), queue, beats)
    {
      ghost var q := queue;
      ClearQueue(a, now);
      CutWhole(q0, q, queue, heartbeats, locals, gone, todo, a);
    }

    /** The last cut of `TruncateQueue` leaves `a` its `k` lowest nonces. */
    method CutLast(a: Address, drop: nat, now: nat, ghost q0: Lists, ghost heartbeats: map<Address, nat>,
                   ghost gone: set<Address>, ghost todo: set<Address>, ghost k: nat)
      requires Consistent() && a in queue && a in todo && a in heartbeats && drop + k == Size(queue[a])
      requires Cutting(q0, queue, heartbeats, locals, gone, todo)
      requires forall b :: b in todo && b in heartbeats ==> heartbeats[b] <= heartbeats[a]
      modifies this`pending, this`queue, this`beats, all, priced, pendingNonces
      ensures Consistent() && pending == old(pending) && Total(queue) == old(Total(queue)) - drop
      ensures forall b :: pendingNonces.Next(b) == old(pendingNonces.Next(b))
      ensures CutLatestFirst(q0, queue, heartbeats, locals, gone, Some(a), k)
      ensures Stills(old(queue), old(beats), queue, beats)
    {
      ghost var q := queue;
      CutQueue(a, drop, now);
      CutPart(q0, q, queue, heartbeats, locals, gone, todo, a, k);
    }

    /** Cuts the queues that are not local, latest heartbeat first, until the pool's limit on queued
        transactions is met exactly, or no such queue is left. */
    method TruncateQueue(now: nat) returns (ghost gone: set<Address>, ghost last: Option<Address>, ghost k: nat)
      requires Consistent()
      modifies this`pending, this`queue, this`beats, all, priced, pendingNonces
      ensures Consistent() && pending == old(pending)
      ensures forall b :: pendingNonces.Next(b) == old(pendingNonces.Next(b))
      ensures old(Total(queue)) <= config.globalQueue ==> queue == old(queue)
      ensures old(Total(queue)) > config.globalQueue ==>
                Total(queue) == config.globalQueue
                || (Total(queue) > config.globalQueue && forall a :: a !in locals ==> At(queue, a) == map[])
      ensures CutLatestFirst(old(queue), queue, old(beats), locals, gone, last, k)
      ensures Stills(old(queue), old(beats), queue, beats)
    {
      gone, last, k := {}, None, 0;
      var queued := CountTransactions(queue);
      if queued <= config.globalQueue {
        return;
      }
      ghost var q0 := queue;
      ViewsAgree();
      var heartbeats := beats;
      var todo := set a | a in queue && a !in locals;
      StartCutting(queue, heartbeats, locals, todo);
      var drop: nat := queued - config.globalQueue;
      while drop > 0 && todo != {}
        invariant Consistent() && pending == old(pending) && Total(queue) == config.globalQueue + drop
        invariant forall b :: pendingNonces.Next(b) == old(pendingNonces.Next(b))
        invariant Stills(old(queue), old(beats), queue, beats)
        invariant Cutting(q0, queue, heartbeats, locals, gone, todo)
        decreases todo
      {
        UncutQueues(q0, queue, heartbeats, locals, gone, todo);
        var a := PopLatest(heartbeats, todo);
        var size := Size(queue[a]);
        if size <= drop {
          CutFirst(a, now, q0, heartbeats, gone, todo);
          drop, gone, todo := drop - size, gone + {a}, todo - {a};
        } else {
          last, k := Some(a), size - drop;
          CutLast(a, drop, now, q0, heartbeats, gone, todo, k);
          return;
        }
      }
      EndCutting(q0, queue, heartbeats, locals, gone, todo);
    }

    /** Takes the remote transactions below `price` out of the heap; they still have to be removed. */
    method TakeCheap(price: nat) returns (drop: seq<Transaction>)
      requires Consistent()
      modifies priced
      ensures Valid(map[], drop, -|drop|) && Agree(all.all, pending, queue, map[])
      ensures NoneEmpty(pending) && NoneEmpty(queue) && Floor() && config.Usable()
      ensures clean ==> NoDuplicates(multiset(drop))
      ensures forall tx :: tx in drop <==> tx.Hash() in all.all && !IsLocal(tx, locals) && tx.gasPrice < price
    {
      assert Inside(0);
      drop := priced.Cap(price, locals);
    }

    /** Sets the price floor and removes the transactions below it that are not local. */
    method SetGasPrice(price: nat, now: nat) returns (ghost drop: seq<Transaction>)
      requires Consistent()
      modifies this`gasPrice, this`pending, this`queue, this`beats, all, priced, pendingNonces
      ensures Consistent() && gasPrice == price && (old(Contiguous()) ==> Contiguous())
      ensures forall h :: h in all.all <==> h in old(all.all) && (IsLocal(h.tx, locals) || price <= h.tx.gasPrice)
      ensures forall tx :: tx in drop <==> tx.Hash() in old(all.all) && !IsLocal(tx, locals) && tx.gasPrice < price
      ensures forall a :: At(pending, a) == Spared(old(At(pending, a)), drop)
      ensures forall a :: Lowers(old(At(pending, a)), drop, old(pendingNonces.Next(a)), pendingNonces.Next(a))
      ensures Hushed(drop, old(beats), beats, now)
      ensures KeepsExhausted({}, old(queue), old(pendingNonces.Values()), queue, pendingNonces.Values())
      ensures old(IsSolvent()) ==> IsSolvent()
    {
      var cheap := TakeCheap(price);
      drop := cheap;
      ghost var was, next, floor := Now(), pendingNonces.Values(), gasPrice;
      gasPrice := price;
      RemoveDropped(cheap, now);
      ClearingKeepsAllExhausted(was, drop, Now(), next, pendingNonces.Values());
      if Solvent(was.pending, currentState, currentMaxGas) {
        ClearingStaysSolvent(was, drop, Now(), currentState, currentMaxGas);
      }
      forall h ensures h in all.all <==> h in was.all && (IsLocal(h.tx, locals) || price <= h.tx.gasPrice) {
        assert h.tx.Hash() == h;
      }
      RepricedAdmitted(was.all, all.all, accepted, locals, floor, price);
      Seal();
    }

    /** Clears the queues, of accounts that are not local, whose heartbeat is older than the lifetime. */
    method Evict(now: nat)
      requires Consistent()
      modifies this`pending, this`queue, this`beats, all, priced, pendingNonces
      ensures Consistent() && pending == old(pending)
      ensures forall b :: pendingNonces.Next(b) == old(pendingNonces.Next(b))
      ensures forall a :: At(queue, a) == if a !in locals && a in old(beats) && now - old(beats)[a] > config.lifetime then map[]
                                          else old(At(queue, a))
      ensures KeepsExhausted({}, old(queue), old(pendingNonces.Values()), queue, pendingNonces.Values())
      ensures Stills(old(queue), old(beats), queue, beats)
    {
      ghost var q0, next0 := queue, pendingNonces.Values();
      ViewsAgree();
      var heartbeats := beats;
      var todo := set a | a in queue && a !in locals && a in heartbeats && now - heartbeats[a] > config.lifetime;
      ghost var expired := todo;
      while todo != {}
        invariant Consistent() && pending == old(pending) && todo <= expired
        invariant forall b :: pendingNonces.Next(b) == old(pendingNonces.Next(b))
        invariant Stills(old(queue), old(beats), queue, beats)
        invariant forall a :: At(queue, a) == if a in expired && a !in todo then map[] else At(q0, a)
      {
        var a :| a in todo;
        todo := todo - {a};
        assert At(queue, a) == q0[a];
        ClearQueue(a, now);
      }
      FewerQueued(q0, next0, queue, pendingNonces.Values());
    }

    /** The pool with a new head state, before anything is reinjected. */
    method MoveTo(state: State, maxGas: nat)
      requires Consistent()
      modifies this`currentState, this`pendingNonces, this`currentMaxGas
      ensures Consistent() && fresh(pendingNonces) && currentState == state && currentMaxGas == maxGas
      ensures pendingNonces.Values() == Nexts(map[], state) && forall a :: pendingNonces.Next(a) == state.Nonce(a)
      ensures old(Contiguous()) && LowersNoNonce(old(currentState), state) ==> Staged()
    {
      currentState := state;
      pendingNonces := new TxNoncer(state);
      currentMaxGas := maxGas;
      forall a | old(Contiguous()) && LowersNoNonce(old(currentState), state)
        ensures StagedList(At(pending, a), currentState, a, currentMaxGas, pendingNonces.Next(a))
      {
        StageInterval(At(pending, a), old(currentState).Nonce(a), old(pendingNonces.Next(a)), state, a, maxGas);
      }
    }

    /** What a reset to a state that lowers no nonce leaves, if it reinjects nothing: `before` and `next0` are the
        state and the virtual nonces before it. */
    ghost predicate JustReset(before: State, next0: Nexts)
      reads `pending, `currentState, `currentMaxGas, `pendingNonces, pendingNonces
    {
      && Staged() && LowersNoNonce(before, currentState)
      && forall a :: Interval(At(pending, a), before.Nonce(a), next0.Next(a))
                     && pendingNonces.Next(a) == currentState.Nonce(a)
    }

    /** Moves the pool to a new head state and adds transactions of blocks that left the chain. */
    method Reinject(state: State, maxGas: nat, reinject: seq<Transaction>, now: nat)
      returns (crash: bool, ghost errs: seq<TxError>, ghost steps: seq<Addition>)
      requires Consistent()
      modifies this`currentState, this`pendingNonces, this`currentMaxGas
      modifies this`pending, this`queue, this`beats, this`locals, this`accepted, this`clean, all, priced
      ensures Consistent() && fresh(pendingNonces) && currentState == state && currentMaxGas == maxGas
      ensures Explains(old(Terms()).(state := state, maxGas := maxGas), false, reinject, steps, errs, crash,
                       old(Now()), Now())
      ensures forall h :: h in accepted <==> h in old(accepted) || Accepted(reinject, errs, h)
      ensures KeepsRuns(old(pending), Nexts(map[], state), pending, pendingNonces.Values())
      ensures old(Contiguous()) && reinject == [] && LowersNoNonce(old(currentState), state) ==>
                !crash && queue == old(queue) && JustReset(old(currentState), old(pendingNonces.Values()))
      ensures HeardBy(steps, old(beats), beats, now) && (reinject == [] ==> beats == old(beats))
      ensures clean == (old(clean) && NoneAgain(steps))
      ensures AllLowered(steps, Nexts(map[], state), pendingNonces.Values())
    {
      ghost var rules, was := Terms().(state := state, maxGas := maxGas), Now();
      MoveTo(state, maxGas);
      assert Terms() == rules && Now() == was;
      var results, dirty;
      results, dirty, crash, steps := AddTxsLocked(reinject, false, now);
      errs := results;
    }

    /** Moves the pool to the state of a new head, unless that is abandoned. */
    method Reset(reset: ResetRequest, now: nat)
      returns (crash: bool, ghost errs: seq<TxError>, ghost steps: seq<Addition>)
      requires Consistent()
      modifies this`currentState, this`pendingNonces, this`currentMaxGas, this`istanbul
      modifies this`pending, this`queue, this`beats, this`locals, this`accepted, this`clean, all, priced
      ensures Consistent()
      ensures reset.Abandoned? ==> !crash && errs == [] && Now() == old(Now()) && Terms() == old(Terms())
                                   && accepted == old(accepted) && pendingNonces == old(pendingNonces)
      ensures reset.ResetTo? ==>
                && fresh(pendingNonces) && currentState == reset.state && currentMaxGas == reset.maxGas
                && istanbul == (if crash then old(istanbul) else reset.istanbul)
                && Explains(old(Terms()).(state := reset.state, maxGas := reset.maxGas), false, reset.reinject, steps, errs,
                            crash, old(Now()), Now())
                && forall h :: h in accepted <==> h in old(accepted) || Accepted(reset.reinject, errs, h)
      ensures reset.ResetTo? ==> KeepsRuns(old(pending), Nexts(map[], reset.state), pending, pendingNonces.Values())
      ensures old(Contiguous()) && reset.ResetTo? && KeepsContiguous(Some(reset), old(currentState)) ==>
                !crash && queue == old(queue) && JustReset(old(currentState), old(pendingNonces.Values()))
      ensures HeardBy(steps, old(beats), beats, now) && (reset.Abandoned? || reset.reinject == [] ==> beats == old(beats))
      ensures clean == (old(clean) && NoneAgain(steps))
      ensures reset.ResetTo? ==> AllLowered(steps, Nexts(map[], reset.state), pendingNonces.Values())
    {
      crash, errs, steps := false, [], [];
      HeardNone(beats, now);
      if reset.ResetTo? {
        crash, errs, steps := Reinject(reset.state, reset.maxGas, reset.reinject, now);
        if !crash {
          istanbul := reset.istanbul;
        }
      }
    }

    /** Sets the virtual nonce of every account with pending transactions to follow the last one. */
    method SetNonces()
      requires Consistent()
      modifies pendingNonces
      ensures old(Settled()) ==> Contiguous()
      ensures old(Contiguous()) ==> Contiguous() && forall a :: pendingNonces.Next(a) == old(pendingNonces.Next(a))
      ensures Numbers(pending, old(pendingNonces.Values()), pendingNonces.Values())
    {
      assert Inside(0);
      var todo := Accounts(pending);
      while todo != {}
        invariant todo <= Accounts(pending)
        invariant forall a :: a in todo || a !in pending ==> pendingNonces.Next(a) == old(pendingNonces.Next(a))
        invariant forall a :: a in pending && a !in todo ==>
                              0 < pendingNonces.Next(a) && IsHighest(pending[a], pendingNonces.Next(a) - 1)
      {
        var a :| a in todo;
        ghost var h := HighestNonce(pending[a]);
        var last: nat :| IsHighest(pending[a], last);
        pendingNonces.Set(a, last + 1);
        todo := todo - {a};
      }
      forall a | old(Contiguous()) ensures pendingNonces.Next(a) == old(pendingNonces.Next(a)) {
        if a in pending {
          HighestEnds(pending[a], currentState.Nonce(a), old(pendingNonces.Next(a)), pendingNonces.Next(a) - 1);
        }
      }
      forall a | old(Settled())
        ensures Interval(At(pending, a), currentState.Nonce(a), pendingNonces.Next(a))
      {
        SettledEnds(At(pending, a), currentState.Nonce(a), old(pendingNonces.Next(a)), pendingNonces.Next(a));
      }
    }

    /** Promotes the accounts of a set. */
    method PromoteSet(accounts: set<Address>, now: nat)
      requires Consistent()
      modifies this`pending, this`queue, this`beats, all, priced, pendingNonces
      ensures Consistent()
      ensures old(Contiguous()) ==> Contiguous()
      ensures old(Staged()) ==> Staged()
      ensures Promotes(currentState, currentMaxGas, locals, config.accountQueue, accounts, old(pending), old(queue),
                       old(pendingNonces.Values()), pending, queue, pendingNonces.Values())
      ensures Pulses(currentState, currentMaxGas, locals, config.accountQueue, now, accounts, old(queue),
                     old(pendingNonces.Values()), old(beats), beats)
    {
      var promote := TxSortedMaps.Enumerate(accounts);
      forall a ensures a in accounts <==> a in promote {
        assert a in multiset(accounts) <==> a in multiset(promote);
      }
      assert Members(promote) == accounts;
      PromoteExecutables(promote, now);
    }

    /** The pool's limits hold, or there is nothing left to cut: only guaranteed slots and local accounts. */
    ghost predicate WithinLimits()
      reads `pending, `queue, `locals
    {
      && (Total(pending) <= config.globalSlots || forall a :: a !in locals ==> Size(At(pending, a)) <= config.accountSlots)
      && (Total(queue) <= config.globalQueue || forall a :: a !in locals ==> At(queue, a) == map[])
    }

    method TruncateLists() returns (ghost level: nat)
      requires Consistent()
      modifies this`pending, all, priced, pendingNonces
      ensures Consistent() && (old(Contiguous()) ==> Contiguous()) && (old(Settled()) ==> Settled())
      ensures Total(pending) <= config.globalSlots || forall a :: a !in locals ==> Size(At(pending, a)) <= config.accountSlots
      ensures old(Contiguous()) ==> forall a :: pendingNonces.Next(a) <= old(pendingNonces.Next(a))
      ensures Truncates(config, locals, old(pending), level, pending)
      ensures Spares(old(pending), old(pendingNonces.Values()), pending, pendingNonces.Values())
    {
      ghost var p0 := pending;
      level := TruncatePending();
      ExpandLeveled(p0, pending, locals, level, Total(pending), config.globalSlots);
      FilledFits(p0, pending, locals, level);
      forall a | old(Contiguous()) ensures pendingNonces.Next(a) <= old(pendingNonces.Next(a)) {
        IntervalShrinks(At(p0, a), At(pending, a), currentState.Nonce(a), old(pendingNonces.Next(a)), pendingNonces.Next(a));
      }
    }

    method Truncate(now: nat) returns (ghost cut: Truncation)
      requires Consistent()
      modifies this`pending, this`queue, this`beats, all, priced, pendingNonces
      ensures Consistent() && WithinLimits()
      ensures old(Contiguous()) ==> Contiguous() && forall a :: pendingNonces.Next(a) <= old(pendingNonces.Next(a))
      ensures old(Settled()) ==> Settled()
      ensures Truncates(config, locals, old(pending), cut.level, pending)
      ensures TruncatesQueue(config, locals, old(queue), cut, queue) && cut.beats == old(beats)
      ensures Spares(old(pending), old(pendingNonces.Values()), pending, pendingNonces.Values())
      ensures Stills(old(queue), cut.beats, queue, beats)
    {
      ghost var was := beats;
      ghost var level := TruncateLists();
      ghost var gone, last, left := TruncateQueue(now);
      cut := Truncation(level, was, gone, last, left);
    }

    method TruncateAndRenumber(now: nat) returns (ghost cut: Truncation)
      requires Consistent()
      modifies this`pending, this`queue, this`beats, all, priced, pendingNonces
      ensures Consistent() && WithinLimits()
      ensures old(Settled()) || old(Contiguous()) ==> Contiguous()
      ensures old(Contiguous()) ==> KeepsExhausted({}, old(queue), old(pendingNonces.Values()), queue, pendingNonces.Values())
      ensures Truncates(config, locals, old(pending), cut.level, pending)
      ensures TruncatesQueue(config, locals, old(queue), cut, queue) && cut.beats == old(beats)
      ensures Numbers(pending, old(pendingNonces.Values()), pendingNonces.Values())
      ensures Stills(old(queue), cut.beats, queue, beats)
    {
      ghost var q0, next0 := queue, pendingNonces.Values();
      cut := Truncate(now);
      SetNonces();
      if old(Contiguous()) {
        TruncatedQueue(config, locals, q0, cut, queue);
        FewerQueued(q0, next0, queue, pendingNonces.Values());
      }
    }

    /** Promotion of every queue, and the clean-up of the pending lists. */
    method PromoteAndDemote(ghost dirty: set<Address>, now: nat, ghost t: Reorganization) returns (ghost t': Reorganization)
      requires Consistent() && t.mid == Now() && t.next == pendingNonces.Values() && t.beats == beats
      modifies this`pending, this`queue, this`beats, all, priced, pendingNonces
      ensures Consistent() && t' == t.(ready := pending, queued := queue)
      ensures Readies(true, {}, currentState, currentMaxGas, config.accountQueue, t')
      ensures old(Staged()) ==> Settled()
      ensures BeatsBy(true, dirty, currentState, currentMaxGas, config.accountQueue, now, t', beats)
      ensures Advances(true, {}, currentState, currentMaxGas, t', pendingNonces.Values())
    {
      PromoteSet(Accounts(queue), now);
      ghost var p, q, next, b := pending, queue, pendingNonces.Values(), beats;
      DemoteUnexecutables(now);
      t' := t.(ready := pending, queued := queue);
      ResetBeats(currentState, currentMaxGas, config.accountQueue, now, dirty, t', p, q, next, b, beats);
      ResetReadies(currentState, currentMaxGas, config.accountQueue, t', p, q, next);
    }

    /** A reorganisation that keeps contiguous lists: without a reset, or with one that reinjects nothing and lowers
        no nonce, or with an abandoned one if everything pending can be paid for. */
    ghost predicate StaysContiguous(reset: Option<ResetRequest>)
      reads `pending, `currentState, `currentMaxGas, `pendingNonces, pendingNonces
    {
      Contiguous() && KeepsContiguous(reset, currentState) && (reset == Some(Abandoned) ==> IsSolvent())
    }

    lemma SolventStages()
      requires Contiguous() && IsSolvent()
      ensures Staged()
    {
      forall a ensures StagedList(At(pending, a), currentState, a, currentMaxGas, pendingNonces.Next(a)) {
        assert Holder(a);
        SolventIsStaged(At(pending, a), currentState, a, currentMaxGas, pendingNonces.Next(a));
      }
    }

    lemma ContiguousRuns()
      requires Contiguous()
      ensures forall a :: RunsFrom(At(pending, a), currentState.Nonce(a))
    {
      forall a ensures RunsFrom(At(pending, a), currentState.Nonce(a)) {
        assert Interval(At(pending, a), currentState.Nonce(a), pendingNonces.Next(a));
      }
    }

    /** A reset, promotion and clean-up.  A reset from contiguous lists leaves a gap in a list exactly as
        `LeavesGap` says of it after the reinjection. */
    method PromoteAfterReset(reset: ResetRequest, ghost dirty: set<Address>, now: nat)
      returns (crash: bool, ghost t: Reorganization)
      requires Consistent()
      modifies this`currentState, this`pendingNonces, this`currentMaxGas, this`istanbul
      modifies this`pending, this`queue, this`beats, this`locals, this`accepted, this`clean
      modifies all, priced, pendingNonces
      ensures Consistent() && (pendingNonces == old(pendingNonces) || fresh(pendingNonces))
      ensures currentState == StateAfter(Some(reset), old(currentState)) && t.ready == pending && t.queued == queue
      ensures !crash ==> Terms() == RulesAfter(old(Terms()), Some(reset))
      ensures !crash ==> Reinjects(old(Terms()), Some(reset), old(Now()), t) && t.mid.locals == locals
      ensures !crash ==> Readies(true, {}, currentState, currentMaxGas, config.accountQueue, t)
      ensures crash ==> reset.ResetTo? && Explains(old(Terms()).(state := reset.state, maxGas := reset.maxGas), false,
                                                   reset.reinject, t.steps, t.errs, true, old(Now()), Now())
      ensures forall h :: h in accepted <==> h in old(accepted) || (reset.ResetTo? && Accepted(reset.reinject, t.errs, h))
      ensures old(StaysContiguous(Some(reset))) ==>
                !crash && Settled() && Separates(old(queue), old(pendingNonces.Values()), currentState, pending, queue)
      ensures old(Contiguous()) && reset.ResetTo? && !crash ==>
                && Gaps(old(currentState), currentState, currentMaxGas, t)
                && Missing(old(currentState), currentState, currentMaxGas, t)
      ensures if reset.ResetTo?
              then && AllLowered(t.steps, Nexts(map[], currentState), t.next)
                   && (!crash ==> KeepsRuns(old(pending), Nexts(map[], currentState), t.mid.pending, t.next))
              else t.next == old(pendingNonces.Values())
      ensures !crash ==> BeatsBy(true, dirty, currentState, currentMaxGas, config.accountQueue, now, t, beats)
      ensures HeardBy(t.steps, old(beats), t.beats, now) && (Reinjected(Some(reset)) == [] ==> t.beats == old(beats))
      ensures clean == (old(clean) && NoneAgain(t.steps))
      ensures !crash ==> Advances(true, {}, currentState, currentMaxGas, t, pendingNonces.Values())
    {
      ghost var p0, nonces, next0 := pending, currentState, pendingNonces.Values();
      ghost var whole, calm := Contiguous(), reset.Abandoned? && StaysContiguous(Some(reset));
      if whole {
        ContiguousRuns();
      }
      ghost var errs, steps;
      crash, errs, steps := Reset(reset, now);
      ViewsAgree();
      t := Reorganization(steps, errs, Now(), pendingNonces.Values(), beats, pending, queue);
      if crash {
        return;
      }
      if calm {
        SolventStages();
      }
      t := PromoteAndDemote(dirty, now, t);
      if calm {
        AbandonedSeparates(next0, currentState, currentMaxGas, config.accountQueue, t);
      }
      if whole && reset.ResetTo? {
        ResetGaps(p0, Nexts(map[], currentState), nonces, currentState, currentMaxGas, config.accountQueue, t);
        ResetMisses(p0, Nexts(map[], currentState), nonces, currentState, currentMaxGas, config.accountQueue, t);
        if KeepsContiguous(Some(reset), nonces) {
          ResetSeparates(next0, nonces, currentState, currentMaxGas, t);
        }
      }
    }

    /** The part of a reorganisation before the truncation. */
    method Promote(reset: Option<ResetRequest>, dirty: set<Address>, now: nat)
      returns (crash: bool, ghost t: Reorganization)
      requires Consistent()
      modifies this`currentState, this`pendingNonces, this`currentMaxGas, this`istanbul
      modifies this`pending, this`queue, this`beats, this`locals, this`accepted, this`clean
      modifies all, priced, pendingNonces
      ensures Consistent() && (pendingNonces == old(pendingNonces) || fresh(pendingNonces))
      ensures currentState == StateAfter(reset, old(currentState)) && t.ready == pending && t.queued == queue
      ensures !crash ==> Terms() == RulesAfter(old(Terms()), reset)
      ensures !crash ==> Reinjects(old(Terms()), reset, old(Now()), t) && t.mid.locals == locals
      ensures !crash ==> Readies(reset.Some?, dirty, currentState, currentMaxGas, config.accountQueue, t)
      ensures crash ==> IsReset(reset)
                        && Explains(old(Terms()).(state := reset.value.state, maxGas := reset.value.maxGas), false,
                                    reset.value.reinject, t.steps, t.errs, true, old(Now()), Now())
      ensures old(accepted) <= accepted && forall h :: h in accepted ==> h in old(accepted) || h.tx in Reinjected(reset)
      ensures old(StaysContiguous(reset)) ==>
                && !crash && (if reset.Some? then Settled() else Contiguous())
                && (if reset.Some? then Separates(old(queue), old(pendingNonces.Values()), currentState, pending, queue)
                    else KeepsExhausted({}, old(queue), old(pendingNonces.Values()), queue, pendingNonces.Values()))
      ensures reset == None ==> forall a :: a in dirty ==> Drained(a)
      ensures old(Contiguous()) && IsReset(reset) && !crash ==>
                && Gaps(old(currentState), currentState, currentMaxGas, t)
                && Missing(old(currentState), currentState, currentMaxGas, t)
      ensures if IsReset(reset)
              then && AllLowered(t.steps, Nexts(map[], currentState), t.next)
                   && (!crash ==> KeepsRuns(old(pending), Nexts(map[], currentState), t.mid.pending, t.next))
              else t.next == old(pendingNonces.Values())
      ensures !crash ==> BeatsBy(reset.Some?, dirty, currentState, currentMaxGas, config.accountQueue, now, t, beats)
      ensures HeardBy(t.steps, old(beats), t.beats, now) && (Reinjected(reset) == [] ==> t.beats == old(beats))
      ensures clean == (old(clean) && NoneAgain(t.steps))
      ensures !crash ==> Advances(reset.Some?, dirty, currentState, currentMaxGas, t, pendingNonces.Values())
    {
      if reset.Some? {
        crash, t := PromoteAfterReset(reset.value, dirty, now);
        ReadiesAnyway(dirty, currentState, currentMaxGas, config.accountQueue, t, pendingNonces.Values());
      } else {
        HeardNone(beats, now);
        crash, t := false, Reorganization([], [], Now(), pendingNonces.Values(), beats, pending, queue);
        PromoteSet(dirty, now);
        t := t.(ready := pending, queued := queue);
        PromotionBeats(currentState, currentMaxGas, config.accountQueue, now, dirty, t, beats);
        PromotionReadies(currentState, currentMaxGas, config.accountQueue, dirty, t, pendingNonces.Values());
        PromotionExhausts(currentState, currentMaxGas, locals, config.accountQueue, dirty, t.mid.pending, t.mid.queue,
                          t.next, pending, queue, pendingNonces.Values());
      }
    }

    /** The last part of a reorganisation: the limits, and virtual nonces that follow what is left. */
    method Conclude(reset: bool, dirty: set<Address>, now: nat, ghost benign: bool, ghost q0: Lists, ghost next0: Nexts)
      returns (ghost cut: Truncation)
      requires Consistent() && (benign && !reset ==> forall a :: a in dirty ==> Drained(a))
      requires benign ==>
                 if reset then Settled() && Separates(q0, next0, currentState, pending, queue)
                 else Contiguous() && KeepsExhausted({}, q0, next0, queue, pendingNonces.Values())
      modifies this`pending, this`queue, this`beats, all, priced, pendingNonces
      ensures Consistent() && WithinLimits() && Truncates(config, locals, old(pending), cut.level, pending)
      ensures TruncatesQueue(config, locals, old(queue), cut, queue) && cut.beats == old(beats)
      ensures benign ==> Contiguous() && KeepsExhausted({}, q0, next0, queue, pendingNonces.Values())
      ensures benign && !reset ==> forall a :: a in dirty ==> Drained(a)
      ensures Numbers(pending, old(pendingNonces.Values()), pendingNonces.Values())
      ensures Stills(old(queue), cut.beats, queue, beats)
    {
      ghost var p, q, next := pending, queue, pendingNonces.Values();
      cut := TruncateAndRenumber(now);
      if benign {
        TruncationExhausts(reset, q0, next0, currentState, p, q, next, config, locals, cut, pending, queue,
                           pendingNonces.Values());
        forall a | !reset && a in dirty ensures Drained(a) {
          assert Holder(a);
        }
      }
    }

    /** A reorganisation: an optional reset, promotion, clean-up after a reset, and truncation. */
    method RunReorg(reset: Option<ResetRequest>, dirty: set<Address>, now: nat)
      returns (crash: bool, ghost t: Reorganization, ghost cut: Truncation)
      requires Consistent()
      modifies this`currentState, this`pendingNonces, this`currentMaxGas, this`istanbul
      modifies this`pending, this`queue, this`beats, this`locals, this`accepted, this`clean
      modifies all, priced, pendingNonces
      ensures Consistent() && (pendingNonces == old(pendingNonces) || fresh(pendingNonces))
      ensures currentState == StateAfter(reset, old(currentState))
      ensures !crash ==> Terms() == RulesAfter(old(Terms()), reset)
      ensures !crash ==> WithinLimits() && Reinjects(old(Terms()), reset, old(Now()), t) && t.mid.locals == locals
                         && Readies(reset.Some?, dirty, currentState, currentMaxGas, config.accountQueue, t)
                         && Truncates(config, locals, t.ready, cut.level, pending)
                         && TruncatesQueue(config, locals, t.queued, cut, queue)
                         && BeatsBy(reset.Some?, dirty, currentState, currentMaxGas, config.accountQueue, now, t, cut.beats)
      ensures crash ==> IsReset(reset)
                        && Explains(old(Terms()).(state := reset.value.state, maxGas := reset.value.maxGas), false,
                                    reset.value.reinject, t.steps, t.errs, true, old(Now()), Now())
      ensures old(accepted) <= accepted && forall h :: h in accepted ==> h in old(accepted) || h.tx in Reinjected(reset)
      ensures !crash && (reset.Some? || old(IsSolvent())) ==> IsSolvent()
      ensures old(StaysContiguous(reset)) ==>
                && !crash && Contiguous()
                && KeepsExhausted({}, old(queue), old(pendingNonces.Values()), queue, pendingNonces.Values())
      ensures old(Contiguous()) && IsReset(reset) && !crash ==>
                && Gaps(old(currentState), currentState, currentMaxGas, t)
                && Missing(old(currentState), currentState, currentMaxGas, t)
      ensures if IsReset(reset)
              then && AllLowered(t.steps, Nexts(map[], currentState), t.next)
                   && (!crash ==> KeepsRuns(old(pending), Nexts(map[], currentState), t.mid.pending, t.next))
              else t.next == old(pendingNonces.Values())
      ensures old(Contiguous()) && reset == None ==> forall a :: a in dirty ==> Drained(a)
      ensures HeardBy(t.steps, old(beats), t.beats, now) && (Reinjected(reset) == [] ==> t.beats == old(beats))
      ensures clean == (old(clean) && NoneAgain(t.steps))
      ensures !crash ==> Renumbers(reset.Some?, dirty, currentState, currentMaxGas, t, pending, pendingNonces.Values())
      ensures !crash ==> Stills(t.queued, cut.beats, queue, beats)
    {
      ghost var q0, next0, benign := queue, pendingNonces.Values(), StaysContiguous(reset);
      crash, t := Promote(reset, dirty, now);
      cut := Truncation(0, beats, {}, None, 0);
      if !crash {
        ghost var next := pendingNonces.Values();
        cut := Conclude(reset.Some?, dirty, now, benign, q0, next0);
        NumbersRenumber(reset.Some?, dirty, currentState, currentMaxGas, t, next, pending, pendingNonces.Values());
        if reset.Some? || old(IsSolvent()) {
          EndsSolvent(reset.Some?, dirty, currentState, currentMaxGas, config, locals, t, cut.level, pending);
        }
      }
    }

    /** Adds transactions that are new and signed, and reports for each one what became of it: the `k`-th
        addition is that of the transaction at position `open[k]`. */
    method AddTxs(txs: seq<Transaction>, local: bool, now: nat)
      returns (errs: seq<TxError>, dirty: set<Address>, crash: bool, ghost open: seq<nat>, ghost results: seq<TxError>,
               ghost steps: seq<Addition>)
      requires Consistent()
      modifies this`pending, this`queue, this`beats, this`locals, this`accepted, this`clean
      modifies all, priced, pendingNonces
      ensures Consistent() && (old(Contiguous()) ==> Contiguous())
      ensures OpenSlots(old(all.all), txs, open) && (!crash ==> Aligned(old(all.all), txs, errs, open, results))
      ensures Explains(Terms(), local, Chosen(txs, open), steps, results, crash, old(Now()), Now())
      ensures forall a :: a in dirty <==> IsDirty(steps, a)
      ensures forall h :: h in accepted <==> h in old(accepted) || Accepted(Chosen(txs, open), results, h)
      ensures KeepsExhausted(dirty, old(queue), old(pendingNonces.Values()), queue, pendingNonces.Values())
      ensures clean == (old(clean) && NoneAgain(steps))
      ensures AllLowered(steps, old(pendingNonces.Values()), pendingNonces.Values())
      ensures HeardBy(steps, old(beats), beats, now)
    {
      var news;
      errs, news, open := Screen(all.all, txs);
      assert news == Chosen(txs, open);
      ExplainsNone(Terms(), local, Now());
      NoneLowered(pendingNonces.Values());
      HeardNone(beats, now);
      dirty, crash, results, steps := {}, false, [], [];
      if news != [] {
        ghost var known := all.all;
        var newErrs;
        newErrs, dirty, crash, steps := AddTxsLocked(news, local, now);
        results := newErrs;
        if !crash {
          errs := PlaceErrors(known, txs, errs, newErrs, open);
        }
      }
    }

    method StepAdd(txs: seq<Transaction>, local: bool, now: nat) returns (crash: bool, ghost joined: set<Address>)
      requires Consistent()
      modifies this`pending, this`queue, this`beats, this`locals, this`accepted, this`clean
      modifies all, priced, pendingNonces
      ensures Consistent() && (old(Contiguous()) ==> Contiguous())
      ensures old(locals) <= locals && forall h :: h in accepted ==> h in old(accepted) || h.tx in txs
      ensures joined <= Senders(txs)
      ensures KeepsExhausted(joined, old(queue), old(pendingNonces.Values()), queue, pendingNonces.Values())
      ensures old(IsSolvent()) ==> IsSolvent()
      ensures old(locals) != {} ==> !crash
      ensures (forall h :: h in old(accepted) ==> OneSlot(h.tx)) && (forall tx :: tx in txs ==> OneSlot(tx)) ==> !crash
    {
      HoldsOnlyAccepted();
      ghost var was := Now();
      var errs, dirty;
      ghost var open, results, steps;
      errs, dirty, crash, open, results, steps := AddTxs(txs, local, now);
      NoCrash(Terms(), local, Chosen(txs, open), steps, results, crash, was, Now());
      if old(IsSolvent()) {
        AdditionsStaySolvent(Terms(), local, Chosen(txs, open), steps, results, crash, was, Now());
      }
      forall h | Accepted(Chosen(txs, open), results, h) ensures h.tx in txs {
        assert h.tx in Chosen(txs, open);
      }
      joined := dirty;
      forall a | a in joined ensures a in Senders(txs) {
        DirtySenders(Terms(), local, Chosen(txs, open), steps, results, crash, was, Now(), a);
        assert forall tx :: tx in Chosen(txs, open) ==> tx in txs;
      }
    }

    method StepReorg(reset: Option<ResetRequest>, dirty: set<Address>, now: nat) returns (crash: bool)
      requires Consistent()
      modifies this`currentState, this`pendingNonces, this`currentMaxGas, this`istanbul
      modifies this`pending, this`queue, this`beats, this`locals, this`accepted, this`clean
      modifies all, priced, pendingNonces
      ensures Consistent() && (pendingNonces == old(pendingNonces) || fresh(pendingNonces))
      ensures currentState == StateAfter(reset, old(currentState))
      ensures !crash && (reset.Some? || old(IsSolvent())) ==> IsSolvent()
      ensures old(StaysContiguous(reset)) ==>
                && Contiguous() && KeepsExhausted({}, old(queue), old(pendingNonces.Values()), queue, pendingNonces.Values())
                && (reset == None ==> forall a :: a in dirty ==> Drained(a))
      ensures old(locals) <= locals && forall h :: h in accepted ==> h in old(accepted) || h.tx in Reinjected(reset)
      ensures old(locals) != {} ==> !crash
      ensures (forall h :: h in old(accepted) ==> OneSlot(h.tx)) && (forall tx :: tx in Reinjected(reset) ==> OneSlot(tx))
              ==> !crash
    {
      HoldsOnlyAccepted();
      ghost var rules, was := Terms(), Now();
      ghost var t, cut;
      crash, t, cut := RunReorg(reset, dirty, now);
      if IsReset(reset) {
        NoCrash(rules.(state := reset.value.state, maxGas := reset.value.maxGas), false, reset.value.reinject, t.steps, t.errs,
                crash, was, if crash then Now() else t.mid);
      }
    }

    method Step(op: Operation) returns (crash: bool, ghost joined: set<Address>)
      requires Consistent()
      modifies this`gasPrice, this`currentState, this`pendingNonces, this`currentMaxGas, this`istanbul
      modifies this`pending, this`queue, this`beats, this`locals, this`accepted, this`clean
      modifies all, priced, pendingNonces
      ensures Consistent() && (pendingNonces == old(pendingNonces) || fresh(pendingNonces))
      ensures currentState == if op.Reorganize? then StateAfter(op.reset, old(currentState)) else old(currentState)
      ensures !crash && old(IsSolvent()) ==> IsSolvent()
      ensures old(StaysContiguous(if op.Reorganize? then op.reset else None)) ==>
                && Contiguous()
                && KeepsExhausted(joined, old(queue), old(pendingNonces.Values()), queue, pendingNonces.Values())
                && (op.Reorganize? && op.reset == None ==> forall a :: a in op.dirty ==> Drained(a))
      ensures if op.AddMany? then joined <= Senders(op.txs) else joined == {}
      ensures old(locals) <= locals && forall h :: h in accepted ==> h in old(accepted) || h.tx in Brought(op)
      ensures old(locals) != {} ==> !crash
      ensures (forall h :: h in old(accepted) ==> OneSlot(h.tx)) && (forall tx :: tx in Brought(op) ==> OneSlot(tx)) ==>
                !crash
    {
      crash, joined := false, {};
      match op
      case AddMany(txs, local, now) =>
        crash, joined := StepAdd(txs, local, now);
      case Reorganize(reset, dirty, now) =>
        crash := StepReorg(reset, dirty, now);
      case Reprice(price, now) =>
        ghost var drop := SetGasPrice(price, now);
      case EvictIdle(now) =>
        Evict(now);
    }

    /** Any sequence of operations keeps the views consistent, holds only transactions that were brought and leaves
        only such pending that can be paid for.  If its resets, but for abandoned ones, lower no nonce and reinject
        nothing, the pending lists stay contiguous, and nothing executable is queued but for accounts that are due.  A
        run ends early with the panic of `Discard`, which a local account rules out, and so do transactions of one
        slot. */
    method Run(ops: seq<Operation>, ghost due: set<Address>) returns (done: nat, ghost joined: seq<set<Address>>)
      requires Consistent()
      modifies this`gasPrice, this`currentState, this`pendingNonces, this`currentMaxGas, this`istanbul
      modifies this`pending, this`queue, this`beats, this`locals, this`accepted, this`clean
      modifies all, priced, pendingNonces
      ensures Consistent() && done <= |ops|
      ensures old(IsSolvent()) && done == |ops| ==> IsSolvent()
      ensures old(Contiguous() && IsSolvent()) && Benign(ops, old(currentState)) ==> Contiguous()
      ensures |joined| == done && forall i :: 0 <= i < done ==>
                if ops[i].AddMany? then joined[i] <= Senders(ops[i].txs) else joined[i] == {}
      ensures old(Contiguous() && IsSolvent()) && Benign(ops, old(currentState)) && done == |ops|
              && (forall a :: a !in due ==> old(Drained(a))) ==>
                forall a :: a !in Due(ops, joined, due) ==> Drained(a)
      ensures forall h :: h in all.all ==> h in old(accepted) || BroughtBy(ops, h.tx)
      ensures old(locals) != {} ==> done == |ops|
      ensures (forall h :: h in old(accepted) ==> OneSlot(h.tx)) && (forall tx :: BroughtBy(ops, tx) ==> OneSlot(tx)) ==>
                done == |ops|
    {
      done, joined := 0, [];
      ghost var solvent := IsSolvent();
      ghost var safe := solvent && Contiguous() && Benign(ops, currentState);
      ghost var drained := safe && forall a :: a !in due ==> Drained(a);
      while done < |ops|
        invariant Consistent() && (pendingNonces == old(pendingNonces) || fresh(pendingNonces)) && done <= |ops|
        invariant (solvent ==> IsSolvent()) && (safe ==> Contiguous() && Benign(ops[done..], currentState))
        invariant |joined| == done && forall i :: 0 <= i < done ==>
                    if ops[i].AddMany? then joined[i] <= Senders(ops[i].txs) else joined[i] == {}
        invariant drained ==> forall a :: a !in Due(ops[..done], joined, due) ==> Drained(a)
        invariant old(locals) <= locals && forall h :: h in accepted ==> h in old(accepted) || BroughtBy(ops, h.tx)
      {
        assert ops[done..][0] == ops[done] && ops[done..][1..] == ops[done + 1..];
        forall tx | tx in Brought(ops[done]) ensures BroughtBy(ops, tx) {
        }
        ghost var q, next := queue, pendingNonces.Values();
        var crash;
        ghost var more;
        crash, more := Step(ops[done]);
        if crash {
          break;
        }
        DueNext(ops, done, joined, due, more);
        forall a | drained && a !in Due(ops[..done + 1], joined + [more], due) ensures Drained(a) {
          assert Holder(a);
        }
        done, joined := done + 1, joined + [more];
      }
      assert done == |ops| ==> ops[..done] == ops;
      HoldsOnlyAccepted();
    }
  }
}
