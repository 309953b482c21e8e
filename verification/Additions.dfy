/** What adding transactions to the pool of core/tx_pool.go does to its views, as values. */
module Additions {
  import opened Basics
  import opened Transactions
  import opened NonceMaps
  import opened TxLists
  import opened TxPricing
  import opened PoolViews
  import opened TxNoncers
  import opened PoolSteps
  import IntrinsicGas

  /** What the pool judges a transaction by. */
  datatype Rules = Rules(config: Config, gasPrice: nat, state: State, maxGas: nat, istanbul: bool) {
    /** What a transaction must satisfy to enter the pool. */
    ghost predicate Accepts(tx: Transaction, local: bool, locals: set<Address>) {
      && tx.size <= TX_MAX_SIZE && 0 <= tx.value && tx.gas <= maxGas && tx.signed
      && (local || tx.from in locals || gasPrice <= tx.gasPrice)
      && state.Nonce(tx.from) <= tx.nonce && tx.Cost() <= state.Balance(tx.from)
      && IntrinsicGas.Cost(tx.data, tx.creation, true, istanbul) <= tx.gas
    }

    /** The condition an error of the validation reports. */
    ghost predicate Blames(err: TxError, tx: Transaction, local: bool, locals: set<Address>) {
      match err
      case OversizedData => tx.size > TX_MAX_SIZE
      case NegativeValue => tx.value < 0
      case GasLimit => tx.gas > maxGas
      case InvalidSender => !tx.signed
      case Underpriced => !local && tx.from !in locals && tx.gasPrice < gasPrice
      case NonceTooLow => tx.nonce < state.Nonce(tx.from)
      case InsufficientFunds => state.Balance(tx.from) < tx.Cost()
      case GasUintOverflow => IntrinsicGas.Cost(tx.data, tx.creation, true, istanbul) > MAX_UINT64
      case IntrinsicGasTooLow => IntrinsicGas.Cost(tx.data, tx.creation, true, istanbul) > tx.gas
      case _ => false
    }

    function Limit(): nat {
      config.globalSlots + config.globalQueue
    }
  }

  /** The pool's index, lists, local accounts and price heap. */
  datatype Views = Views(all: Lookup, pending: Lists, queue: Lists, locals: set<Address>, heap: seq<Transaction>)

  /** The addition of `tx`: with `held` in the price heap, `drop` makes room, and `tx` is refused or enters. */
  datatype Addition = Addition(
    tx: Transaction, before: Views, held: seq<Transaction>, drop: seq<Transaction>, crash: bool, room: Views,
    err: TxError, replaced: bool, after: Views)

  /** The pool is full and `tx` outbids nobody. */
  ghost predicate BidsTooLittle(limit: nat, tx: Transaction, local: bool, v: Views) {
    && |Hashes(v.all)| >= limit && !local && !IsLocal(tx, v.locals) && v.all != map[]
    && forall h :: h in v.all ==> tx.gasPrice <= h.tx.gasPrice
  }

  /** A pending transaction of `a` at or below nonce `n` is dropped. */
  ghost predicate Severed(m: NonceMap, drop: seq<Transaction>, n: nat) {
    exists d :: d in drop && Holds(m, d) && d.nonce <= n
  }

  /** What stays pending of `m`: what precedes the first dropped nonce. */
  ghost function Spared(m: NonceMap, drop: seq<Transaction>): NonceMap {
    map n | n in m && !Severed(m, drop, n) :: m[n]
  }

  /** The transactions `drop` have left all views; what followed one of them on a pending list is queued. */
  ghost predicate Cleared(v: Views, drop: seq<Transaction>, v': Views) {
    && (forall h :: h in v'.all <==> h in v.all && h.tx !in drop)
    && (forall a :: At(v'.pending, a) == Spared(At(v.pending, a), drop))
    && Agree(v'.all, v'.pending, v'.queue, map[])
    && v'.locals == v.locals && |v'.heap| <= |v.heap|
  }

  ghost predicate DiscardsInFull(limit: nat, tx: Transaction, v: Views, drop: seq<Transaction>, crash: bool, v': Views) {
    var want := Excess(SlotSum(Hashes(v.all)), limit, tx);
    && (crash <==> v.locals == {} && |v.heap| < want)
    && (if crash then drop == [] && v' == v
        else Cheapest(drop, v.all, v.locals, Wanted(want, v.heap, v.locals)) && Cleared(v, drop, v'))
  }

  /** The cheapest transactions that are not local are dropped to free the slots `tx` needs.  The source panics
      when it wants more slots than the heap has entries and no account is local.  Guarded as `Agree` is. */
  ghost predicate Discards(limit: nat, tx: Transaction, v: Views, drop: seq<Transaction>, crash: bool, v': Views) {
    forall k {:trigger Open(k)} :: Open(k) ==> DiscardsInFull(limit, tx, v, drop, crash, v')
  }

  ghost predicate MakesRoomInFull(limit: nat, tx: Transaction, local: bool, before: Views, held: seq<Transaction>,
                                  drop: seq<Transaction>, crash: bool, room: Views) {
    if |Hashes(before.all)| < limit then held == before.heap && drop == [] && !crash && room == before
    else
      && Pruned(before.all, before.heap, held) && (local || IsLocal(tx, before.locals) ==> held == before.heap)
      && Discards(limit, tx, before.(heap := held), drop, crash, room)
  }

  /** A full pool discards transactions, once stale entries at the top of the heap are gone; guarded as `Agree` is. */
  ghost predicate MakesRoom(limit: nat, tx: Transaction, local: bool, before: Views, held: seq<Transaction>,
                            drop: seq<Transaction>, crash: bool, room: Views) {
    forall k {:trigger Open(k)} :: Open(k) ==> MakesRoomInFull(limit, tx, local, before, held, drop, crash, room)
  }

  /** The transaction with the nonce of `tx` that is pending or queued. */
  function Rival(tx: Transaction, v: Views): Option<Transaction> {
    if tx.nonce in At(v.pending, tx.from) then Some(At(v.pending, tx.from)[tx.nonce])
    else if tx.nonce in At(v.queue, tx.from) then Some(At(v.queue, tx.from)[tx.nonce])
    else None
  }

  /** Where an accepted transaction goes: in the place of a pending one, or into the queue. */
  ghost predicate Enters(tx: Transaction, local: bool, room: Views, after: Views) {
    var a, rival := tx.from, Rival(tx, room);
    && after.all == (if rival.Some? then room.all - {rival.value.Hash()} else room.all)[tx.Hash() := tx]
    && (if tx.nonce in At(room.pending, a) then
          && after.pending == With(room.pending, a, At(room.pending, a)[tx.nonce := tx])
          && after.queue == room.queue && after.locals == room.locals
        else
          && after.pending == room.pending && after.queue == With(room.queue, a, At(room.queue, a)[tx.nonce := tx])
          && after.locals == if local then room.locals + {a} else room.locals)
    && |after.heap| <= |room.heap| + 1
  }

  ghost predicate InsertsInFull(bump: nat, tx: Transaction, local: bool, room: Views, err: TxError, replaced: bool,
                                after: Views) {
    var rival := Rival(tx, room);
    if rival.Some? && !MayReplace(rival.value, tx, bump) then
      err == ReplaceUnderpriced && !replaced && after == room
    else
      err == NoError && replaced == rival.Some? && Enters(tx, local, room, after)
  }

  /** A transaction enters unless another one has its nonce and is not outbid; guarded as `Agree` is. */
  ghost predicate Inserts(bump: nat, tx: Transaction, local: bool, room: Views, err: TxError, replaced: bool,
                          after: Views) {
    forall k {:trigger Open(k)} :: Open(k) ==> InsertsInFull(bump, tx, local, room, err, replaced, after)
  }

  ghost predicate AddsInFull(rules: Rules, local: bool, s: Addition) {
    if s.tx.Hash() in s.before.all then
      s.err == AlreadyKnown && !s.replaced && !s.crash && s.drop == [] && s.after == s.room == s.before
    else if !rules.Accepts(s.tx, local, s.before.locals) then
      && rules.Blames(s.err, s.tx, local, s.before.locals) && !s.replaced && !s.crash && s.drop == []
      && s.after == s.room == s.before
    else if BidsTooLittle(rules.Limit(), s.tx, local, s.before) then
      && s.err == Underpriced && !s.replaced && !s.crash && s.drop == [] && Pruned(s.before.all, s.before.heap, s.held)
      && s.after == s.room == s.before.(heap := s.held)
    else
      && MakesRoom(rules.Limit(), s.tx, local, s.before, s.held, s.drop, s.crash, s.room)
      && (if s.crash then s.after == s.room && s.err == NoError && !s.replaced
          else Inserts(rules.config.priceBump, s.tx, local, s.room, s.err, s.replaced, s.after))
  }

  /** `s` is what adding `s.tx` comes to; guarded as `Agree` is. */
  ghost predicate Adds(rules: Rules, local: bool, s: Addition) {
    forall k {:trigger Open(k)} :: Open(k) ==> AddsInFull(rules, local, s)
  }

  lemma ExpandAdds(rules: Rules, local: bool, s: Addition)
    ensures Adds(rules, local, s) <==> AddsInFull(rules, local, s)
  {
    assert Open(0);
  }

  /** A refusal changes nothing. */
  function Refusal(tx: Transaction, v: Views, err: TxError): Addition {
    Addition(tx, v, v.heap, [], false, v, err, false, v)
  }

  lemma RefusalAdds(rules: Rules, tx: Transaction, local: bool, v: Views, err: TxError)
    requires if tx.Hash() in v.all then err == AlreadyKnown
             else !rules.Accepts(tx, local, v.locals) && rules.Blames(err, tx, local, v.locals)
    ensures Adds(rules, local, Refusal(tx, v, err))
  {
  }

  lemma LowBidAdds(rules: Rules, tx: Transaction, local: bool, v: Views, held: seq<Transaction>)
    requires tx.Hash() !in v.all && rules.Accepts(tx, local, v.locals) && BidsTooLittle(rules.Limit(), tx, local, v)
    requires Pruned(v.all, v.heap, held)
    ensures var v' := v.(heap := held);
            Adds(rules, local, Refusal(tx, v, Underpriced).(held := held, room := v', after := v'))
  {
  }

  lemma InsertionAdds(rules: Rules, local: bool, s: Addition)
    requires s.tx.Hash() !in s.before.all && rules.Accepts(s.tx, local, s.before.locals)
    requires !BidsTooLittle(rules.Limit(), s.tx, local, s.before)
    requires MakesRoom(rules.Limit(), s.tx, local, s.before, s.held, s.drop, s.crash, s.room)
    requires if s.crash then s.after == s.room && s.err == NoError && !s.replaced
             else Inserts(rules.config.priceBump, s.tx, local, s.room, s.err, s.replaced, s.after)
    ensures Adds(rules, local, s)
  {
  }

  lemma DiscardsBy(limit: nat, tx: Transaction, slots: nat, v: Views, drop: seq<Transaction>, crash: bool, v': Views)
    requires slots == Excess(SlotSum(Hashes(v.all)), limit, tx) && (crash <==> v.locals == {} && |v.heap| < slots)
    requires if crash then drop == [] && v' == v
             else Cheapest(drop, v.all, v.locals, Wanted(slots, v.heap, v.locals)) && Cleared(v, drop, v')
    ensures Discards(limit, tx, v, drop, crash, v')
  {
  }

  lemma FullMakesRoom(limit: nat, tx: Transaction, local: bool, before: Views, held: seq<Transaction>,
                      drop: seq<Transaction>, crash: bool, room: Views)
    requires limit <= |Hashes(before.all)| && Pruned(before.all, before.heap, held)
    requires local || IsLocal(tx, before.locals) ==> held == before.heap
    requires Discards(limit, tx, before.(heap := held), drop, crash, room)
    ensures MakesRoom(limit, tx, local, before, held, drop, crash, room)
    ensures forall h :: h in room.all ==> h in before.all
  {
    assert Open(0);
  }

  lemma ItselfPruned(all: Lookup, heap: seq<Transaction>)
    requires forall h :: h in all ==> h.tx in heap
    ensures Pruned(all, heap, heap)
  {
  }

  lemma QueueingInserts(bump: nat, tx: Transaction, local: bool, room: Views, ok: bool, after: Views)
    requires tx.nonce !in At(room.pending, tx.from)
    requires ok == Fits(At(room.queue, tx.from), tx, bump)
    requires if ok then
               && after.all == (if tx.nonce in At(room.queue, tx.from) then
                                  room.all - {At(room.queue, tx.from)[tx.nonce].Hash()} else room.all)[tx.Hash() := tx]
               && after.pending == room.pending
               && after.queue == With(room.queue, tx.from, At(room.queue, tx.from)[tx.nonce := tx])
               && after.locals == (if local then room.locals + {tx.from} else room.locals)
               && |after.heap| <= |room.heap| + 1
             else after == room
    ensures Inserts(bump, tx, local, room, if ok then NoError else ReplaceUnderpriced,
                    ok && tx.nonce in At(room.queue, tx.from), after)
  {
  }

  lemma ReplacingInserts(bump: nat, tx: Transaction, local: bool, room: Views, ok: bool, after: Views)
    requires tx.nonce in At(room.pending, tx.from)
    requires ok == MayReplace(At(room.pending, tx.from)[tx.nonce], tx, bump)
    requires if ok then
               && after.all == (room.all - {At(room.pending, tx.from)[tx.nonce].Hash()})[tx.Hash() := tx]
               && after.pending == With(room.pending, tx.from, At(room.pending, tx.from)[tx.nonce := tx])
               && after.queue == room.queue && after.locals == room.locals && |after.heap| <= |room.heap| + 1
             else after == room
    ensures Inserts(bump, tx, local, room, if ok then NoError else ReplaceUnderpriced, ok, after)
  {
  }

  lemma SparedNone(m: NonceMap)
    ensures Spared(m, []) == m
  {
  }

  /** One more transaction removed from the pending lists, if it is still on one. */
  lemma SparedNext(p0: Lists, p: Lists, drop: seq<Transaction>, i: nat, p': Lists)
    requires i < |drop| && Owned(p0) && forall a :: At(p, a) == Spared(At(p0, a), drop[..i])
    requires p' == if Held(p, drop[i]) then CutPending(p, drop[i]) else p
    ensures forall a :: At(p', a) == Spared(At(p0, a), drop[..i + 1])
  {
    var d := drop[i];
    assert drop[..i + 1] == drop[..i] + [d];
    forall a ensures At(p', a) == Spared(At(p0, a), drop[..i + 1]) {
      var m := At(p0, a);
      forall n | n in m ensures Severed(m, drop[..i + 1], n) <==> Severed(m, drop[..i], n) || (Holds(m, d) && d.nonce <= n) {
      }
      if Holds(m, d) {
        assert d.from == a;
        if !Held(p, d) {
          assert Severed(m, drop[..i], d.nonce);
        }
      }
    }
  }

  lemma FewerItems(heap: seq<Transaction>, held: seq<Transaction>)
    requires multiset(held) <= multiset(heap)
    ensures |held| <= |heap|
  {
    assert |multiset(heap) - multiset(held)| == |heap| - |held|;
  }

  lemma RoomAccounts(limit: nat, tx: Transaction, local: bool, before: Views, held: seq<Transaction>,
                     drop: seq<Transaction>, crash: bool, room: Views)
    requires MakesRoom(limit, tx, local, before, held, drop, crash, room)
    ensures forall h :: h in room.all <==> h in before.all && h.tx !in drop
    ensures room.locals == before.locals && |room.heap| <= |before.heap| && (crash ==> room.all == before.all)
    ensures crash ==> before.locals == {} && |held| < Excess(SlotSum(Hashes(before.all)), limit, tx)
                      && forall h :: h in before.all ==> h.tx in held
  {
    assert Open(0);
    FewerItems(before.heap, held);
  }

  lemma InsertionAccounts(bump: nat, tx: Transaction, local: bool, room: Views, err: TxError, replaced: bool,
                          after: Views)
    requires Inserts(bump, tx, local, room, err, replaced, after)
    ensures forall h :: h in after.all && h !in room.all ==> h == tx.Hash() && err == NoError
    ensures forall h :: h in room.all && h !in after.all ==> replaced && Rival(tx, room) == Some(h.tx)
    ensures room.locals <= after.locals && (!local ==> after.locals == room.locals)
    ensures |after.heap| <= |room.heap| + 1
  {
    assert Open(0);
    assert forall h: Hash :: h.tx.Hash() == h;
  }

  lemma RefusalAccounts(rules: Rules, local: bool, s: Addition)
    requires Adds(rules, local, s)
    requires s.tx.Hash() in s.before.all || !rules.Accepts(s.tx, local, s.before.locals)
             || BidsTooLittle(rules.Limit(), s.tx, local, s.before)
    ensures s.err != NoError && !s.replaced && !s.crash && s.drop == []
    ensures s.after == s.room == s.before.(heap := s.after.heap) && |s.after.heap| <= |s.before.heap|
  {
    ExpandAdds(rules, local, s);
    if multiset(s.held) <= multiset(s.before.heap) {
      FewerItems(s.before.heap, s.held);
    }
  }

  lemma AcceptanceMakesRoom(rules: Rules, local: bool, s: Addition)
    requires Adds(rules, local, s) && s.tx.Hash() !in s.before.all && rules.Accepts(s.tx, local, s.before.locals)
    requires !BidsTooLittle(rules.Limit(), s.tx, local, s.before)
    ensures MakesRoom(rules.Limit(), s.tx, local, s.before, s.held, s.drop, s.crash, s.room)
    ensures if s.crash then s.after == s.room
            else Inserts(rules.config.priceBump, s.tx, local, s.room, s.err, s.replaced, s.after)
  {
    ExpandAdds(rules, local, s);
  }

  lemma OnceInFront(front: seq<Transaction>, d: Transaction)
    requires NoDuplicates(multiset(front) + multiset{d})
    ensures NoDuplicates(multiset(front)) && d !in front
  {
    var whole := multiset(front) + multiset{d};
    assert d in whole && forall tx :: tx in multiset(front) ==> tx in whole;
  }

  lemma {:induction false} SlotsFreed(s: set<Hash>, drop: seq<Transaction>, s': set<Hash>)
    requires NoDuplicates(multiset(drop)) && (forall tx :: tx in drop ==> tx.Hash() in s)
    requires forall h :: h in s' <==> h in s && h.tx !in drop
    ensures SlotSum(s') + TotalSlots(drop) == SlotSum(s)
    decreases |drop|
  {
    if drop == [] {
      assert s' == s;
    } else {
      var n := |drop| - 1;
      var front, d := drop[..n], drop[n];
      assert drop == front + [d];
      assert multiset(drop) == multiset(front) + multiset{d};
      OnceInFront(front, d);
      var s'' := set h | h in s && h.tx !in front;
      SlotsFreed(s, front, s'');
      SlotSumWithout(s'', d.Hash());
      assert s' == s'' - {d.Hash()};
    }
  }

  lemma FullDrops(limit: nat, tx: Transaction, local: bool, before: Views, held: seq<Transaction>,
                  drop: seq<Transaction>, room: Views)
    requires MakesRoom(limit, tx, local, before, held, drop, false, room)
    requires limit <= |Hashes(before.all)| && before.locals == {}
    ensures forall h :: h in room.all <==> h in before.all && h.tx !in drop
    ensures forall d :: d in drop ==> d.Hash() in before.all
    ensures TotalSlots(drop) >= Excess(SlotSum(Hashes(before.all)), limit, tx) || forall h :: h in before.all ==> h.tx in drop
  {
    assert Open(0);
  }

  /** A full pool without local accounts drops enough for the newcomer to fit into the pool's slots, or everything, if
      it drops nothing twice. */
  lemma NewcomerFits(rules: Rules, local: bool, s: Addition)
    requires Adds(rules, local, s) && s.tx.Hash() !in s.before.all && rules.Accepts(s.tx, local, s.before.locals)
    requires !BidsTooLittle(rules.Limit(), s.tx, local, s.before) && !s.crash && s.before.locals == {}
    requires rules.config.globalSlots + rules.config.globalQueue <= |Hashes(s.before.all)| && NoDuplicates(multiset(s.drop))
    ensures SlotSum(Hashes(s.room.all)) + NumSlots(s.tx) <= rules.config.globalSlots + rules.config.globalQueue
            || s.room.all == map[]
  {
    AcceptanceMakesRoom(rules, local, s);
    FullDrops(rules.Limit(), s.tx, local, s.before, s.held, s.drop, s.room);
    SlotsFreed(Hashes(s.before.all), s.drop, Hashes(s.room.all));
    SlotSumAtLeastCount(Hashes(s.before.all));
  }

  /** `tx` left the pool to make room for another transaction or was replaced by one. */
  ghost predicate Evicts(s: Addition, tx: Transaction) {
    tx in s.drop || (s.replaced && Rival(s.tx, s.room) == Some(tx))
  }

  /** A step only adds its own transaction, and only takes out what it drops or replaces. */
  lemma AdditionAccounts(rules: Rules, local: bool, s: Addition)
    requires Adds(rules, local, s)
    ensures forall h :: h in s.after.all && h !in s.before.all ==> h == s.tx.Hash() && s.err == NoError && !s.crash
    ensures forall h :: h in s.before.all && h !in s.after.all ==> Evicts(s, h.tx)
    ensures s.before.locals <= s.after.locals && (!local ==> s.after.locals == s.before.locals)
    ensures s.crash ==>
              && s.before.locals == {}
              && |Hashes(s.before.all)| < Excess(SlotSum(Hashes(s.before.all)), rules.Limit(), s.tx)
    ensures |s.after.heap| <= |s.before.heap| + 1
  {
    if s.tx.Hash() in s.before.all || !rules.Accepts(s.tx, local, s.before.locals)
       || BidsTooLittle(rules.Limit(), s.tx, local, s.before) {
      RefusalAccounts(rules, local, s);
    } else {
      AcceptanceMakesRoom(rules, local, s);
      RoomAccounts(rules.Limit(), s.tx, local, s.before, s.held, s.drop, s.crash, s.room);
      if s.crash {
        CoverCount(s.before.all, s.held);
      } else {
        InsertionAccounts(rules.config.priceBump, s.tx, local, s.room, s.err, s.replaced, s.after);
      }
    }
  }

  /** A transaction that may need as many slots as the pool has entries to give causes no panic. */
  lemma RoomWithoutCrash(rules: Rules, local: bool, s: Addition)
    requires Adds(rules, local, s)
    requires Excess(SlotSum(Hashes(s.before.all)), rules.Limit(), s.tx) <= |Hashes(s.before.all)|
    ensures !s.crash
  {
    AdditionAccounts(rules, local, s);
  }

  /** The steps lead from `from` to `to`. */
  ghost predicate Chain(steps: seq<Addition>, from: Views, to: Views) {
    if steps == [] then from == to
    else steps[|steps| - 1].after == to && Chain(steps[..|steps| - 1], from, steps[|steps| - 1].before)
  }

  ghost predicate ExplainsInFull(rules: Rules, local: bool, txs: seq<Transaction>, steps: seq<Addition>,
                                 errs: seq<TxError>, crash: bool, from: Views, to: Views) {
    && |steps| == |errs| + (if crash then 1 else 0) && |steps| <= |txs| && (!crash ==> |errs| == |txs|)
    && (forall i :: 0 <= i < |steps| ==> steps[i].tx == txs[i] && Adds(rules, local, steps[i])
                                         && (steps[i].crash <==> i == |errs|))
    && (forall i :: 0 <= i < |errs| ==> errs[i] == steps[i].err)
    && Chain(steps, from, to)
  }

  /** `txs` are added one by one, each with its error, up to a panic; guarded, by `Inside`, as `Agree` is. */
  ghost predicate Explains(rules: Rules, local: bool, txs: seq<Transaction>, steps: seq<Addition>,
                           errs: seq<TxError>, crash: bool, from: Views, to: Views) {
    forall k {:trigger Inside(k)} :: Inside(k) ==> ExplainsInFull(rules, local, txs, steps, errs, crash, from, to)
  }

  lemma ExplainsNone(rules: Rules, local: bool, v: Views)
    ensures Explains(rules, local, [], [], [], false, v, v)
  {
  }

  lemma ChainNext(steps: seq<Addition>, from: Views, s: Addition)
    requires Chain(steps, from, s.before)
    ensures Chain(steps + [s], from, s.after)
  {
    assert (steps + [s])[..|steps|] == steps;
  }

  lemma ExplainsNext(rules: Rules, local: bool, txs: seq<Transaction>, steps: seq<Addition>, errs: seq<TxError>,
                     from: Views, s: Addition)
    requires Explains(rules, local, txs, steps, errs, false, from, s.before) && Adds(rules, local, s) && !s.crash
    ensures Explains(rules, local, txs + [s.tx], steps + [s], errs + [s.err], false, from, s.after)
  {
    assert Inside(0);
    ChainNext(steps, from, s);
  }

  lemma ExplainsCrash(rules: Rules, local: bool, txs: seq<Transaction>, i: nat, steps: seq<Addition>,
                      errs: seq<TxError>, from: Views, s: Addition)
    requires i < |txs| && Explains(rules, local, txs[..i], steps, errs, false, from, s.before)
    requires s.tx == txs[i] && Adds(rules, local, s) && s.crash
    ensures Explains(rules, local, txs, steps + [s], errs, true, from, s.after)
  {
    assert Inside(0);
    ChainNext(steps, from, s);
  }

  lemma ExplainsBut(rules: Rules, local: bool, txs: seq<Transaction>, steps: seq<Addition>, errs: seq<TxError>,
                    crash: bool, from: Views, to: Views) returns (errs': seq<TxError>, s: Addition)
    requires steps != [] && Explains(rules, local, txs, steps, errs, crash, from, to)
    ensures s == steps[|steps| - 1] && Adds(rules, local, s) && s.after == to && s.crash == crash
    ensures |errs| == |steps| - (if crash then 1 else 0) && |steps| <= |txs|
    ensures s.tx == txs[|steps| - 1] && errs' == errs[..|steps| - 1] && (!crash ==> errs[|steps| - 1] == s.err)
    ensures Explains(rules, local, txs[..|steps| - 1], steps[..|steps| - 1], errs', false, from, s.before)
  {
    assert Inside(0);
    s, errs' := steps[|steps| - 1], errs[..|steps| - 1];
  }

  ghost predicate Evicted(steps: seq<Addition>, tx: Transaction) {
    exists i :: 0 <= i < |steps| && Evicts(steps[i], tx)
  }

  /** What is new in the index was added without an error; what has left it was dropped or replaced by a step;
      local accounts stay local. */
  lemma {:induction false} AdditionsAccount(rules: Rules, local: bool, txs: seq<Transaction>, steps: seq<Addition>,
                                            errs: seq<TxError>, crash: bool, from: Views, to: Views)
    requires Explains(rules, local, txs, steps, errs, crash, from, to)
    ensures forall h :: h in to.all && h !in from.all ==> Accepted(txs, errs, h)
    ensures forall h :: h in from.all && h !in to.all ==> Evicted(steps, h.tx)
    ensures from.locals <= to.locals && (!local ==> to.locals == from.locals) && (crash ==> from.locals == {})
    ensures |to.heap| <= |from.heap| + |steps|
  {
    if steps == [] {
      assert Inside(0);
    } else {
      var errs', s := ExplainsBut(rules, local, txs, steps, errs, crash, from, to);
      var n := |steps| - 1;
      AdditionsAccount(rules, local, txs[..n], steps[..n], errs', false, from, s.before);
      AdditionAccounts(rules, local, s);
      forall h | h in to.all && h !in from.all ensures Accepted(txs, errs, h) {
        if h in s.before.all {
          var i :| 0 <= i < |errs'| && i < n && errs'[i] == NoError && txs[..n][i].Hash() == h;
          assert errs[i] == NoError && txs[i].Hash() == h;
        } else {
          assert errs[n] == NoError && txs[n].Hash() == h;
        }
      }
      forall h | h in from.all && h !in to.all ensures Evicted(steps, h.tx) {
        if h in s.before.all {
          assert Evicts(steps[n], h.tx);
        } else {
          var i :| 0 <= i < n && Evicts(steps[..n][i], h.tx);
          assert Evicts(steps[i], h.tx);
        }
      }
    }
  }

  ghost predicate OneSlot(tx: Transaction) {
    NumSlots(tx) == 1
  }

  lemma {:induction false} OneSlotEach(s: set<Hash>)
    requires forall h :: h in s ==> OneSlot(h.tx)
    ensures SlotSum(s) == |s|
  {
    if s != {} {
      var h :| h in s;
      SlotSumWithout(s, h);
      OneSlotEach(s - {h});
    }
  }

  /** Transactions of one slot cause no panic. */
  lemma {:induction false} OneSlotWithoutCrash(rules: Rules, local: bool, txs: seq<Transaction>, steps: seq<Addition>,
                                               errs: seq<TxError>, crash: bool, from: Views, to: Views)
    requires Explains(rules, local, txs, steps, errs, crash, from, to) && 1 <= rules.Limit()
    requires (forall h :: h in from.all ==> OneSlot(h.tx)) && forall tx :: tx in txs ==> OneSlot(tx)
    ensures !crash && forall h :: h in to.all ==> OneSlot(h.tx)
  {
    if steps == [] {
      assert Inside(0);
    } else {
      var errs', s := ExplainsBut(rules, local, txs, steps, errs, crash, from, to);
      var n := |steps| - 1;
      OneSlotWithoutCrash(rules, local, txs[..n], steps[..n], errs', false, from, s.before);
      OneSlotEach(Hashes(s.before.all));
      assert OneSlot(s.tx);
      RoomWithoutCrash(rules, local, s);
      AdditionAccounts(rules, local, s);
    }
  }

  /** A local account rules out a panic, and so do transactions of one slot. */
  lemma NoCrash(rules: Rules, local: bool, txs: seq<Transaction>, steps: seq<Addition>, errs: seq<TxError>,
                crash: bool, from: Views, to: Views)
    requires Explains(rules, local, txs, steps, errs, crash, from, to) && 1 <= rules.Limit()
    ensures from.locals <= to.locals && (from.locals != {} ==> !crash)
    ensures (forall h :: h in from.all ==> OneSlot(h.tx)) && (forall tx :: tx in txs ==> OneSlot(tx)) ==> !crash
  {
    AdditionsAccount(rules, local, txs, steps, errs, crash, from, to);
    if (forall h :: h in from.all ==> OneSlot(h.tx)) && (forall tx :: tx in txs ==> OneSlot(tx)) {
      OneSlotWithoutCrash(rules, local, txs, steps, errs, crash, from, to);
    }
  }

  /** The step puts a transaction into the price heap that is still in it. */
  ghost predicate PutsAgain(s: Addition) {
    s.err == NoError && !s.crash && s.tx in s.room.heap
  }

  ghost predicate NoneAgain(steps: seq<Addition>) {
    forall i :: 0 <= i < |steps| ==> !PutsAgain(steps[i])
  }

  lemma AgainNext(steps: seq<Addition>, s: Addition)
    ensures NoneAgain(steps + [s]) <==> NoneAgain(steps) && !PutsAgain(s)
  {
    assert (steps + [s])[|steps|] == s;
    assert forall i :: 0 <= i < |steps| ==> (steps + [s])[i] == steps[i];
  }

  /** The step puts a transaction of `a` into the queue, without replacing another. */
  ghost predicate Joins(s: Addition, a: Address) {
    s.err == NoError && !s.crash && !s.replaced && s.tx.signed && s.tx.from == a
  }

  ghost predicate IsDirty(steps: seq<Addition>, a: Address) {
    exists i :: 0 <= i < |steps| && Joins(steps[i], a)
  }

  lemma DirtyGrows(steps: seq<Addition>, s: Addition)
    ensures forall a :: IsDirty(steps + [s], a) <==> IsDirty(steps, a) || Joins(s, a)
  {
    var steps', n := steps + [s], |steps|;
    assert steps'[n] == s;
    forall a ensures IsDirty(steps', a) <==> IsDirty(steps, a) || Joins(s, a) {
      if IsDirty(steps, a) {
        var i :| 0 <= i < n && Joins(steps[i], a);
        assert Joins(steps'[i], a);
      }
    }
  }

  /** The virtual nonce falls to the lowest pending nonce that is dropped, if it is above that. */
  ghost predicate Lowers(m: NonceMap, drop: seq<Transaction>, next: nat, next': nat) {
    && next' <= next && (next' == next || exists d :: d in drop && Holds(m, d) && d.nonce == next')
    && forall d :: d in drop && Holds(m, d) ==> next' <= d.nonce
  }

  lemma LowersNext(p0: Lists, p: Lists, drop: seq<Transaction>, i: nat, a: Address, next: nat, next': nat, next'': nat)
    requires i < |drop| && Owned(p0) && At(p, a) == Spared(At(p0, a), drop[..i])
    requires Lowers(At(p0, a), drop[..i], next, next')
    requires var d := drop[i]; next'' == if a == d.from && Held(p, d) && d.nonce < next' then d.nonce else next'
    ensures Lowers(At(p0, a), drop[..i + 1], next, next'')
  {
    var m, d := At(p0, a), drop[i];
    assert drop[..i + 1] == drop[..i] + [d];
    if Holds(m, d) {
      assert d.from == a;
      if !Held(p, d) {
        assert Severed(m, drop[..i], d.nonce);
      }
    }
    assert next'' < next' ==> d in drop[..i + 1] && Holds(m, d);
    forall d' | d' in drop[..i + 1] && Holds(m, d') ensures next'' <= d'.nonce {
    }
  }

  /** The step drops `d`, which is pending. */
  ghost predicate Cuts(s: Addition, a: Address, d: Transaction) {
    d in s.drop && Holds(At(s.before.pending, a), d)
  }

  /** Over `steps` the virtual nonce of `a` falls to the lowest nonce that is dropped while pending, if it is above. */
  ghost predicate LoweredBy(steps: seq<Addition>, a: Address, next: nat, next': nat) {
    && next' <= next && (next' == next || exists i, d :: 0 <= i < |steps| && Cuts(steps[i], a, d) && d.nonce == next')
    && forall i, d :: 0 <= i < |steps| && Cuts(steps[i], a, d) ==> next' <= d.nonce
  }

  lemma LoweredNext(steps: seq<Addition>, s: Addition, a: Address, next: nat, next': nat, next'': nat)
    requires LoweredBy(steps, a, next, next') && Lowers(At(s.before.pending, a), s.drop, next', next'')
    ensures LoweredBy(steps + [s], a, next, next'')
  {
    var steps', n := steps + [s], |steps|;
    assert steps'[n] == s && forall i :: 0 <= i < n ==> steps'[i] == steps[i];
    if next'' < next' {
      var d :| d in s.drop && Holds(At(s.before.pending, a), d) && d.nonce == next'';
      assert Cuts(steps'[n], a, d);
    } else if next' < next {
      var i, d :| 0 <= i < n && Cuts(steps[i], a, d) && d.nonce == next';
      assert Cuts(steps'[i], a, d);
    }
    forall i, d | 0 <= i < |steps'| && Cuts(steps'[i], a, d) ensures next'' <= d.nonce {
      assert i < n ==> Cuts(steps[i], a, d);
    }
  }

  /** The same for every account; guarded as `Agree` is. */
  ghost predicate AllLowered(steps: seq<Addition>, next: Nexts, next': Nexts) {
    forall k {:trigger Open(k)} :: Open(k) ==> forall a :: LoweredBy(steps, a, next.Next(a), next'.Next(a))
  }

  lemma NoneLowered(next: Nexts)
    ensures AllLowered([], next, next)
  {
  }

  lemma AllLoweredNext(steps: seq<Addition>, s: Addition, next: Nexts, next': Nexts, next'': Nexts)
    requires AllLowered(steps, next, next')
    requires forall a :: Lowers(At(s.before.pending, a), s.drop, next'.Next(a), next''.Next(a))
    ensures AllLowered(steps + [s], next, next'')
  {
    forall a ensures LoweredBy(steps + [s], a, next.Next(a), next''.Next(a)) {
      assert Open(0);
      LoweredNext(steps, s, a, next.Next(a), next'.Next(a), next''.Next(a));
    }
  }

  lemma AcceptedGrows(txs: seq<Transaction>, errs: seq<TxError>, err: TxError)
    requires |errs| < |txs|
    ensures forall h :: Accepted(txs, errs + [err], h) <==>
                        Accepted(txs, errs, h) || (err == NoError && h == txs[|errs|].Hash())
  {
    var errs', n := errs + [err], |errs|;
    assert errs'[n] == err;
    forall h ensures Accepted(txs, errs', h) <==> Accepted(txs, errs, h) || (err == NoError && h == txs[n].Hash()) {
      if Accepted(txs, errs, h) {
        var i :| 0 <= i < n && errs[i] == NoError && txs[i].Hash() == h;
        assert errs'[i] == NoError;
      }
    }
  }

  /** The transactions at the positions `open`. */
  ghost function Chosen(txs: seq<Transaction>, open: seq<nat>): seq<Transaction>
    requires forall i :: i in open ==> i < |txs|
  {
    seq(|open|, k requires 0 <= k < |open| => assert open[k] in open; txs[open[k]])
  }

  /** Only senders of the transactions can be dirty. */
  lemma DirtySenders(rules: Rules, local: bool, txs: seq<Transaction>, steps: seq<Addition>, errs: seq<TxError>,
                     crash: bool, from: Views, to: Views, a: Address)
    requires Explains(rules, local, txs, steps, errs, crash, from, to) && IsDirty(steps, a)
    ensures a in Senders(txs)
  {
    assert Inside(0);
    var i :| 0 <= i < |steps| && Joins(steps[i], a);
    assert steps[i].tx in txs;
  }
}
