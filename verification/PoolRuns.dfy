/** Runs of the transaction pool of core/tx_pool.go that go wrong. */
module PoolRuns {
  import opened Basics
  import opened Transactions
  import opened NonceMaps
  import opened TxLists
  import opened TxPricing
  import opened PoolViews
  import opened TxNoncers
  import opened Fairness
  import opened PoolSteps
  import opened Additions
  import opened Reorgs
  import opened TxPools
  import IntrinsicGas

  /** A transfer of nothing. */
  function Transfer(from: Address, nonce: uint64, gasPrice: nat): Transaction {
    Transaction(from, true, nonce, gasPrice, 21_000, 0, false, [], 110)
  }

  /** A transaction with so many zero bytes that it takes four slots. */
  function Bulky(from: Address): Transaction {
    Transaction(from, true, 0, 1, 500_000, 0, false, seq(100_000, i => 0), 100_110)
  }

  /** An acceptable transaction enters the queue of a pool that is not full and has no other one with its nonce. */
  lemma PlainAddition(rules: Rules, s: Addition)
    requires Adds(rules, false, s) && s.tx.Hash() !in s.before.all && rules.Accepts(s.tx, false, s.before.locals)
    requires |Hashes(s.before.all)| < rules.Limit() && Rival(s.tx, s.before) == None
    ensures !s.crash && s.err == NoError && s.after.all == s.before.all[s.tx.Hash() := s.tx]
    ensures s.after.pending == s.before.pending && s.after.locals == s.before.locals
    ensures s.after.queue == With(s.before.queue, s.tx.from, At(s.before.queue, s.tx.from)[s.tx.nonce := s.tx])
    ensures |s.after.heap| <= |s.before.heap| + 1
  {
    AcceptanceMakesRoom(rules, false, s);
    assert Open(0);
  }

  /** A full pool without local accounts panics over a transaction that needs more slots than its heap has entries. */
  lemma PanickingAddition(rules: Rules, s: Addition)
    requires Adds(rules, false, s) && s.tx.Hash() !in s.before.all && rules.Accepts(s.tx, false, {})
    requires !BidsTooLittle(rules.Limit(), s.tx, false, s.before)
    requires rules.Limit() <= |Hashes(s.before.all)| && s.before.locals == {}
    requires |s.before.heap| < Excess(SlotSum(Hashes(s.before.all)), rules.Limit(), s.tx)
    ensures s.crash
  {
    AcceptanceMakesRoom(rules, false, s);
    assert Open(0);
    FewerItems(s.before.heap, s.held);
  }

  lemma {:induction false} NoNonZeroBytes(data: seq<byte>)
    requires forall i :: 0 <= i < |data| ==> data[i] == 0
    ensures IntrinsicGas.NonZeroBytes(data) == 0
  {
    if data == [] {
    } else {
      NoNonZeroBytes(data[..|data| - 1]);
    }
  }

  lemma OneAddition(rules: Rules, tx: Transaction, steps: seq<Addition>, errs: seq<TxError>, crash: bool,
                    from: Views, to: Views) returns (s: Addition)
    requires Explains(rules, false, [tx], steps, errs, crash, from, to)
    ensures Adds(rules, false, s) && s.tx == tx && s.before == from && s.after == to && s.crash == crash
    ensures forall h :: Accepted([tx], errs, h) <==> !crash && s.err == NoError && h == tx.Hash()
  {
    assert Inside(0);
    s := steps[0];
    assert !crash ==> errs[0] == s.err;
    assert Chain(steps[..0], from, s.before);
  }

  lemma TwoAdditions(rules: Rules, txs: seq<Transaction>, steps: seq<Addition>, errs: seq<TxError>, from: Views, to: Views)
    returns (s: Addition, s': Addition)
    requires |txs| == 2 && Explains(rules, false, txs, steps, errs, false, from, to)
    ensures Adds(rules, false, s) && s.tx == txs[0] && s.before == from
    ensures Adds(rules, false, s') && s'.tx == txs[1] && s'.before == s.after && s'.after == to
  {
    assert Inside(0);
    s, s' := steps[0], steps[1];
    assert Chain(steps[..1], from, s'.before);
    assert Chain(steps[..1][..0], from, s.before);
  }

  lemma OneOpen(known: Lookup, tx: Transaction, open: seq<nat>)
    requires OpenSlots(known, [tx], open) && tx.Hash() !in known && tx.signed
    ensures Chosen([tx], open) == [tx]
  {
    assert Screened(known, [tx][0]) == NoError;
    assert 0 in open;
    var k := |open| - 1;
    assert open[0] in open && open[k] in open;
  }

  lemma {:induction false} TotalOfNone(p: Lists, s: set<Address>)
    requires forall b :: b in s ==> At(p, b) == map[]
    ensures TotalOf(p, s) == 0
  {
    if s != {} {
      var b :| b in s;
      TotalOfWithout(p, s, b);
      TotalOfNone(p, s - {b});
    }
  }

  lemma TotalOfOne(p: Lists, s: set<Address>, a: Address)
    requires forall b :: b in s && b != a ==> At(p, b) == map[]
    ensures TotalOf(p, s) <= Size(At(p, a))
  {
    if s == {} {
    } else if a in s {
      TotalOfWithout(p, s, a);
      TotalOfNone(p, s - {a});
    } else {
      TotalOfNone(p, s);
    }
  }

  /** Adds one new transaction that is not local. */
  method AddOne(pool: TxPool, tx: Transaction) returns (crash: bool, ghost s: Addition)
    requires pool.Consistent() && tx.signed && tx.Hash() !in pool.all.all
    modifies pool`pending, pool`queue, pool`beats, pool`locals, pool`accepted, pool`clean
    modifies pool.all, pool.priced, pool.pendingNonces
    ensures pool.Consistent() && (old(pool.Contiguous()) ==> pool.Contiguous())
    ensures Adds(pool.Terms(), false, s) && s.tx == tx && s.before == old(pool.Now()) && s.after == pool.Now()
    ensures s.crash == crash
    ensures pool.accepted == if s.err == NoError && !crash then old(pool.accepted) + {tx.Hash()} else old(pool.accepted)
  {
    ghost var v := pool.Now();
    var errs, dirty;
    ghost var open, results, steps;
    errs, dirty, crash, open, results, steps := pool.AddTxs([tx], false, 0);
    OneOpen(v.all, tx, open);
    s := OneAddition(pool.Terms(), tx, steps, results, crash, v, pool.Now());
  }

  const WEALTH := Account(0, 1_000_000)

  /** A pool with room for two slots. */
  const SMALL := Rules(Config(HOUR, 1, 10, 1, 1, 1, 1, 3 * HOUR), 1, State(map[0 := WEALTH, 1 := WEALTH, 2 := WEALTH]),
                       8_000_000, true)

  lemma BulkyIsAccepted(a: Address)
    requires a < 2
    ensures SMALL.Accepts(Bulky(a), false, {}) && NumSlots(Bulky(a)) == 4
  {
    NoNonZeroBytes(Bulky(a).data);
  }

  lemma TwoBulky(all: Lookup)
    requires forall h :: h in all <==> h == Bulky(0).Hash() || h == Bulky(1).Hash()
    ensures |Hashes(all)| == 2 && SlotSum(Hashes(all)) == 8
  {
    var a, b := Bulky(0).Hash(), Bulky(1).Hash();
    assert Hashes(all) == {a, b};
    SlotSumWithout({a, b}, a);
    assert {a, b} - {a} == {b};
    SlotSumWithout({b}, b);
    BulkyIsAccepted(0);
    BulkyIsAccepted(1);
  }

  lemma BulkyEnters(s: Addition, a: Address)
    requires Adds(SMALL, false, s) && s.tx == Bulky(a) && a < 2 && s.before.locals == {} && |Hashes(s.before.all)| < 2
    requires s.tx.Hash() !in s.before.all && s.tx.nonce !in At(s.before.pending, a) && s.tx.nonce !in At(s.before.queue, a)
    ensures s.after.all == s.before.all[s.tx.Hash() := s.tx] && |s.after.heap| <= |s.before.heap| + 1 && !s.crash
    ensures s.after.locals == {} && s.after.pending == s.before.pending
    ensures forall b :: b != a ==> At(s.after.queue, b) == At(s.before.queue, b)
  {
    BulkyIsAccepted(a);
    PlainAddition(SMALL, s);
  }

  method FullPool() returns (pool: TxPool)
    ensures pool.Consistent() && pool.Terms() == SMALL && pool.locals == {} && |pool.priced.items| <= 2
    ensures forall h :: h in pool.all.all <==> h == Bulky(0).Hash() || h == Bulky(1).Hash()
    ensures fresh(pool) && fresh(pool.all) && fresh(pool.priced) && fresh(pool.pendingNonces)
  {
    pool := new TxPool(SMALL.config, {}, SMALL.state, SMALL.maxGas, SMALL.istanbul);
    ghost var s;
    var crash;
    crash, s := AddOne(pool, Bulky(0));
    BulkyEnters(s, 0);
    assert Hashes(s.after.all) == {Bulky(0).Hash()};
    crash, s := AddOne(pool, Bulky(1));
    BulkyEnters(s, 1);
  }

  /** Two transactions of four slots fill a pool with room for two slots; a third one that bids more makes the
      pool want at least seven slots from a heap of two. */
  lemma DearerPanics(s: Addition)
    requires Adds(SMALL, false, s) && s.before.locals == {} && |s.before.heap| <= 2
    requires forall h :: h in s.before.all <==> h == Bulky(0).Hash() || h == Bulky(1).Hash()
    requires SMALL.Accepts(s.tx, false, {}) && s.tx.Hash() !in s.before.all && 1 < s.tx.gasPrice
    ensures s.crash
  {
    TwoBulky(s.before.all);
    assert Bulky(0).Hash() in s.before.all;
    PanickingAddition(SMALL, s);
  }

  method PanicRun() returns (pool: TxPool, crash: bool, ghost s: Addition)
    ensures crash && s.crash && Adds(SMALL, false, s) && s.tx == Transfer(2, 0, 2)
    ensures pool.Consistent() && pool.Terms() == SMALL && pool.Now() == s.after && s.after.all == s.before.all
  {
    pool := FullPool();
    crash, s := AddOne(pool, Transfer(2, 0, 2));
    assert s.tx.Hash() != Bulky(0).Hash() && s.tx.Hash() != Bulky(1).Hash();
    DearerPanics(s);
    assert s.after.all == s.before.all by {
      AcceptanceMakesRoom(SMALL, false, s);
      RoomAccounts(SMALL.Limit(), s.tx, false, s.before, s.held, s.drop, s.crash, s.room);
    }
  }

  /** A pool with default limits at a state where one account has the given nonce. */
  function Ordinary(nonce: nat): Rules {
    Rules(Config(HOUR, 1, 10, 16, 4096, 64, 1024, 3 * HOUR), 1, State(map[0 := Account(nonce, 1_000_000)]), 8_000_000, true)
  }

  lemma TransferIsAccepted(nonce: uint64, gasPrice: nat, at: nat)
    requires at <= nonce && 1 <= gasPrice <= 10
    ensures Ordinary(at).Accepts(Transfer(0, nonce, gasPrice), false, {})
  {
  }

  /** What is ready when a single transaction is queued at the virtual nonce. */
  lemma OneReady(tx: Transaction, state: State, maxGas: nat)
    requires state.Nonce(tx.from) == tx.nonce && !Overspends(tx, state.Balance(tx.from), maxGas)
    ensures Promoted(map[], map[tx.nonce := tx], tx.nonce, state, tx.from, maxGas) == map[tx.nonce := tx]
  {
    var q: NonceMap := map[tx.nonce := tx];
    assert StillPayable(q, state, tx.from, maxGas) == q;
    assert tx.nonce in q;
  }

  lemma GappedNonces(first: Transaction, third: Transaction, state: State, maxGas: nat)
    requires first.from == third.from == 0 && first.nonce == 0 && third.nonce == 2 && state.Nonce(0) == 0
    requires !Overspends(first, state.Balance(0), maxGas) && !Overspends(third, state.Balance(0), maxGas)
    ensures AfterReset(map[2 := third], map[0 := first], 0, state, 0, maxGas) == map[0 := first, 2 := third]
  {
    var p: NonceMap, q: NonceMap := map[2 := third], map[0 := first];
    assert StillPayable(q, state, 0, maxGas) == q;
    assert 0 in q;
    assert Ready(q, 0) == q;
    var both: NonceMap := map[0 := first, 2 := third];
    assert p + q == both;
    assert AtLeast(both, 0) == both;
    assert Unpayable(both, state.Balance(0), maxGas) == map[];
    assert Kept(both, map[], true) == both;
  }

  lemma NothingLeft(state: State, a: Address, maxGas: nat, next: nat)
    ensures AfterReset(map[], map[], next, state, a, maxGas) == map[]
  {
  }

  /** With a single account, at most the transactions on its list count. */
  lemma FewPending(p: Lists, limit: nat)
    requires (forall b :: b != 0 ==> At(p, b) == map[]) && Size(At(p, 0)) <= limit
    ensures Total(p) <= limit
  {
    TotalOfOne(p, Accounts(p), 0);
  }

  /** Everything queued was accepted. */
  lemma QueuedWasAccepted(pool: TxPool, a: Address, n: nat)
    requires pool.Consistent() && n in At(pool.queue, a)
    ensures At(pool.queue, a)[n].Hash() in pool.accepted && !Held(pool.pending, At(pool.queue, a)[n])
    ensures At(pool.queue, a)[n].from == a && At(pool.queue, a)[n].nonce == n
  {
    pool.HoldsOnlyAccepted();
    pool.ViewsAgree();
    Expand(pool.all.all, pool.pending, pool.queue, map[]);
    var tx := At(pool.queue, a)[n];
    assert tx.Hash().tx == tx;
  }

  /** A reorganisation readies the one queued transaction. */
  lemma OnePromoted(t: Reorganization, level: nat, pending: Lists)
    requires var rules := Ordinary(2);
             && Readies(false, {0}, rules.state, rules.maxGas, rules.config.accountQueue, t) && t.next.Next(0) == 2
             && Truncates(rules.config, {}, t.ready, level, pending)
    requires At(t.mid.queue, 0) == map[2 := Transfer(0, 2, 1)] && forall b :: At(t.mid.pending, b) == map[]
    ensures At(pending, 0) == map[2 := Transfer(0, 2, 1)] && forall b :: b != 0 ==> At(pending, b) == map[]
  {
    var rules, third := Ordinary(2), Transfer(0, 2, 1);
    ReadyListAt(false, {0}, rules.state, rules.maxGas, rules.config.accountQueue, t, 0);
    OneReady(third, rules.state, rules.maxGas);
    forall b | b != 0 ensures At(t.ready, b) == map[] {
      ReadyListAt(false, {0}, rules.state, rules.maxGas, rules.config.accountQueue, t, b);
    }
    assert Keys(At(t.ready, 0)) == {2};
    FewPending(t.ready, rules.config.globalSlots);
  }

  /** A pool whose account 0 has nonce 2 in the state and one queued transaction with that nonce. */
  method OneQueued() returns (pool: TxPool)
    ensures pool.Consistent() && pool.Contiguous() && pool.Terms() == Ordinary(2) && pool.locals == {}
    ensures At(pool.queue, 0) == map[2 := Transfer(0, 2, 1)] && forall b :: At(pool.pending, b) == map[]
    ensures forall h :: h in pool.accepted ==> h == Transfer(0, 2, 1).Hash()
    ensures fresh(pool) && fresh(pool.all) && fresh(pool.priced) && fresh(pool.pendingNonces)
  {
    var rules := Ordinary(2);
    pool := new TxPool(rules.config, {}, rules.state, rules.maxGas, rules.istanbul);
    ghost var s;
    var crash;
    crash, s := AddOne(pool, Transfer(0, 2, 1));
    TransferIsAccepted(2, 1, 2);
    PlainAddition(rules, s);
  }

  /** The same transaction once it is pending. */
  method OnePending() returns (pool: TxPool)
    ensures pool.Consistent() && pool.Contiguous() && pool.Terms() == Ordinary(2) && pool.locals == {}
    ensures At(pool.pending, 0) == map[2 := Transfer(0, 2, 1)] && forall b :: b != 0 ==> At(pool.pending, b) == map[]
    ensures forall h :: h in pool.accepted ==> h == Transfer(0, 2, 1).Hash()
    ensures fresh(pool) && fresh(pool.all) && fresh(pool.priced) && fresh(pool.pendingNonces)
  {
    pool := OneQueued();
    EmptyInterval(At(pool.pending, 0), 2, pool.pendingNonces.Next(0));
    ghost var t, cut;
    var crash;
    crash, t, cut := pool.RunReorg(None, {0}, 0);
    OnePromoted(t, cut.level, pool.pending);
  }

  /** The views after a reset that brings back one transaction and a second one that bids too little. */
  lemma OneReturns(rules: Rules, steps: seq<Addition>, errs: seq<TxError>, from: Views, to: Views)
    requires rules == Ordinary(0) && from.locals == {}
    requires Explains(rules, false, [Transfer(0, 0, 1), Transfer(0, 1, 0)], steps, errs, false, from, to)
    requires forall h :: h in from.all ==> h == Transfer(0, 2, 1).Hash()
    requires 0 !in At(from.pending, 0) && forall b :: At(from.queue, b) == map[]
    ensures to.pending == from.pending && At(to.queue, 0) == map[0 := Transfer(0, 0, 1)]
    ensures forall b :: b != 0 ==> At(to.queue, b) == map[]
  {
    var first, second := Transfer(0, 0, 1), Transfer(0, 1, 0);
    var s, s' := TwoAdditions(rules, [first, second], steps, errs, from, to);
    assert Hashes(from.all) <= {Transfer(0, 2, 1).Hash()};
    SubsetSize(Hashes(from.all), {Transfer(0, 2, 1).Hash()});
    TransferIsAccepted(0, 1, 0);
    PlainAddition(rules, s);
    RefusalAccounts(rules, false, s');
  }

  /** The gap: the transaction with nonce 0 is promoted and the one with nonce 2 stays. */
  lemma GapAppears(config: Config, state: State, maxGas: nat, locals: set<Address>, t: Reorganization, level: nat,
                   pending: Lists)
    requires config == Ordinary(0).config && state == Ordinary(0).state && maxGas == Ordinary(0).maxGas
    requires Readies(true, {}, state, maxGas, config.accountQueue, t) && Truncates(config, locals, t.ready, level, pending)
    requires t.next.Next(0) == 0
    requires At(t.mid.pending, 0) == map[2 := Transfer(0, 2, 1)] && At(t.mid.queue, 0) == map[0 := Transfer(0, 0, 1)]
    requires forall b :: b != 0 ==> At(t.mid.pending, b) == At(t.mid.queue, b) == map[]
    ensures At(pending, 0) == map[0 := Transfer(0, 0, 1), 2 := Transfer(0, 2, 1)]
  {
    ReadyListAt(true, {}, state, maxGas, config.accountQueue, t, 0);
    GappedNonces(Transfer(0, 0, 1), Transfer(0, 2, 1), state, maxGas);
    forall b | b != 0 ensures At(t.ready, b) == map[] {
      ReadyListAt(true, {}, state, maxGas, config.accountQueue, t, b);
      NothingLeft(state, b, maxGas, t.next.Next(b));
    }
    assert Keys(At(t.ready, 0)) == {0, 2};
    FewPending(t.ready, config.globalSlots);
  }

  /** What is queued is accepted and not pending. */
  lemma NothingQueued(pool: TxPool)
    requires pool.Consistent() && At(pool.pending, 0) == map[2 := Transfer(0, 2, 1)]
    requires forall h :: h in pool.accepted ==> h == Transfer(0, 2, 1).Hash()
    ensures forall b :: At(pool.queue, b) == map[]
    ensures forall h :: h in pool.all.all ==> h == Transfer(0, 2, 1).Hash()
  {
    pool.HoldsOnlyAccepted();
    forall b, n ensures n !in At(pool.queue, b) {
      if n in At(pool.queue, b) {
        QueuedWasAccepted(pool, b, n);
      }
    }
    assert forall b :: At(pool.queue, b) == map[];
  }

  lemma NonceStays(p: Lists, state: State, t: Reorganization)
    requires KeepsRuns(p, Nexts(map[], state), t.mid.pending, t.next) && state.Nonce(0) == 0
    requires At(p, 0) == map[2 := Transfer(0, 2, 1)]
    ensures t.next.Next(0) == 0
  {
    assert Open(0);
    assert Interval(At(p, 0), 2, 3);
    assert RunsFrom(At(p, 0), 2);
  }

  lemma NoRoomNeeded(rules: Rules, steps: seq<Addition>, errs: seq<TxError>, crash: bool, from: Views, to: Views)
    requires rules == Ordinary(0) && forall h :: h in from.all ==> h == Transfer(0, 2, 1).Hash()
    requires Explains(rules, false, [Transfer(0, 0, 1), Transfer(0, 1, 0)], steps, errs, crash, from, to)
    ensures !crash
  {
    NoCrash(rules, false, [Transfer(0, 0, 1), Transfer(0, 1, 0)], steps, errs, crash, from, to);
  }

  lemma GapOpens(rules: Rules, was: Views, t: Reorganization, locals: set<Address>, level: nat, pending: Lists, next: Nexts)
    requires rules == Ordinary(0) && was.locals == {}
    requires At(was.pending, 0) == map[2 := Transfer(0, 2, 1)] && forall b :: b != 0 ==> At(was.pending, b) == map[]
    requires (forall b :: At(was.queue, b) == map[]) && forall h :: h in was.all ==> h == Transfer(0, 2, 1).Hash()
    requires Explains(rules, false, [Transfer(0, 0, 1), Transfer(0, 1, 0)], t.steps, t.errs, false, was, t.mid)
    requires KeepsRuns(was.pending, Nexts(map[], rules.state), t.mid.pending, t.next)
    requires Readies(true, {}, rules.state, rules.maxGas, rules.config.accountQueue, t)
    requires Truncates(rules.config, locals, t.ready, level, pending)
    requires Renumbers(true, {}, rules.state, rules.maxGas, t, pending, next)
    ensures (forall n :: n in At(pending, 0) <==> n == 0 || n == 2) && next.Next(0) == 3
  {
    OneReturns(rules, t.steps, t.errs, was, t.mid);
    NonceStays(was.pending, rules.state, t);
    GapAppears(rules.config, rules.state, rules.maxGas, locals, t, level, pending);
    RenumberedAt(true, {}, rules.state, rules.maxGas, t, pending, next, 0, 2);
  }

  /** A reset lowers the state nonce of an account from 2 to 0, under a pending transaction with nonce 2.  The
      blocks that left the chain bring back the transactions 0 and 1, but 1 bids too little for the pool. */
  method GapRun() returns (pool: TxPool)
    ensures pool.Consistent() && !pool.Contiguous() && pool.currentState.Nonce(0) == 0
    ensures (forall n :: n in At(pool.pending, 0) <==> n == 0 || n == 2) && pool.pendingNonces.Next(0) == 3
  {
    pool := OnePending();
    NothingQueued(pool);
    ghost var was := pool.Now();
    var back, rules := [Transfer(0, 0, 1), Transfer(0, 1, 0)], Ordinary(0);
    ghost var t, cut;
    var crash;
    assert pool.Terms().(state := rules.state, maxGas := rules.maxGas) == rules;
    crash, t, cut := pool.RunReorg(Some(ResetTo(rules.state, rules.maxGas, true, back)), {}, 0);
    NoRoomNeeded(rules, t.steps, t.errs, crash, was, if crash then pool.Now() else t.mid);
    assert pool.Terms() == rules;
    GapOpens(rules, was, t, pool.locals, cut.level, pool.pending, pool.pendingNonces.Values());
    assert 1 !in At(pool.pending, 0) && 2 in At(pool.pending, 0);
  }

  lemma ListsStay(b: Address, p: NonceMap, q: NonceMap, next: nat, cap: Option<nat>)
    requires if b == 0 then p == map[2 := Transfer(0, 2, 1)] && q == map[3 := Transfer(0, 3, 1)] && next == 2
             else p == map[] && q == map[]
    requires cap.Some? ==> 1 <= cap.value
    ensures AfterReset(p, q, next, Ordinary(2).state, b, Ordinary(2).maxGas) == p
    ensures QueuedAfterReset(p, q, next, Ordinary(2).state, b, Ordinary(2).maxGas, cap) == q
  {
    assert b == 0 ==> Keys(q) == {3};
    NothingChanges(p, q, next, Ordinary(2).state, b, Ordinary(2).maxGas, cap);
  }

  lemma OneMissed(t: Reorganization, rules: Rules, pending: Lists, queue: Lists)
    requires rules == Ordinary(2) && Readies(true, {}, rules.state, rules.maxGas, rules.config.accountQueue, t)
    requires t.next.Next(0) == 2 && (Total(t.ready) <= rules.config.globalSlots ==> pending == t.ready)
    requires Total(t.queued) <= rules.config.globalQueue ==> queue == t.queued
    requires At(t.mid.pending, 0) == map[2 := Transfer(0, 2, 1)] && At(t.mid.queue, 0) == map[3 := Transfer(0, 3, 1)]
    requires forall b :: b != 0 ==> At(t.mid.pending, b) == At(t.mid.queue, b) == map[]
    ensures At(pending, 0) == map[2 := Transfer(0, 2, 1)] && At(queue, 0) == map[3 := Transfer(0, 3, 1)]
  {
    forall b ensures At(t.ready, b) == At(t.mid.pending, b) && At(t.queued, b) == At(t.mid.queue, b) {
      ReadyListAt(true, {}, rules.state, rules.maxGas, rules.config.accountQueue, t, b);
      ReadyQueueAt(true, {}, rules.state, rules.maxGas, rules.config.accountQueue, t, b);
      ListsStay(b, At(t.mid.pending, b), At(t.mid.queue, b), t.next.Next(b),
                QueueCap(t.mid.locals, rules.config.accountQueue, b));
    }
    assert Keys(At(t.ready, 0)) == {2} && Keys(At(t.queued, 0)) == {3};
    FewPending(t.ready, rules.config.globalSlots);
    FewPending(t.queued, rules.config.globalQueue);
  }

  lemma EndsAtThree(m: NonceMap, first: nat, next: nat)
    requires m == map[2 := Transfer(0, 2, 1)] && Interval(m, first, next)
    ensures next == 3
  {
    assert 2 in m && 3 !in m;
  }

  lemma OneCounted(all: Lookup)
    requires forall h :: h in all ==> h == Transfer(0, 2, 1).Hash()
    ensures |Hashes(all)| <= 1
  {
    SubsetSize(Hashes(all), {Transfer(0, 2, 1).Hash()});
  }

  lemma NoAdditions(rules: Rules, steps: seq<Addition>, errs: seq<TxError>, from: Views, to: Views)
    requires Explains(rules, false, [], steps, errs, false, from, to)
    ensures to == from
  {
    assert Inside(0);
  }

  lemma NonceHolds(p: Lists, state: State, t: Reorganization)
    requires KeepsRuns(p, Nexts(map[], state), t.mid.pending, t.next) && state.Nonce(0) == 2
    requires At(p, 0) == map[2 := Transfer(0, 2, 1)]
    ensures t.next.Next(0) == 2
  {
    assert Open(0);
    assert Interval(At(p, 0), 2, 3);
    assert RunsFrom(At(p, 0), 2);
  }

  /** The pool of `OnePending` with a second transaction queued that follows the first. */
  method OneBehind() returns (pool: TxPool)
    ensures pool.Consistent() && pool.Contiguous() && pool.Terms() == Ordinary(2) && pool.locals == {}
    ensures At(pool.pending, 0) == map[2 := Transfer(0, 2, 1)] && At(pool.queue, 0) == map[3 := Transfer(0, 3, 1)]
    ensures forall b :: b != 0 ==> At(pool.pending, b) == At(pool.queue, b) == map[]
    ensures fresh(pool) && fresh(pool.all) && fresh(pool.priced) && fresh(pool.pendingNonces)
  {
    pool := OnePending();
    NothingQueued(pool);
    ghost var s;
    var crash;
    crash, s := AddOne(pool, Transfer(0, 3, 1));
    OneCounted(s.before.all);
    TransferIsAccepted(3, 1, 2);
    PlainAddition(Ordinary(2), s);
  }

  lemma OneStays(rules: Rules, was: Views, t: Reorganization, locals: set<Address>, cut: Truncation, pending: Lists,
                 queue: Lists)
    requires rules == Ordinary(2)
    requires At(was.pending, 0) == map[2 := Transfer(0, 2, 1)] && At(was.queue, 0) == map[3 := Transfer(0, 3, 1)]
    requires forall b :: b != 0 ==> At(was.pending, b) == At(was.queue, b) == map[]
    requires Explains(rules, false, [], t.steps, t.errs, false, was, t.mid)
    requires KeepsRuns(was.pending, Nexts(map[], rules.state), t.mid.pending, t.next)
    requires Readies(true, {}, rules.state, rules.maxGas, rules.config.accountQueue, t)
    requires Truncates(rules.config, locals, t.ready, cut.level, pending)
    requires TruncatesQueue(rules.config, locals, t.queued, cut, queue)
    ensures At(pending, 0) == map[2 := Transfer(0, 2, 1)] && At(queue, 0) == map[3 := Transfer(0, 3, 1)]
  {
    NoAdditions(rules, t.steps, t.errs, was, t.mid);
    NonceHolds(was.pending, rules.state, t);
    TruncatedQueue(rules.config, locals, t.queued, cut, queue);
    OneMissed(t, rules, pending, queue);
  }

  /** A transaction that follows the pending ones directly is promoted by a reorganisation without a reset, but not by
      one with a reset to the same state: that starts from the nonce of the state. */
  method MissedRun() returns (pool: TxPool)
    ensures pool.Consistent() && pool.Contiguous()
    ensures At(pool.pending, 0) == map[2 := Transfer(0, 2, 1)] && At(pool.queue, 0) == map[3 := Transfer(0, 3, 1)]
    ensures pool.pendingNonces.Next(0) == 3 && !pool.Drained(0)
  {
    pool := OneBehind();
    ghost var was, rules := pool.Now(), Ordinary(2);
    ghost var t, cut;
    var crash;
    crash, t, cut := pool.RunReorg(Some(ResetTo(Ordinary(2).state, Ordinary(2).maxGas, true, [])), {}, 0);
    assert pool.Terms() == rules;
    OneStays(rules, was, t, pool.locals, cut, pool.pending, pool.queue);
    EndsAtThree(At(pool.pending, 0), 2, pool.pendingNonces.Next(0));
    assert 3 in At(pool.queue, 0);
  }
}
