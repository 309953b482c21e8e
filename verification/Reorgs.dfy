/** What a reorganisation of the pool of core/tx_pool.go does to its pending lists, as values. */
module Reorgs {
  import opened Basics
  import opened Transactions
  import opened NonceMaps
  import opened TxLists
  import opened TxPricing
  import opened PoolViews
  import opened TxNoncers
  import opened Fairness
  import opened PoolSteps
  import opened Additions

  /** What promotion makes of a pending list `p`, with `q` queued and `next` the virtual nonce. */
  function Promoted(p: NonceMap, q: NonceMap, next: nat, state: State, a: Address, maxGas: nat): NonceMap {
    p + Ready(StillPayable(q, state, a, maxGas), next)
  }

  /** What promotion and clean-up make of it. */
  function AfterReset(p: NonceMap, q: NonceMap, next: nat, state: State, a: Address, maxGas: nat): NonceMap {
    Demoted(Promoted(p, q, next, state, a, maxGas), state, a, maxGas)
  }

  /** How many transactions of `a` may stay queued, if there is a limit. */
  function QueueCap(locals: set<Address>, limit: nat, a: Address): Option<nat> {
    if a in locals then None else Some(limit)
  }

  function Capped(m: NonceMap, cap: Option<nat>): NonceMap {
    if cap.None? then m else Lowest(m, cap.value)
  }

  /** What promotion leaves queued: what is payable and not ready, up to the limit. */
  function LeftQueued(q: NonceMap, next: nat, state: State, a: Address, maxGas: nat, cap: Option<nat>): NonceMap {
    var live := StillPayable(q, state, a, maxGas);
    Capped(Without(live, Ready(live, next)), cap)
  }

  /** What promotion and clean-up leave queued. */
  function QueuedAfterReset(p: NonceMap, q: NonceMap, next: nat, state: State, a: Address, maxGas: nat,
                            cap: Option<nat>): NonceMap {
    LeftQueued(q, next, state, a, maxGas, cap) + Requeued(Promoted(p, q, next, state, a, maxGas), state, a, maxGas)
  }

  lemma NothingPromoted(p: NonceMap, q: NonceMap, next: nat, state: State, a: Address, maxGas: nat)
    requires forall n :: n in q ==> next < n || n < state.Nonce(a)
    requires next <= state.Nonce(a) || forall n :: n in q ==> next < n
    ensures Promoted(p, q, next, state, a, maxGas) == p
  {
  }

  lemma DemotedNonces(p: NonceMap, run: NonceMap, state: State, a: Address, maxGas: nat, first: nat, next: nat, hi: nat,
                      stop: nat)
    requires Interval(p, first, next) && state.Nonce(a) < hi <= first <= stop <= next && Interval(run, state.Nonce(a), hi)
    requires forall n :: n in run ==> !Overspends(run[n], state.Balance(a), maxGas)
    requires forall n :: first <= n < stop ==> !Overspends(p[n], state.Balance(a), maxGas)
    requires stop < next ==> Overspends(p[stop], state.Balance(a), maxGas)
    ensures forall n :: n in Demoted(p + run, state, a, maxGas) <==> state.Nonce(a) <= n < hi || first <= n < stop
  {
    var rest := AtLeast(p + run, state.Nonce(a));
    var bad := Unpayable(rest, state.Balance(a), maxGas);
    assert forall n :: n in bad ==> stop <= n;
    assert stop < next ==> stop in rest && stop in bad;
    forall n | n in rest ensures n in Kept(rest, bad, true) <==> n < stop {
    }
  }

  /** Where the payable part of an interval ends. */
  lemma PayableUntil(p: NonceMap, state: State, a: Address, maxGas: nat, first: nat, next: nat) returns (stop: nat)
    requires Interval(p, first, next) && first < next
    ensures first <= stop <= next && forall n :: first <= n < stop ==> !Overspends(p[n], state.Balance(a), maxGas)
    ensures stop < next ==> Overspends(p[stop], state.Balance(a), maxGas)
  {
    stop := first;
    while stop < next && !Overspends(p[stop], state.Balance(a), maxGas)
      invariant first <= stop <= next && forall n :: first <= n < stop ==> !Overspends(p[n], state.Balance(a), maxGas)
    {
      stop := stop + 1;
    }
  }

  /** The nonces held run from `first` on without a gap. */
  ghost predicate RunsFrom(m: NonceMap, first: nat) {
    exists e: nat :: Interval(m, first, e)
  }

  /** The pending transactions that start at `first` survive the clean-up, and those promoted below them do
      not reach `first`. */
  ghost predicate LeavesGap(p: NonceMap, q: NonceMap, state: State, a: Address, maxGas: nat, first: nat) {
    var s, live := state.Nonce(a), StillPayable(q, state, a, maxGas);
    && s < first && first in p && !Overspends(p[first], state.Balance(a), maxGas)
    && s in live && exists n :: s <= n < first && n !in live
  }

  /** How far the nonces of `m` reach from `start` without a gap. */
  lemma Reach(m: NonceMap, start: nat, first: nat) returns (hi: nat)
    requires start in m && start < first && first !in m
    ensures start < hi <= first && hi !in m && forall n :: start <= n < hi ==> n in m
  {
    hi := start;
    while hi in m
      invariant start <= hi <= first && forall n :: start <= n < hi ==> n in m
      decreases first - hi
    {
      hi := hi + 1;
    }
  }

  /** The bounds of what is ready, if nothing is below `next`. */
  lemma RunExists(m: NonceMap, next: nat) returns (hi: nat)
    requires forall n :: n in m ==> next <= n
    ensures IsRun(m, next, next, hi)
  {
    hi := next;
    if next in m {
      assert next in Keys(m);
      var top := HighestNonce(m);
      hi := Reach(m, next, top + 1);
      RunIsReady(m, next, next, hi);
    }
  }

  /** Without a lowered state nonce, or with nothing left pending, a reset leaves no gap. */
  lemma NoGapAbove(p: NonceMap, q: NonceMap, next: nat, state: State, a: Address, maxGas: nat, first: nat)
    requires RunsFrom(p, first) && first <= state.Nonce(a) && next <= state.Nonce(a)
    requires forall n :: n in p ==> n !in q
    ensures RunsFrom(AfterReset(p, q, next, state, a, maxGas), state.Nonce(a))
  {
    var s := state.Nonce(a);
    var end: nat :| Interval(p, first, end);
    StageInterval(p, first, end, state, a, maxGas);
    var live := StillPayable(q, state, a, maxGas);
    if next == s {
      PayableIsPromotable(p, q, state, a, maxGas);
      var hi := RunExists(live, s);
      RunStages(p, live, state, a, maxGas, s, s, hi);
      StagedSettles(p + Ready(live, s), state, a, maxGas, hi);
    } else {
      assert p + Ready(live, next) == p;
      StagedSettles(p, state, a, maxGas, s);
    }
  }

  /** The nonces left of a run `p`, and of promoted ones that start at the lower state nonce. */
  lemma NoncesLeft(p: NonceMap, live: NonceMap, state: State, a: Address, maxGas: nat, first: nat)
    returns (hi: nat, stop: nat)
    requires RunsFrom(p, first) && state.Nonce(a) < first && first in p && state.Nonce(a) in live
    requires PromotableFrom(p, live, state, a, maxGas)
    ensures state.Nonce(a) < hi <= first <= stop && (hi == first <==> forall n :: state.Nonce(a) <= n < first ==> n in live)
    ensures stop == first <==> Overspends(p[first], state.Balance(a), maxGas)
    ensures forall n :: n in Demoted(p + Ready(live, state.Nonce(a)), state, a, maxGas) <==>
                        state.Nonce(a) <= n < hi || first <= n < stop
  {
    var start := state.Nonce(a);
    var next: nat :| Interval(p, first, next);
    assert first !in live;
    hi := Reach(live, start, first);
    RunIsReady(live, start, start, hi);
    stop := PayableUntil(p, state, a, maxGas, first, next);
    DemotedNonces(p, Ready(live, start), state, a, maxGas, first, next, hi, stop);
  }

  /** With a lowered state nonce, what is promoted starts at it or is nothing. */
  lemma GapBelow(p: NonceMap, q: NonceMap, state: State, a: Address, maxGas: nat, first: nat)
    requires RunsFrom(p, first) && state.Nonce(a) < first && first in p
    requires forall n :: n in p ==> n !in q
    ensures RunsFrom(AfterReset(p, q, state.Nonce(a), state, a, maxGas), state.Nonce(a)) <==>
            !LeavesGap(p, q, state, a, maxGas, first)
  {
    var start, after := state.Nonce(a), AfterReset(p, q, state.Nonce(a), state, a, maxGas);
    var live := StillPayable(q, state, a, maxGas);
    PayableIsPromotable(p, q, state, a, maxGas);
    if start !in live {
      assert Interval(after, start, start);
    } else {
      var hi, stop := NoncesLeft(p, live, state, a, maxGas, first);
      if hi == first {
        assert Interval(after, start, stop);
      } else if first == stop {
        assert Interval(after, start, hi);
      } else {
        assert first in after && hi !in after;
      }
    }
  }

  /** A reset leaves a gap exactly when the state nonce falls below pending nonces, transactions are promoted
      from it on that do not reach these, and the first of these is still payable: the clean-up only looks at
      the first nonce. */
  lemma GapAfterReset(p: NonceMap, q: NonceMap, next: nat, state: State, a: Address, maxGas: nat, first: nat)
    requires RunsFrom(p, first) && (forall n :: n in p ==> n !in q)
    requires next == state.Nonce(a) || first <= next < state.Nonce(a)
    ensures RunsFrom(AfterReset(p, q, next, state, a, maxGas), state.Nonce(a)) <==>
            !LeavesGap(p, q, state, a, maxGas, first)
  {
    if first <= state.Nonce(a) {
      NoGapAbove(p, q, next, state, a, maxGas, first);
    } else if first !in p {
      var end: nat :| Interval(p, first, end);
      assert p == map[];
      assert Interval(p, state.Nonce(a), state.Nonce(a));
      NoGapAbove(p, q, next, state, a, maxGas, state.Nonce(a));
    } else {
      GapBelow(p, q, state, a, maxGas, first);
    }
  }

  /** What precedes the first dropped nonce of a run is a run. */
  lemma SparedRuns(m: NonceMap, drop: seq<Transaction>, first: nat, e: nat)
    requires Interval(m, first, e)
    ensures RunsFrom(Spared(m, drop), first)
  {
    var k := first;
    while k < e && !Severed(m, drop, k)
      invariant first <= k <= e && forall n :: first <= n < k ==> !Severed(m, drop, n)
    {
      k := k + 1;
    }
    forall n | k <= n < e ensures Severed(m, drop, n) {
      var d :| d in drop && Holds(m, d) && d.nonce <= k;
      assert d in drop && Holds(m, d) && d.nonce <= n;
    }
    assert Interval(Spared(m, drop), first, k);
  }

  /** A step cuts a pending list where a dropped transaction was, or puts another one in the place of a rival. */
  lemma PendingAfter(rules: Rules, local: bool, s: Addition, a: Address)
    requires Adds(rules, local, s)
    ensures At(s.room.pending, a) == Spared(At(s.before.pending, a), s.drop)
    ensures var m, m' := At(s.room.pending, a), At(s.after.pending, a);
            m' == m || (s.tx.nonce in m && m' == m[s.tx.nonce := s.tx] && s.tx.from == a
                        && rules.Accepts(s.tx, local, s.before.locals))
  {
    ExpandAdds(rules, local, s);
    assert Open(0);
    SparedNone(At(s.before.pending, a));
  }

  /** The account can pay for each transaction of the list. */
  ghost predicate AllPayable(m: NonceMap, state: State, a: Address, maxGas: nat) {
    forall n :: n in m ==> !Overspends(m[n], state.Balance(a), maxGas)
  }

  /** Everything pending can be paid for. */
  ghost predicate Solvent(p: Lists, state: State, maxGas: nat) {
    forall a {:trigger Holder(a)} :: Holder(a) ==> AllPayable(At(p, a), state, a, maxGas)
  }

  lemma SolventMeans(p: Lists, state: State, maxGas: nat, a: Address, n: nat)
    requires Solvent(p, state, maxGas) && n in At(p, a)
    ensures At(p, a)[n].gas <= maxGas
    ensures At(p, a)[n].gasPrice * At(p, a)[n].gas + At(p, a)[n].value <= state.Balance(a)
  {
    assert Holder(a);
  }

  lemma SparedIsPayable(m: NonceMap, drop: seq<Transaction>, state: State, a: Address, maxGas: nat)
    requires AllPayable(m, state, a, maxGas)
    ensures AllPayable(Spared(m, drop), state, a, maxGas)
  {
  }

  /** A step puts only an acceptable transaction in the place of a pending one. */
  lemma AdditionStaysSolvent(rules: Rules, local: bool, s: Addition)
    requires Adds(rules, local, s) && Solvent(s.before.pending, rules.state, rules.maxGas)
    ensures Solvent(s.after.pending, rules.state, rules.maxGas)
  {
    forall a | Holder(a) ensures AllPayable(At(s.after.pending, a), rules.state, a, rules.maxGas) {
      PendingAfter(rules, local, s, a);
      SparedIsPayable(At(s.before.pending, a), s.drop, rules.state, a, rules.maxGas);
    }
  }

  lemma {:induction false} AdditionsStaySolvent(rules: Rules, local: bool, txs: seq<Transaction>, steps: seq<Addition>,
                                                errs: seq<TxError>, crash: bool, from: Views, to: Views)
    requires Explains(rules, local, txs, steps, errs, crash, from, to) && Solvent(from.pending, rules.state, rules.maxGas)
    ensures Solvent(to.pending, rules.state, rules.maxGas)
    decreases |steps|
  {
    if steps == [] {
      assert Inside(0);
    } else {
      var errs', s := ExplainsBut(rules, local, txs, steps, errs, crash, from, to);
      var n := |steps| - 1;
      AdditionsStaySolvent(rules, local, txs[..n], steps[..n], errs', false, from, s.before);
      AdditionStaysSolvent(rules, local, s);
    }
  }

  lemma ClearingStaysSolvent(v: Views, drop: seq<Transaction>, v': Views, state: State, maxGas: nat)
    requires Cleared(v, drop, v') && Solvent(v.pending, state, maxGas)
    ensures Solvent(v'.pending, state, maxGas)
  {
    forall a | Holder(a) ensures AllPayable(At(v'.pending, a), state, a, maxGas) {
      SparedIsPayable(At(v.pending, a), drop, state, a, maxGas);
    }
  }

  lemma DemotedIsPayable(m: NonceMap, state: State, a: Address, maxGas: nat)
    ensures AllPayable(Demoted(m, state, a, maxGas), state, a, maxGas)
  {
  }

  lemma PromotedIsPayable(p: NonceMap, q: NonceMap, next: nat, state: State, a: Address, maxGas: nat)
    requires AllPayable(p, state, a, maxGas)
    ensures AllPayable(Promoted(p, q, next, state, a, maxGas), state, a, maxGas)
  {
  }

  /** The list is still a run from `first`, and the virtual nonce has not fallen below that. */
  ghost predicate RunsStill(m: NonceMap, first: nat, next: nat, next': nat) {
    RunsFrom(m, first) && (next' == next || first <= next' < next)
  }

  /** A step of an addition keeps a pending list a run, and the virtual nonce does not fall below its start. */
  lemma AdditionKeepsRun(rules: Rules, local: bool, s: Addition, a: Address, first: nat, next: nat, next': nat)
    requires Adds(rules, local, s) && RunsFrom(At(s.before.pending, a), first)
    requires Lowers(At(s.before.pending, a), s.drop, next, next')
    ensures RunsStill(At(s.after.pending, a), first, next, next')
  {
    var e: nat :| Interval(At(s.before.pending, a), first, e);
    PendingAfter(rules, local, s, a);
    SparedRuns(At(s.before.pending, a), s.drop, first, e);
    if s.tx.nonce in At(s.room.pending, a) {
      SameNonces(At(s.room.pending, a), s.tx);
    }
  }

  ghost predicate KeepsRunsInFull(p0: Lists, next0: Nexts, p: Lists, next: Nexts) {
    forall a, first :: RunsFrom(At(p0, a), first) ==> RunsStill(At(p, a), first, next0.Next(a), next.Next(a))
  }

  /** Additions keep every run of pending nonces; guarded as `Agree` is. */
  ghost predicate KeepsRuns(p0: Lists, next0: Nexts, p: Lists, next: Nexts) {
    forall k {:trigger Open(k)} :: Open(k) ==> KeepsRunsInFull(p0, next0, p, next)
  }

  lemma RunsStillAt(p0: Lists, next0: Nexts, p: Lists, next: Nexts, a: Address, first: nat)
    requires KeepsRuns(p0, next0, p, next) && RunsFrom(At(p0, a), first)
    ensures RunsStill(At(p, a), first, next0.Next(a), next.Next(a))
  {
    assert Open(0);
  }

  lemma KeepsRunsNext(p0: Lists, next0: Nexts, rules: Rules, local: bool, s: Addition, next: Nexts,
                      next': Nexts)
    requires KeepsRuns(p0, next0, s.before.pending, next) && Adds(rules, local, s)
    requires forall a :: Lowers(At(s.before.pending, a), s.drop, next.Next(a), next'.Next(a))
    ensures KeepsRuns(p0, next0, s.after.pending, next')
  {
    assert Open(0);
    forall a, first | RunsFrom(At(p0, a), first)
      ensures RunsStill(At(s.after.pending, a), first, next0.Next(a), next'.Next(a))
    {
      AdditionKeepsRun(rules, local, s, a, first, next.Next(a), next'.Next(a));
    }
  }

  /** Nothing queued is executable: all nonces are above the virtual nonce. */
  ghost predicate Exhausted(q: NonceMap, next: nat) {
    forall n :: n in q ==> next < n
  }

  /** Where nothing executable was queued, nothing is now, but for the accounts `but`. */
  ghost predicate KeepsExhausted(but: set<Address>, q0: Lists, next0: Nexts, q: Lists, next: Nexts) {
    forall a {:trigger Holder(a)} :: Holder(a) ==>
      a !in but && Exhausted(At(q0, a), next0.Next(a)) ==> Exhausted(At(q, a), next.Next(a))
  }

  lemma KeepsExhaustedTrans(but: set<Address>, q0: Lists, next0: Nexts, q: Lists, next: Nexts, but': set<Address>,
                            q': Lists, next': Nexts)
    requires KeepsExhausted(but, q0, next0, q, next) && KeepsExhausted(but', q, next, q', next')
    ensures KeepsExhausted(but + but', q0, next0, q', next')
  {
  }

  /** Queues that only lose transactions. */
  lemma FewerQueued(q0: Lists, next0: Nexts, q: Lists, next: Nexts)
    requires forall a, n :: n in At(q, a) ==> n in At(q0, a)
    requires forall a :: next.Next(a) <= next0.Next(a)
    ensures KeepsExhausted({}, q0, next0, q, next)
  {
  }

  /** What is queued after transactions were dropped was queued before, or follows one of them. */
  lemma QueuedAfterDrop(v: Views, drop: seq<Transaction>, v': Views, a: Address, n: nat)
    requires AgreeInFull(v.all, v.pending, v.queue, map[]) && AgreeInFull(v'.all, v'.pending, v'.queue, map[])
    requires forall h :: h in v'.all ==> h in v.all && h.tx !in drop
    requires At(v'.pending, a) == Spared(At(v.pending, a), drop) && n in At(v'.queue, a)
    ensures n in At(v.queue, a) || exists d :: d in drop && Holds(At(v.pending, a), d) && d.nonce < n
  {
    var tx := At(v'.queue, a)[n];
    assert tx.nonce == n && tx.from == a && Held(v'.queue, tx) && tx.Hash().tx == tx;
    assert tx.Hash() in v'.all;
    assert Held(v.pending, tx) || Held(v.queue, tx);
    if Held(v.pending, tx) {
      assert n !in At(v'.pending, a);
      assert Severed(At(v.pending, a), drop, n);
      var d :| d in drop && Holds(At(v.pending, a), d) && d.nonce <= n;
      assert d.nonce != n;
    }
  }

  /** What falls back into the queue behind a dropped transaction is above it. */
  lemma ClearingKeepsExhausted(v: Views, drop: seq<Transaction>, v': Views, a: Address, next: nat, next': nat)
    requires Agree(v.all, v.pending, v.queue, map[]) && Cleared(v, drop, v')
    requires Lowers(At(v.pending, a), drop, next, next') && Exhausted(At(v.queue, a), next)
    ensures Exhausted(At(v'.queue, a), next')
  {
    forall n | n in At(v'.queue, a) ensures next' < n {
      assert AgreeInFull(v.all, v.pending, v.queue, map[]) && AgreeInFull(v'.all, v'.pending, v'.queue, map[]) by {
        assert Open(0);
      }
      QueuedAfterDrop(v, drop, v', a, n);
    }
  }

  lemma RoomKeepsExhausted(limit: nat, local: bool, s: Addition, a: Address, next: nat, next': nat)
    requires MakesRoom(limit, s.tx, local, s.before, s.held, s.drop, s.crash, s.room)
    requires Agree(s.before.all, s.before.pending, s.before.queue, map[])
    requires Lowers(At(s.before.pending, a), s.drop, next, next') && Exhausted(At(s.before.queue, a), next)
    ensures Exhausted(At(s.room.queue, a), next')
  {
    assert MakesRoomInFull(limit, s.tx, local, s.before, s.held, s.drop, s.crash, s.room) by {
      assert Open(0);
    }
    if limit <= |Hashes(s.before.all)| && !s.crash {
      assert Cleared(s.before.(heap := s.held), s.drop, s.room) by {
        assert Open(0);
      }
      ClearingKeepsExhausted(s.before.(heap := s.held), s.drop, s.room, a, next, next');
    } else {
      assert s.room.queue == s.before.queue by {
        assert Open(0);
      }
    }
  }

  /** A transaction that does not join a queue leaves the nonces of the queue as they are. */
  lemma InsertionQueues(rules: Rules, local: bool, s: Addition, a: Address)
    requires Inserts(rules.config.priceBump, s.tx, local, s.room, s.err, s.replaced, s.after) && !s.crash && !Joins(s, a)
    requires rules.Accepts(s.tx, local, s.before.locals)
    ensures forall n :: n in At(s.after.queue, a) ==> n in At(s.room.queue, a)
  {
    assert Open(0);
  }

  /** A step only makes something executable in a queue it adds to. */
  lemma AdditionKeepsExhausted(rules: Rules, local: bool, s: Addition, a: Address, next: nat, next': nat)
    requires Adds(rules, local, s) && Agree(s.before.all, s.before.pending, s.before.queue, map[])
    requires Lowers(At(s.before.pending, a), s.drop, next, next') && Exhausted(At(s.before.queue, a), next) && !Joins(s, a)
    ensures Exhausted(At(s.after.queue, a), next')
  {
    if s.tx.Hash() in s.before.all || !rules.Accepts(s.tx, local, s.before.locals)
       || BidsTooLittle(rules.Limit(), s.tx, local, s.before) {
      RefusalAccounts(rules, local, s);
    } else {
      AcceptanceMakesRoom(rules, local, s);
      RoomKeepsExhausted(rules.Limit(), local, s, a, next, next');
      if !s.crash {
        InsertionQueues(rules, local, s, a);
      }
    }
  }

  lemma AdditionKeepsAllExhausted(but: set<Address>, q0: Lists, next0: Nexts, rules: Rules, local: bool, s: Addition,
                                  next: Nexts, next': Nexts)
    requires KeepsExhausted(but, q0, next0, s.before.queue, next) && Adds(rules, local, s)
    requires Agree(s.before.all, s.before.pending, s.before.queue, map[])
    requires forall a :: Lowers(At(s.before.pending, a), s.drop, next.Next(a), next'.Next(a))
    ensures KeepsExhausted(if Joins(s, s.tx.from) then but + {s.tx.from} else but, q0, next0, s.after.queue, next')
  {
    forall a | Holder(a) && a !in but && !Joins(s, a) && Exhausted(At(q0, a), next0.Next(a))
      ensures Exhausted(At(s.after.queue, a), next'.Next(a))
    {
      AdditionKeepsExhausted(rules, local, s, a, next.Next(a), next'.Next(a));
    }
  }

  /** The virtual nonce `next` follows the highest nonce of a list, or is `next0` if the list is empty. */
  ghost predicate Follows(m: NonceMap, next0: nat, next: nat) {
    if m == map[] then next == next0 else 0 < next && IsHighest(m, next - 1)
  }

  ghost predicate IsPromotedInFull(p0: NonceMap, q0: NonceMap, next0: nat, state: State, a: Address, maxGas: nat,
                                   cap: Option<nat>, p: NonceMap, q: NonceMap, next: nat) {
    && p == Promoted(p0, q0, next0, state, a, maxGas) && q == LeftQueued(q0, next0, state, a, maxGas, cap)
    && (forall n :: n in q ==> next < n) && (state.Nonce(a) <= next0 ==> state.Nonce(a) <= next)
    && Follows(Ready(StillPayable(q0, state, a, maxGas), next0), next0, next)
  }

  /** What was ready is promoted, what is payable stays queued up to the limit, and nothing is ready any more;
      guarded, by `Inside`, as `Agree` is. */
  ghost predicate IsPromoted(p0: NonceMap, q0: NonceMap, next0: nat, state: State, a: Address, maxGas: nat,
                             cap: Option<nat>, p: NonceMap, q: NonceMap, next: nat) {
    forall k {:trigger Inside(k)} :: Inside(k) ==> IsPromotedInFull(p0, q0, next0, state, a, maxGas, cap, p, q, next)
  }

  lemma RunIsPromoted(p0: NonceMap, q0: NonceMap, next0: nat, state: State, a: Address, maxGas: nat, cap: Option<nat>,
                      lo: nat, hi: nat, p: NonceMap, q: NonceMap, next: nat)
    requires IsRun(StillPayable(q0, state, a, maxGas), next0, lo, hi) && p == Promoted(p0, q0, next0, state, a, maxGas)
    requires next == (if lo < hi then hi else next0) && q == LeftQueued(q0, next0, state, a, maxGas, cap)
    ensures IsPromoted(p0, q0, next0, state, a, maxGas, cap, p, q, next)
  {
    var live := StillPayable(q0, state, a, maxGas);
    assert lo < hi ==> lo in live && lo in Ready(live, next0);
    RunDrains(live, next0, lo, hi, q);
  }

  /** Once nothing queued is stale, unpayable or ready and the limit is met, promotion leaves the queue as it is. */
  lemma NothingLeaves(q: NonceMap, next: nat, state: State, a: Address, maxGas: nat, cap: Option<nat>)
    requires forall n :: n in q ==> state.Nonce(a) <= n && !Overspends(q[n], state.Balance(a), maxGas) && next < n
    requires cap.Some? ==> Size(q) <= cap.value
    ensures LeftQueued(q, next, state, a, maxGas, cap) == q && Ready(StillPayable(q, state, a, maxGas), next) == map[]
  {
    assert StillPayable(q, state, a, maxGas) == q;
    assert Ready(q, next) == map[] && Without(q, map[]) == q;
    if cap.Some? {
      LowestIsAll(q, cap.value);
    }
  }

  lemma CappedFits(m: NonceMap, cap: Option<nat>)
    ensures (cap.Some? ==> Size(Capped(m, cap)) <= cap.value) && forall n :: n in Capped(m, cap) ==> n in m
  {
    if cap.Some? {
      LowestSize(m, cap.value);
    }
  }

  /** A local account may keep all of its queue; any other keeps the lowest nonces, up to the limit. */
  lemma QueueLimits(q: NonceMap, next: nat, state: State, a: Address, maxGas: nat, locals: set<Address>, limit: nat)
    ensures var live := StillPayable(q, state, a, maxGas);
            var rest, left := Without(live, Ready(live, next)), LeftQueued(q, next, state, a, maxGas, QueueCap(locals, limit, a));
            if a in locals || Size(rest) <= limit then left == rest
            else && Size(left) == limit && (forall n :: n in left ==> n in rest && left[n] == rest[n])
                 && forall n, m :: n in left && m in rest && m !in left ==> n < m
  {
    var live := StillPayable(q, state, a, maxGas);
    var rest := Without(live, Ready(live, next));
    if Size(rest) <= limit {
      LowestIsAll(rest, limit);
    } else {
      LowestSize(rest, limit);
      forall n, m | n in Lowest(rest, limit) && m in rest && m !in Lowest(rest, limit) ensures n < m {
        if m < n {
          RankGrows(rest, m, n);
        }
      }
    }
  }

  /** What is left after a promotion is neither stale, unpayable, ready nor above the limit. */
  lemma PromotedStays(p0: NonceMap, q0: NonceMap, next0: nat, state: State, a: Address, maxGas: nat, cap: Option<nat>,
                      p: NonceMap, q: NonceMap, next: nat)
    requires IsPromoted(p0, q0, next0, state, a, maxGas, cap, p, q, next)
    ensures LeftQueued(q, next, state, a, maxGas, cap) == q && Ready(StillPayable(q, state, a, maxGas), next) == map[]
    ensures Promoted(p, q, next, state, a, maxGas) == p
  {
    assert Inside(0);
    var live := StillPayable(q0, state, a, maxGas);
    CappedFits(Without(live, Ready(live, next0)), cap);
    NothingLeaves(q, next, state, a, maxGas, cap);
    NothingPromoted(p, q, next, state, a, maxGas);
  }

  /** A second promotion changes nothing. */
  lemma PromotedTwice(p0: NonceMap, q0: NonceMap, next0: nat, state: State, a: Address, maxGas: nat, cap: Option<nat>,
                      p: NonceMap, q: NonceMap, next: nat, p': NonceMap, q': NonceMap, next': nat)
    requires IsPromoted(p0, q0, next0, state, a, maxGas, cap, p, q, next)
    requires IsPromoted(p, q, next, state, a, maxGas, cap, p', q', next')
    ensures IsPromoted(p0, q0, next0, state, a, maxGas, cap, p', q', next') && p' == p && q' == q && next' == next
  {
    PromotedStays(p0, q0, next0, state, a, maxGas, cap, p, q, next);
    assert Inside(0);
  }

  /** The lists of an account and its virtual nonce are promoted, or as they were. */
  ghost predicate Progress(done: bool, p0: NonceMap, q0: NonceMap, next0: nat, state: State, a: Address, maxGas: nat,
                           cap: Option<nat>, p: NonceMap, q: NonceMap, next: nat) {
    if done then IsPromoted(p0, q0, next0, state, a, maxGas, cap, p, q, next) else p == p0 && q == q0 && next == next0
  }

  /** The accounts of `done` are promoted, with `limit` queued transactions for those that are not local; the others
      are as they were. */
  ghost predicate Promotes(state: State, maxGas: nat, locals: set<Address>, limit: nat, done: set<Address>, p0: Lists,
                           q0: Lists, next0: Nexts, p: Lists, q: Lists, next: Nexts) {
    forall a {:trigger Holder(a)} :: Holder(a) ==>
      Progress(a in done, At(p0, a), At(q0, a), next0.Next(a), state, a, maxGas, QueueCap(locals, limit, a), At(p, a),
               At(q, a), next.Next(a))
  }

  lemma PromotesNone(state: State, maxGas: nat, locals: set<Address>, limit: nat, p0: Lists, q0: Lists, next0: Nexts)
    ensures Promotes(state, maxGas, locals, limit, {}, p0, q0, next0, p0, q0, next0)
  {
  }

  lemma ProgressHere(done: bool, p0: NonceMap, q0: NonceMap, next0: nat, state: State, a: Address, maxGas: nat,
                     cap: Option<nat>, p: NonceMap, q: NonceMap, next: nat, p': NonceMap, q': NonceMap, next': nat)
    requires Progress(done, p0, q0, next0, state, a, maxGas, cap, p, q, next)
    requires IsPromoted(p, q, next, state, a, maxGas, cap, p', q', next')
    ensures Progress(true, p0, q0, next0, state, a, maxGas, cap, p', q', next')
  {
    if done {
      PromotedTwice(p0, q0, next0, state, a, maxGas, cap, p, q, next, p', q', next');
    }
  }

  /** An account with nothing queued need not be promoted. */
  lemma NothingToPromote(p: NonceMap, next: nat, state: State, a: Address, maxGas: nat, cap: Option<nat>)
    ensures IsPromoted(p, map[], next, state, a, maxGas, cap, p, map[], next)
  {
    var none: NonceMap := map[];
    NothingPromoted(p, none, next, state, a, maxGas);
    NothingLeaves(none, next, state, a, maxGas, cap);
  }

  /** Promotion of one more account, if it has queued transactions. */
  lemma PromotesNext(state: State, maxGas: nat, locals: set<Address>, limit: nat, done: set<Address>, p0: Lists, q0: Lists,
                     next0: Nexts, p: Lists, q: Lists, next: Nexts, a: Address, p': Lists, q': Lists, next': Nexts)
    requires Promotes(state, maxGas, locals, limit, done, p0, q0, next0, p, q, next)
    requires forall b :: b != a ==> At(p', b) == At(p, b) && At(q', b) == At(q, b) && next'.Next(b) == next.Next(b)
    requires IsPromoted(At(p, a), At(q, a), next.Next(a), state, a, maxGas, QueueCap(locals, limit, a), At(p', a),
                        At(q', a), next'.Next(a))
    ensures Promotes(state, maxGas, locals, limit, done + {a}, p0, q0, next0, p', q', next')
  {
    forall b | Holder(b)
      ensures Progress(b in done + {a}, At(p0, b), At(q0, b), next0.Next(b), state, b, maxGas, QueueCap(locals, limit, b),
                       At(p', b), At(q', b), next'.Next(b))
    {
      if b == a {
        ProgressHere(a in done, At(p0, a), At(q0, a), next0.Next(a), state, a, maxGas, QueueCap(locals, limit, a), At(p, a),
                     At(q, a), next.Next(a), At(p', a), At(q', a), next'.Next(a));
      }
    }
  }

  lemma ClearingKeepsAllExhausted(v: Views, drop: seq<Transaction>, v': Views, next: Nexts, next': Nexts)
    requires Agree(v.all, v.pending, v.queue, map[]) && Cleared(v, drop, v')
    requires forall a :: Lowers(At(v.pending, a), drop, next.Next(a), next'.Next(a))
    ensures KeepsExhausted({}, v.queue, next, v'.queue, next')
  {
    forall a | Holder(a) && Exhausted(At(v.queue, a), next.Next(a)) ensures Exhausted(At(v'.queue, a), next'.Next(a)) {
      ClearingKeepsExhausted(v, drop, v', a, next.Next(a), next'.Next(a));
    }
  }

  lemma PromotionExhausts(state: State, maxGas: nat, locals: set<Address>, limit: nat, done: set<Address>, p0: Lists,
                          q0: Lists, next0: Nexts, p: Lists, q: Lists, next: Nexts)
    requires Promotes(state, maxGas, locals, limit, done, p0, q0, next0, p, q, next)
    ensures KeepsExhausted({}, q0, next0, q, next)
    ensures forall a :: a in done ==> Exhausted(At(q, a), next.Next(a))
  {
    forall a ensures if a in done then Exhausted(At(q, a), next.Next(a))
                     else At(q, a) == At(q0, a) && next.Next(a) == next0.Next(a)
    {
      assert Holder(a) && Inside(0);
    }
  }

  /** Nothing queued directly follows the state nonce or a pending nonce. */
  ghost predicate Separated(p: NonceMap, q: NonceMap, nonce: nat) {
    && (forall n :: n in q ==> nonce < n)
    && (forall x, n :: x in p && n in q ==> x + 1 < n)
  }

  lemma SeparatedIsExhausted(p: NonceMap, q: NonceMap, nonce: nat, p': NonceMap, q': NonceMap, next: nat)
    requires Separated(p, q, nonce) && Interval(p', nonce, next)
    requires (forall n :: n in p' ==> n in p) && (forall n :: n in q' ==> n in q)
    ensures Exhausted(q', next)
  {
    assert nonce < next ==> next - 1 in p';
  }

  /** All nonces from that of the state up to `n` are pending and payable. */
  ghost predicate PayableTo(p: NonceMap, state: State, a: Address, maxGas: nat, n: nat) {
    forall m :: state.Nonce(a) <= m < n ==> m in p && !Overspends(p[m], state.Balance(a), maxGas)
  }

  /** A transaction is queued that could be pending: all nonces below it, from that of the state on, are. */
  ghost predicate Reached(p: NonceMap, q: NonceMap, nonce: nat) {
    exists n :: n in q && nonce <= n && forall m :: nonce <= m < n ==> m in p
  }

  /** All nonces from that of the state up to `n` are promoted with `run`, or pending and payable. */
  ghost predicate Supports(p: NonceMap, run: NonceMap, state: State, a: Address, maxGas: nat, n: nat) {
    forall m :: state.Nonce(a) <= m < n ==> m in run || (m in p && !Overspends(p[m], state.Balance(a), maxGas))
  }

  /** A payable transaction is queued that is not ready by the virtual nonce, and follows, from the state nonce on, what
      is ready or is pending and payable. */
  ghost predicate Misses(p: NonceMap, q: NonceMap, next: nat, state: State, a: Address, maxGas: nat) {
    var live := StillPayable(q, state, a, maxGas);
    var run := Ready(live, next);
    exists n :: n in live && n !in run && Supports(p, run, state, a, maxGas, n)
  }

  lemma NothingReady(live: NonceMap, next: nat)
    requires forall n :: n in live ==> next < n
    ensures Ready(live, next) == map[] && Without(live, Ready(live, next)) == live
  {
  }

  /** The lowest nonce stays within any limit. */
  lemma CapKeepsLowest(m: NonceMap, cap: Option<nat>, n: nat)
    requires (cap.Some? ==> 1 <= cap.value) && forall k :: k in m ==> n <= k
    ensures n in Capped(m, cap) <==> n in m
  {
    assert (set k | k in m && k < n) == {};
  }

  /** Clean-up keeps the payable part of an interval, and queues what follows the first unpayable one. */
  lemma CleanedInterval(p: NonceMap, state: State, a: Address, maxGas: nat, first: nat, e: nat, k: nat)
    requires Interval(p, first, e) && first <= state.Nonce(a) <= k <= e && PayableTo(p, state, a, maxGas, k)
    requires k < e ==> Overspends(p[k], state.Balance(a), maxGas)
    ensures forall n :: n in Demoted(p, state, a, maxGas) <==> state.Nonce(a) <= n < k
    ensures forall n :: n in Requeued(p, state, a, maxGas) ==> k < n < e
  {
    var rest := AtLeast(p, state.Nonce(a));
    var bad := Unpayable(rest, state.Balance(a), maxGas);
    assert forall n :: n in bad ==> k <= n < e;
    assert k < e ==> k in rest && k in bad;
    forall n | n in rest ensures n in Kept(rest, bad, true) <==> n < k {
    }
  }

  /** Where the payable part ends. */
  lemma PayableEnd(p: NonceMap, state: State, a: Address, maxGas: nat, first: nat, e: nat) returns (k: nat)
    requires Interval(p, first, e) && first <= state.Nonce(a) < e
    ensures state.Nonce(a) <= k <= e && PayableTo(p, state, a, maxGas, k)
    ensures k < e ==> Overspends(p[k], state.Balance(a), maxGas)
  {
    k := state.Nonce(a);
    while k < e && !Overspends(p[k], state.Balance(a), maxGas)
      invariant state.Nonce(a) <= k <= e && PayableTo(p, state, a, maxGas, k)
    {
      k := k + 1;
    }
  }

  lemma SeparatedAt(p: NonceMap, q: NonceMap, s: nat, k: nat)
    requires s <= k && (forall n :: n in p <==> s <= n < k) && forall n :: n in q ==> k <= n
    ensures (Separated(p, q, s) <==> k !in q) && (Reached(p, q, s) <==> k in q)
  {
    assert s < k ==> k - 1 in p;
    assert k !in p;
  }

  lemma MissesAt(p: NonceMap, q: NonceMap, next: nat, state: State, a: Address, maxGas: nat, first: nat, e: nat, k: nat)
    requires Interval(p, first, e) && first <= state.Nonce(a) <= k <= e && state.Nonce(a) < e
    requires PayableTo(p, state, a, maxGas, k) && (k < e ==> Overspends(p[k], state.Balance(a), maxGas))
    requires (forall n :: n in StillPayable(q, state, a, maxGas) ==> e <= n) && next < e
    ensures Misses(p, q, next, state, a, maxGas) <==> k == e && e in StillPayable(q, state, a, maxGas)
  {
    var live, none: NonceMap := StillPayable(q, state, a, maxGas), map[];
    NothingReady(live, next);
    if Misses(p, q, next, state, a, maxGas) {
      var n :| n in live && Supports(p, none, state, a, maxGas, n);
      assert e < n ==> e in p;
      assert k < e ==> k in p;
    } else if k == e {
      assert Supports(p, none, state, a, maxGas, e);
    }
  }

  lemma MissedBelow(p: NonceMap, q: NonceMap, next: nat, state: State, a: Address, maxGas: nat, cap: Option<nat>, first: nat,
                    e: nat)
    requires Interval(p, first, e) && first <= state.Nonce(a) < e && next <= state.Nonce(a)
    requires (forall n :: n in p ==> n !in q) && (cap.Some? ==> 1 <= cap.value)
    ensures var s, p', q' := state.Nonce(a), AfterReset(p, q, next, state, a, maxGas),
                             QueuedAfterReset(p, q, next, state, a, maxGas, cap);
            (Separated(p', q', s) <==> !Reached(p', q', s)) && (Reached(p', q', s) <==> Misses(p, q, next, state, a, maxGas))
  {
    var live, back := StillPayable(q, state, a, maxGas), Requeued(p, state, a, maxGas);
    assert forall n :: n in live ==> e <= n;
    NothingReady(live, next);
    assert Promoted(p, q, next, state, a, maxGas) == p;
    var k := PayableEnd(p, state, a, maxGas, first, e);
    CleanedInterval(p, state, a, maxGas, first, e, k);
    MissesAt(p, q, next, state, a, maxGas, first, e, k);
    CapKeepsLowest(live, cap, e);
    CappedFits(live, cap);
    SeparatedAt(Demoted(p, state, a, maxGas), Capped(live, cap) + back, state.Nonce(a), k);
  }

  /** Of stale transactions and a payable run, clean-up keeps the run. */
  lemma CleanedRun(p: NonceMap, run: NonceMap, state: State, a: Address, maxGas: nat)
    requires forall n :: n in p ==> n < state.Nonce(a)
    requires forall n :: n in run ==> state.Nonce(a) <= n && !Overspends(run[n], state.Balance(a), maxGas)
    requires run != map[] ==> state.Nonce(a) in run
    ensures Demoted(p + run, state, a, maxGas) == run && Requeued(p + run, state, a, maxGas) == map[]
  {
    assert AtLeast(p + run, state.Nonce(a)) == run;
    assert Unpayable(run, state.Balance(a), maxGas) == map[];
  }

  /** Where nothing is stale, unpayable or ready, promotion and clean-up change nothing. */
  lemma NothingChanges(p: NonceMap, q: NonceMap, next: nat, state: State, a: Address, maxGas: nat, cap: Option<nat>)
    requires forall n :: n in p ==> state.Nonce(a) <= n && !Overspends(p[n], state.Balance(a), maxGas)
    requires p != map[] ==> state.Nonce(a) in p
    requires forall n :: n in q ==> state.Nonce(a) <= n && !Overspends(q[n], state.Balance(a), maxGas) && next < n
    requires cap.Some? ==> Size(q) <= cap.value
    ensures AfterReset(p, q, next, state, a, maxGas) == p && QueuedAfterReset(p, q, next, state, a, maxGas, cap) == q
  {
    var none: NonceMap := map[];
    NothingLeaves(q, next, state, a, maxGas, cap);
    NothingPromoted(p, q, next, state, a, maxGas);
    CleanedRun(none, p, state, a, maxGas);
    assert none + p == p && q + none == q;
  }

  lemma NoneAdded(m: NonceMap)
    ensures m + map[] == m && map[] + m == m
  {
  }

  lemma PayableIntervals(p: NonceMap, run: NonceMap, state: State, a: Address, maxGas: nat, s: nat, next: nat, hi: nat)
    requires Interval(p, s, next) && Interval(run, next, hi)
    requires AllPayable(p, state, a, maxGas) && AllPayable(run, state, a, maxGas)
    ensures Interval(p + run, s, hi) && AllPayable(p + run, state, a, maxGas)
  {
  }

  /** With nothing payable queued below `next`, what is ready from there on is a payable interval, and what is left is
      above it. */
  lemma RunFrom(q: NonceMap, next: nat, state: State, a: Address, maxGas: nat, cap: Option<nat>) returns (hi: nat)
    requires forall n :: n in StillPayable(q, state, a, maxGas) ==> next <= n
    ensures var run := Ready(StillPayable(q, state, a, maxGas), next);
            Interval(run, next, hi) && AllPayable(run, state, a, maxGas)
    ensures forall n :: n in LeftQueued(q, next, state, a, maxGas, cap) ==> hi < n
  {
    var live := StillPayable(q, state, a, maxGas);
    CappedFits(Without(live, Ready(live, next)), cap);
    hi := RunExists(live, next);
    RunDrains(live, next, next, hi, LeftQueued(q, next, state, a, maxGas, cap));
  }

  /** From a payable interval that ends at the virtual nonce, promotion and clean-up leave nothing executable queued. */
  lemma NothingMissed(p: NonceMap, q: NonceMap, next: nat, state: State, a: Address, maxGas: nat, cap: Option<nat>)
    requires Interval(p, state.Nonce(a), next) && AllPayable(p, state, a, maxGas) && forall n :: n in p ==> n !in q
    ensures var s := state.Nonce(a);
            Separated(AfterReset(p, q, next, state, a, maxGas), QueuedAfterReset(p, q, next, state, a, maxGas, cap), s)
  {
    var s, live, none: NonceMap := state.Nonce(a), StillPayable(q, state, a, maxGas), map[];
    var hi := RunFrom(q, next, state, a, maxGas, cap);
    var run, left := Ready(live, next), LeftQueued(q, next, state, a, maxGas, cap);
    PayableIntervals(p, run, state, a, maxGas, s, next, hi);
    CleanedRun(none, p + run, state, a, maxGas);
    NoneAdded(p + run);
    NoneAdded(left);
    SeparatedAt(p + run, left, s, hi);
  }

  lemma MissesAbove(p: NonceMap, q: NonceMap, next: nat, state: State, a: Address, maxGas: nat)
    requires (forall n :: n in p ==> n < state.Nonce(a)) && next <= state.Nonce(a)
    ensures Misses(p, q, next, state, a, maxGas) <==>
            next < state.Nonce(a) && state.Nonce(a) in StillPayable(q, state, a, maxGas)
  {
    var s, live := state.Nonce(a), StillPayable(q, state, a, maxGas);
    var run := Ready(live, next);
    var hi := s;
    if next == s {
      hi := RunExists(live, s);
    } else {
      NothingReady(live, next);
    }
    assert Supports(p, run, state, a, maxGas, s);
    if Misses(p, q, next, state, a, maxGas) {
      var n :| n in live && n !in run && Supports(p, run, state, a, maxGas, n);
      assert hi < n ==> hi in run || hi in p;
    }
  }

  /** Nothing pending is left at the state nonce: what is ready from there on is promoted and stays. */
  lemma PromotedAbove(p: NonceMap, q: NonceMap, state: State, a: Address, maxGas: nat, cap: Option<nat>)
    requires forall n :: n in p ==> n < state.Nonce(a)
    ensures var s := state.Nonce(a);
            var p', q' := AfterReset(p, q, s, state, a, maxGas), QueuedAfterReset(p, q, s, state, a, maxGas, cap);
            Separated(p', q', s) && !Reached(p', q', s)
  {
    var s := state.Nonce(a);
    var hi := RunFrom(q, s, state, a, maxGas, cap);
    var run, left := Ready(StillPayable(q, state, a, maxGas), s), LeftQueued(q, s, state, a, maxGas, cap);
    CleanedRun(p, run, state, a, maxGas);
    NoneAdded(left);
    SeparatedAt(run, left, s, hi);
  }

  /** The virtual nonce is below that of the state, so nothing is promoted. */
  lemma IgnoredAbove(p: NonceMap, q: NonceMap, next: nat, state: State, a: Address, maxGas: nat, cap: Option<nat>)
    requires (forall n :: n in p ==> n < state.Nonce(a)) && next < state.Nonce(a) && (cap.Some? ==> 1 <= cap.value)
    ensures var s, p', q' := state.Nonce(a), AfterReset(p, q, next, state, a, maxGas),
                             QueuedAfterReset(p, q, next, state, a, maxGas, cap);
            && (Separated(p', q', s) <==> !Reached(p', q', s))
            && (Reached(p', q', s) <==> s in StillPayable(q, state, a, maxGas))
  {
    var s, live, none: NonceMap := state.Nonce(a), StillPayable(q, state, a, maxGas), map[];
    NothingReady(live, next);
    CapKeepsLowest(live, cap, s);
    CappedFits(live, cap);
    CleanedRun(p, none, state, a, maxGas);
    NoneAdded(Capped(live, cap));
    SeparatedAt(none, Capped(live, cap), s, s);
  }

  /** The state nonce has fallen below the pending ones, and nothing is queued at it: nothing stays pending. */
  lemma NothingBelow(p: NonceMap, q: NonceMap, state: State, a: Address, maxGas: nat, cap: Option<nat>, first: nat, e: nat)
    requires Interval(p, first, e) && state.Nonce(a) < first < e && state.Nonce(a) !in StillPayable(q, state, a, maxGas)
    ensures var s := state.Nonce(a);
            && !Reached(AfterReset(p, q, s, state, a, maxGas), QueuedAfterReset(p, q, s, state, a, maxGas, cap), s)
            && !Misses(p, q, s, state, a, maxGas)
  {
    var s, live, none: NonceMap := state.Nonce(a), StillPayable(q, state, a, maxGas), map[];
    NothingReady(live, s);
    CappedFits(live, cap);
    NoneAdded(p);
    forall n | n in live ensures !Supports(p, none, state, a, maxGas, n) {
      assert s !in p;
    }
  }

  /** With a lowered state nonce and something queued at it, what is promoted ends at `hi`, and what stays pending of the
      old list at `stop`. */
  lemma FallenLists(p: NonceMap, q: NonceMap, state: State, a: Address, maxGas: nat, first: nat, e: nat)
    returns (hi: nat, stop: nat)
    requires Interval(p, first, e) && state.Nonce(a) < first < e && (forall n :: n in p ==> n !in q)
    requires state.Nonce(a) in StillPayable(q, state, a, maxGas)
    ensures state.Nonce(a) < hi <= first <= stop <= e && hi !in StillPayable(q, state, a, maxGas)
    ensures Interval(Ready(StillPayable(q, state, a, maxGas), state.Nonce(a)), state.Nonce(a), hi)
    ensures (forall n :: first <= n < stop ==> !Overspends(p[n], state.Balance(a), maxGas))
    ensures stop < e ==> Overspends(p[stop], state.Balance(a), maxGas)
    ensures forall n :: n in AfterReset(p, q, state.Nonce(a), state, a, maxGas) <==>
                        state.Nonce(a) <= n < hi || first <= n < stop
  {
    var s, live := state.Nonce(a), StillPayable(q, state, a, maxGas);
    assert first !in live;
    hi := Reach(live, s, first);
    RunIsReady(live, s, s, hi);
    stop := PayableUntil(p, state, a, maxGas, first, e);
    DemotedNonces(p, Ready(live, s), state, a, maxGas, first, e, hi, stop);
  }

  /** What is put back into the queue then follows the first unpayable one. */
  lemma FallenBack(p: NonceMap, run: NonceMap, state: State, a: Address, maxGas: nat, first: nat, e: nat, hi: nat, stop: nat)
    requires Interval(p, first, e) && state.Nonce(a) < hi <= first <= stop <= e && Interval(run, state.Nonce(a), hi)
    requires forall n :: n in Demoted(p + run, state, a, maxGas) <==> state.Nonce(a) <= n < hi || first <= n < stop
    requires stop < e ==> Overspends(p[stop], state.Balance(a), maxGas)
    ensures forall n :: n in Requeued(p + run, state, a, maxGas) ==> stop < n < e
  {
  }

  lemma FallenLeft(p: NonceMap, q: NonceMap, state: State, a: Address, maxGas: nat, cap: Option<nat>, hi: nat)
    requires (forall n :: n in p ==> n !in q) && hi !in StillPayable(q, state, a, maxGas)
    requires Interval(Ready(StillPayable(q, state, a, maxGas), state.Nonce(a)), state.Nonce(a), hi)
    ensures forall n :: n in LeftQueued(q, state.Nonce(a), state, a, maxGas, cap) ==> hi < n && n !in p
  {
    var live := StillPayable(q, state, a, maxGas);
    CappedFits(Without(live, Ready(live, state.Nonce(a))), cap);
  }

  lemma JoinedQueue(p: NonceMap, left: NonceMap, back: NonceMap, first: nat, e: nat, hi: nat, stop: nat)
    requires Interval(p, first, e) && hi <= first <= stop
    requires (forall n :: n in left ==> hi < n && n !in p) && (forall n :: n in back ==> stop < n < e)
    ensures forall n :: n in left + back ==> hi < n && (n !in p || stop < n)
    ensures forall n :: n !in p ==> (n in left + back <==> n in left)
  {
  }

  /** What is queued then, if the promoted run ends at `hi`. */
  lemma FallenQueue(p: NonceMap, q: NonceMap, state: State, a: Address, maxGas: nat, cap: Option<nat>, first: nat, e: nat,
                    hi: nat, stop: nat)
    requires Interval(p, first, e) && state.Nonce(a) < hi <= first <= stop <= e && (forall n :: n in p ==> n !in q)
    requires hi !in StillPayable(q, state, a, maxGas) && (stop < e ==> Overspends(p[stop], state.Balance(a), maxGas))
    requires Interval(Ready(StillPayable(q, state, a, maxGas), state.Nonce(a)), state.Nonce(a), hi)
    requires forall n :: n in AfterReset(p, q, state.Nonce(a), state, a, maxGas) <==>
                         state.Nonce(a) <= n < hi || first <= n < stop
    ensures var q', left := QueuedAfterReset(p, q, state.Nonce(a), state, a, maxGas, cap),
                            LeftQueued(q, state.Nonce(a), state, a, maxGas, cap);
            (forall n :: n in q' ==> hi < n && (n !in p || stop < n)) && (forall n :: n !in p ==> (n in q' <==> n in left))
  {
    var run := Ready(StillPayable(q, state, a, maxGas), state.Nonce(a));
    assert AfterReset(p, q, state.Nonce(a), state, a, maxGas) == Demoted(p + run, state, a, maxGas);
    FallenLeft(p, q, state, a, maxGas, cap, hi);
    FallenBack(p, run, state, a, maxGas, first, e, hi, stop);
    JoinedQueue(p, LeftQueued(q, state.Nonce(a), state, a, maxGas, cap), Requeued(p + run, state, a, maxGas), first, e, hi,
                stop);
  }

  lemma UnreachedPast(p: NonceMap, q: NonceMap, s: nat, hi: nat)
    requires hi !in p && s <= hi && forall n :: n in q ==> hi < n
    ensures !Reached(p, q, s)
  {
  }

  lemma ShortMisses(p: NonceMap, q: NonceMap, state: State, a: Address, maxGas: nat, hi: nat)
    requires hi !in p && hi !in StillPayable(q, state, a, maxGas) && state.Nonce(a) <= hi
    requires Interval(Ready(StillPayable(q, state, a, maxGas), state.Nonce(a)), state.Nonce(a), hi)
    ensures !Misses(p, q, state.Nonce(a), state, a, maxGas)
  {
    var live := StillPayable(q, state, a, maxGas);
    var run := Ready(live, state.Nonce(a));
    forall n | n in live && n !in run ensures !Supports(p, run, state, a, maxGas, n) {
      assert hi !in p && hi !in run;
    }
  }

  lemma FallenMisses(p: NonceMap, q: NonceMap, state: State, a: Address, maxGas: nat, first: nat, e: nat, stop: nat)
    requires Interval(p, first, e) && state.Nonce(a) < first <= stop <= e && (forall n :: n in p ==> n !in q)
    requires Interval(Ready(StillPayable(q, state, a, maxGas), state.Nonce(a)), state.Nonce(a), first)
    requires forall n :: first <= n < stop ==> !Overspends(p[n], state.Balance(a), maxGas)
    requires stop < e ==> Overspends(p[stop], state.Balance(a), maxGas)
    ensures Misses(p, q, state.Nonce(a), state, a, maxGas) <==> stop == e && e in StillPayable(q, state, a, maxGas)
  {
    var s, live := state.Nonce(a), StillPayable(q, state, a, maxGas);
    var run := Ready(live, s);
    if Misses(p, q, s, state, a, maxGas) {
      var n :| n in live && n !in run && Supports(p, run, state, a, maxGas, n);
      assert e < n ==> e in p || e in run;
      assert stop < e ==> stop in p;
    } else if stop == e {
      assert Supports(p, run, state, a, maxGas, e);
    }
  }

  /** What is promoted reaches the old list. */
  lemma FallenThrough(p: NonceMap, q: NonceMap, state: State, a: Address, maxGas: nat, cap: Option<nat>, first: nat, e: nat,
                      stop: nat, p': NonceMap, q': NonceMap)
    requires Interval(p, first, e) && state.Nonce(a) < first <= stop <= e && (forall n :: n in p ==> n !in q)
    requires cap.Some? ==> 1 <= cap.value
    requires Interval(Ready(StillPayable(q, state, a, maxGas), state.Nonce(a)), state.Nonce(a), first)
    requires forall n :: n in p' <==> state.Nonce(a) <= n < stop
    requires forall n :: n in q' ==> first < n && (n !in p || stop < n)
    requires forall n :: n !in p ==> (n in q' <==> n in LeftQueued(q, state.Nonce(a), state, a, maxGas, cap))
    ensures Reached(p', q', state.Nonce(a)) <==> stop == e && e in StillPayable(q, state, a, maxGas)
  {
    var s, live := state.Nonce(a), StillPayable(q, state, a, maxGas);
    CapKeepsLowest(Without(live, Ready(live, s)), cap, e);
    SeparatedAt(p', q', s, stop);
  }

  lemma MissedFalling(p: NonceMap, q: NonceMap, state: State, a: Address, maxGas: nat, cap: Option<nat>, first: nat, e: nat)
    requires Interval(p, first, e) && state.Nonce(a) < first < e
    requires (forall n :: n in p ==> n !in q) && (cap.Some? ==> 1 <= cap.value)
    ensures var s := state.Nonce(a);
            Reached(AfterReset(p, q, s, state, a, maxGas), QueuedAfterReset(p, q, s, state, a, maxGas, cap), s)
            <==> Misses(p, q, s, state, a, maxGas)
  {
    if state.Nonce(a) !in StillPayable(q, state, a, maxGas) {
      NothingBelow(p, q, state, a, maxGas, cap, first, e);
    } else {
      var hi, stop := FallenLists(p, q, state, a, maxGas, first, e);
      var s := state.Nonce(a);
      var p', q' := AfterReset(p, q, s, state, a, maxGas), QueuedAfterReset(p, q, s, state, a, maxGas, cap);
      FallenQueue(p, q, state, a, maxGas, cap, first, e, hi, stop);
      if hi < first {
        UnreachedPast(p', q', s, hi);
        ShortMisses(p, q, state, a, maxGas, hi);
      } else {
        FallenThrough(p, q, state, a, maxGas, cap, first, e, stop, p', q');
        FallenMisses(p, q, state, a, maxGas, first, e, stop);
      }
    }
  }

  /** Where the state nonce does not fall. */
  lemma MissedRising(p: NonceMap, q: NonceMap, next: nat, state: State, a: Address, maxGas: nat, cap: Option<nat>, first: nat,
                     e: nat)
    requires Interval(p, first, e) && first <= state.Nonce(a) && next <= state.Nonce(a)
    requires (forall n :: n in p ==> n !in q) && (cap.Some? ==> 1 <= cap.value)
    ensures var s, p', q' := state.Nonce(a), AfterReset(p, q, next, state, a, maxGas),
                             QueuedAfterReset(p, q, next, state, a, maxGas, cap);
            (Separated(p', q', s) <==> !Reached(p', q', s)) && (Reached(p', q', s) <==> Misses(p, q, next, state, a, maxGas))
  {
    if state.Nonce(a) < e {
      MissedBelow(p, q, next, state, a, maxGas, cap, first, e);
    } else {
      MissesAbove(p, q, next, state, a, maxGas);
      if next == state.Nonce(a) {
        PromotedAbove(p, q, state, a, maxGas, cap);
      } else {
        IgnoredAbove(p, q, next, state, a, maxGas, cap);
      }
    }
  }

  /** After a reset something stays queued that could be pending exactly if `Misses`.  Where the nonce does not fall,
      whatever stays queued is otherwise above what is pending, by more than one. */
  lemma MissedAfterReset(p: NonceMap, q: NonceMap, next: nat, state: State, a: Address, maxGas: nat, cap: Option<nat>,
                         first: nat)
    requires RunsFrom(p, first) && (next == state.Nonce(a) || first <= next < state.Nonce(a))
    requires (forall n :: n in p ==> n !in q) && (cap.Some? ==> 1 <= cap.value)
    ensures var s, p', q' := state.Nonce(a), AfterReset(p, q, next, state, a, maxGas),
                             QueuedAfterReset(p, q, next, state, a, maxGas, cap);
            && (Reached(p', q', s) <==> Misses(p, q, next, state, a, maxGas))
            && (first <= s ==> (Separated(p', q', s) <==> !Reached(p', q', s)))
  {
    var e: nat :| Interval(p, first, e);
    if first <= state.Nonce(a) {
      MissedRising(p, q, next, state, a, maxGas, cap, first, e);
    } else if first == e {
      assert Interval(p, state.Nonce(a), state.Nonce(a));
      MissedRising(p, q, next, state, a, maxGas, cap, state.Nonce(a), state.Nonce(a));
    } else {
      MissedFalling(p, q, state, a, maxGas, cap, first, e);
    }
  }

  /** Where nothing executable was queued, the lists are separated. */
  ghost predicate Separates(q0: Lists, next0: Nexts, state: State, p: Lists, q: Lists) {
    forall a {:trigger Holder(a)} :: Holder(a) ==>
      Exhausted(At(q0, a), next0.Next(a)) ==> Separated(At(p, a), At(q, a), state.Nonce(a))
  }

  lemma SeparatedListsExhaust(q0: Lists, next0: Nexts, state: State, p: Lists, q: Lists, p': Lists, q': Lists, next: Nexts)
    requires Separates(q0, next0, state, p, q) && forall a :: Interval(At(p', a), state.Nonce(a), next.Next(a))
    requires forall a, n :: n in At(p', a) ==> n in At(p, a)
    requires forall a, n :: n in At(q', a) ==> n in At(q, a)
    ensures KeepsExhausted({}, q0, next0, q', next)
  {
    forall a | Holder(a) && Exhausted(At(q0, a), next0.Next(a)) ensures Exhausted(At(q', a), next.Next(a)) {
      SeparatedIsExhausted(At(p, a), At(q, a), state.Nonce(a), At(p', a), At(q', a), next.Next(a));
    }
  }

  /** A reorganisation up to the truncation: its additions, the views, virtual nonces and heartbeats after them, and
      the lists after promotion and clean-up. */
  datatype Reorganization = Reorganization(
    steps: seq<Addition>, errs: seq<TxError>, mid: Views, next: Nexts, beats: map<Address, nat>, ready: Lists,
    queued: Lists)

  /** How lists are cut to the pool's limits: pending ones to a level; queues by heartbeats, those of `gone` entirely
      and that of `last` to its `left` lowest nonces. */
  datatype Truncation = Truncation(level: nat, beats: map<Address, nat>, gone: set<Address>, last: Option<Address>, left: nat)

  /** What transactions are judged by after a reorganisation. */
  function RulesAfter(rules: Rules, reset: Option<ResetRequest>): Rules {
    match reset
    case Some(ResetTo(state, maxGas, istanbul, _)) => rules.(state := state, maxGas := maxGas, istanbul := istanbul)
    case _ => rules
  }

  /** A reset adds what is reinjected, judged by the new state; anything else starts with the views as they are. */
  ghost predicate Reinjects(rules: Rules, reset: Option<ResetRequest>, from: Views, t: Reorganization) {
    match reset
    case Some(ResetTo(state, maxGas, _, reinject)) =>
      Explains(rules.(state := state, maxGas := maxGas), false, reinject, t.steps, t.errs, false, from, t.mid)
    case _ => t.mid == from
  }

  /** The pending list of an account before the truncation: promoted if it is dirty; after a reset, promoted and
      cleaned up. */
  function ReadyList(reset: bool, dirty: bool, p: NonceMap, q: NonceMap, next: nat, state: State, a: Address,
                     maxGas: nat): NonceMap {
    if reset then AfterReset(p, q, next, state, a, maxGas)
    else if dirty then Promoted(p, q, next, state, a, maxGas)
    else p
  }

  /** What is queued with it. */
  function ReadyQueue(reset: bool, dirty: bool, p: NonceMap, q: NonceMap, next: nat, state: State, a: Address,
                      maxGas: nat, cap: Option<nat>): NonceMap {
    if reset then QueuedAfterReset(p, q, next, state, a, maxGas, cap)
    else if dirty then LeftQueued(q, next, state, a, maxGas, cap)
    else q
  }

  ghost predicate ReadiesAt(reset: bool, dirty: set<Address>, state: State, maxGas: nat, limit: nat, t: Reorganization,
                            a: Address) {
    var p, q, next := At(t.mid.pending, a), At(t.mid.queue, a), t.next.Next(a);
    && At(t.ready, a) == ReadyList(reset, a in dirty, p, q, next, state, a, maxGas)
    && At(t.queued, a) == ReadyQueue(reset, a in dirty, p, q, next, state, a, maxGas, QueueCap(t.mid.locals, limit, a))
  }

  /** The lists of the dirty accounts are promoted; after a reset, all are promoted and cleaned up. At most `limit`
      transactions stay queued for an account that is not local.  Guarded as `Agree` is. */
  ghost predicate Readies(reset: bool, dirty: set<Address>, state: State, maxGas: nat, limit: nat, t: Reorganization) {
    forall k {:trigger Open(k)} :: Open(k) ==> forall a :: ReadiesAt(reset, dirty, state, maxGas, limit, t, a)
  }

  lemma ReadyAt(reset: bool, dirty: set<Address>, state: State, maxGas: nat, limit: nat, t: Reorganization, a: Address)
    requires Readies(reset, dirty, state, maxGas, limit, t)
    ensures ReadiesAt(reset, dirty, state, maxGas, limit, t, a)
  {
    assert Open(0);
  }

  lemma ReadyListAt(reset: bool, dirty: set<Address>, state: State, maxGas: nat, limit: nat, t: Reorganization, a: Address)
    requires Readies(reset, dirty, state, maxGas, limit, t)
    ensures At(t.ready, a) ==
            ReadyList(reset, a in dirty, At(t.mid.pending, a), At(t.mid.queue, a), t.next.Next(a), state, a, maxGas)
  {
    ReadyAt(reset, dirty, state, maxGas, limit, t, a);
  }

  lemma ReadyQueueAt(reset: bool, dirty: set<Address>, state: State, maxGas: nat, limit: nat, t: Reorganization, a: Address)
    requires Readies(reset, dirty, state, maxGas, limit, t)
    ensures At(t.queued, a) ==
            ReadyQueue(reset, a in dirty, At(t.mid.pending, a), At(t.mid.queue, a), t.next.Next(a), state, a, maxGas,
                       QueueCap(t.mid.locals, limit, a))
  {
    ReadyAt(reset, dirty, state, maxGas, limit, t, a);
  }

  /** What promotion moves from the queue of an account to its pending list. */
  function PromotedRun(promoted: bool, q: NonceMap, next: nat, state: State, a: Address, maxGas: nat): NonceMap {
    if promoted then Ready(StillPayable(q, state, a, maxGas), next) else map[]
  }

  /** The virtual nonces follow what was promoted: for the dirty accounts or, after a reset, for all. */
  ghost predicate Advances(reset: bool, dirty: set<Address>, state: State, maxGas: nat, t: Reorganization, next: Nexts) {
    forall a {:trigger Holder(a)} :: Holder(a) ==>
      Follows(PromotedRun(reset || a in dirty, At(t.mid.queue, a), t.next.Next(a), state, a, maxGas), t.next.Next(a),
              next.Next(a))
  }

  /** The virtual nonces follow the highest pending nonces; accounts with nothing pending keep theirs. */
  ghost predicate Numbers(p: Lists, next0: Nexts, next: Nexts) {
    forall a {:trigger Holder(a)} :: Holder(a) ==> Follows(At(p, a), next0.Next(a), next.Next(a))
  }

  /** Exactly the accounts with pending transactions may have changed their virtual nonces, and still have some. */
  ghost predicate Spares(p0: Lists, next0: Nexts, p: Lists, next: Nexts) {
    forall a {:trigger Holder(a)} :: Holder(a) ==>
      && (At(p, a) == map[] <==> At(p0, a) == map[]) && (At(p0, a) == map[] ==> next.Next(a) == next0.Next(a))
  }

  /** The virtual nonces after a reorganisation: that of an account with pending transactions follows the highest of
      them; that of any other follows what was promoted of it, all of which the clean-up took out again, or is the
      one after the additions. */
  ghost predicate Renumbers(reset: bool, dirty: set<Address>, state: State, maxGas: nat, t: Reorganization, p: Lists,
                            next: Nexts) {
    forall a {:trigger Holder(a)} :: Holder(a) ==>
      if At(p, a) != map[] then 0 < next.Next(a) && IsHighest(At(p, a), next.Next(a) - 1)
      else Follows(PromotedRun(reset || a in dirty, At(t.mid.queue, a), t.next.Next(a), state, a, maxGas),
                   t.next.Next(a), next.Next(a))
  }

  lemma NumbersRenumber(reset: bool, dirty: set<Address>, state: State, maxGas: nat, t: Reorganization, next0: Nexts,
                        p: Lists, next: Nexts)
    requires Advances(reset, dirty, state, maxGas, t, next0) && Numbers(p, next0, next)
    ensures Renumbers(reset, dirty, state, maxGas, t, p, next)
  {
  }

  lemma RenumberedAt(reset: bool, dirty: set<Address>, state: State, maxGas: nat, t: Reorganization, p: Lists, next: Nexts,
                     a: Address, h: nat)
    requires Renumbers(reset, dirty, state, maxGas, t, p, next) && IsHighest(At(p, a), h)
    ensures next.Next(a) == h + 1
  {
    assert Holder(a);
    OneHighest(At(p, a), h, next.Next(a) - 1);
  }

  lemma PromotionReadies(state: State, maxGas: nat, limit: nat, dirty: set<Address>, t: Reorganization, next: Nexts)
    requires Promotes(state, maxGas, t.mid.locals, limit, dirty, t.mid.pending, t.mid.queue, t.next, t.ready, t.queued, next)
    ensures Readies(false, dirty, state, maxGas, limit, t) && Advances(false, dirty, state, maxGas, t, next)
  {
    assert Inside(0);
    forall a ensures ReadiesAt(false, dirty, state, maxGas, limit, t, a) {
      assert Holder(a);
    }
  }

  /** After a reset, the dirty accounts do not matter. */
  lemma ReadiesAnyway(dirty: set<Address>, state: State, maxGas: nat, limit: nat, t: Reorganization, next: Nexts)
    ensures Readies(true, {}, state, maxGas, limit, t) ==> Readies(true, dirty, state, maxGas, limit, t)
    ensures Advances(true, {}, state, maxGas, t, next) ==> Advances(true, dirty, state, maxGas, t, next)
  {
    if Readies(true, {}, state, maxGas, limit, t) {
      forall a ensures ReadiesAt(true, dirty, state, maxGas, limit, t, a) {
        ReadyAt(true, {}, state, maxGas, limit, t, a);
      }
    }
  }

  lemma ProgressAnyway(done: bool, p0: NonceMap, q0: NonceMap, next0: nat, state: State, a: Address, maxGas: nat,
                       cap: Option<nat>, p: NonceMap, q: NonceMap, next: nat)
    requires Progress(done, p0, q0, next0, state, a, maxGas, cap, p, q, next) && (!done ==> q0 == map[])
    ensures p == Promoted(p0, q0, next0, state, a, maxGas) && q == LeftQueued(q0, next0, state, a, maxGas, cap)
    ensures Follows(PromotedRun(true, q0, next0, state, a, maxGas), next0, next)
  {
    assert Inside(0);
    if !done {
      NothingToPromote(p0, next0, state, a, maxGas, cap);
    }
  }

  lemma ResetReadies(state: State, maxGas: nat, limit: nat, t: Reorganization, p: Lists, q: Lists, next: Nexts)
    requires Promotes(state, maxGas, t.mid.locals, limit, Accounts(t.mid.queue), t.mid.pending, t.mid.queue, t.next, p, q,
                      next)
    requires CleansUp(state, maxGas, {}, p, q, t.ready, t.queued)
    ensures Readies(true, {}, state, maxGas, limit, t) && Advances(true, {}, state, maxGas, t, next)
  {
    forall a
      ensures ReadiesAt(true, {}, state, maxGas, limit, t, a)
      ensures Follows(PromotedRun(true, At(t.mid.queue, a), t.next.Next(a), state, a, maxGas), t.next.Next(a), next.Next(a))
    {
      assert Holder(a);
      ProgressAnyway(a in Accounts(t.mid.queue), At(t.mid.pending, a), At(t.mid.queue, a), t.next.Next(a), state, a, maxGas,
                     QueueCap(t.mid.locals, limit, a), At(p, a), At(q, a), next.Next(a));
    }
  }

  /** Clean-up leaves what can be paid for, and promotion adds only such. */
  lemma ReadiesSolvent(reset: bool, dirty: set<Address>, state: State, maxGas: nat, limit: nat, t: Reorganization)
    requires Readies(reset, dirty, state, maxGas, limit, t) && (reset || Solvent(t.mid.pending, state, maxGas))
    ensures Solvent(t.ready, state, maxGas)
  {
    forall a | Holder(a) ensures AllPayable(At(t.ready, a), state, a, maxGas) {
      ReadyListAt(reset, dirty, state, maxGas, limit, t, a);
      var p, q, next := At(t.mid.pending, a), At(t.mid.queue, a), t.next.Next(a);
      if reset {
        DemotedIsPayable(Promoted(p, q, next, state, a, maxGas), state, a, maxGas);
      } else {
        PromotedIsPayable(p, q, next, state, a, maxGas);
      }
    }
  }

  ghost predicate GapsInFull(nonces: State, state: State, maxGas: nat, t: Reorganization) {
    forall a :: RunsFrom(At(t.ready, a), state.Nonce(a)) <==>
                !LeavesGap(At(t.mid.pending, a), At(t.mid.queue, a), state, a, maxGas, nonces.Nonce(a))
  }

  /** After a reset from the state `nonces`, the lists with a gap are exactly those `LeavesGap` describes.
      Guarded as `Agree` is. */
  ghost predicate Gaps(nonces: State, state: State, maxGas: nat, t: Reorganization) {
    forall k {:trigger Open(k)} :: Open(k) ==> GapsInFull(nonces, state, maxGas, t)
  }

  lemma ResetGaps(p0: Lists, next0: Nexts, nonces: State, state: State, maxGas: nat, limit: nat, t: Reorganization)
    requires forall a :: RunsFrom(At(p0, a), nonces.Nonce(a)) && next0.Next(a) == state.Nonce(a)
    requires KeepsRuns(p0, next0, t.mid.pending, t.next) && Agree(t.mid.all, t.mid.pending, t.mid.queue, map[])
    requires Readies(true, {}, state, maxGas, limit, t)
    ensures Gaps(nonces, state, maxGas, t)
  {
    forall a ensures RunsFrom(At(t.ready, a), state.Nonce(a)) <==>
                     !LeavesGap(At(t.mid.pending, a), At(t.mid.queue, a), state, a, maxGas, nonces.Nonce(a))
    {
      NoncesApart(t.mid.all, t.mid.pending, t.mid.queue, map[], a);
      RunsStillAt(p0, next0, t.mid.pending, t.next, a, nonces.Nonce(a));
      ReadyListAt(true, {}, state, maxGas, limit, t, a);
      GapAfterReset(At(t.mid.pending, a), At(t.mid.queue, a), t.next.Next(a), state, a, maxGas, nonces.Nonce(a));
    }
  }

  ghost predicate MissingInFull(nonces: State, state: State, maxGas: nat, t: Reorganization) {
    forall a :: var s, p, q := state.Nonce(a), At(t.ready, a), At(t.queued, a);
      && (Reached(p, q, s) <==> Misses(At(t.mid.pending, a), At(t.mid.queue, a), t.next.Next(a), state, a, maxGas))
      && (nonces.Nonce(a) <= s ==> (Separated(p, q, s) <==> !Reached(p, q, s)))
  }

  /** After a reset from the state `nonces`, something stays queued that could be pending exactly if `Misses` says so of
      the lists after the reinjection.  Guarded as `Agree` is. */
  ghost predicate Missing(nonces: State, state: State, maxGas: nat, t: Reorganization) {
    forall k {:trigger Open(k)} :: Open(k) ==> MissingInFull(nonces, state, maxGas, t)
  }

  lemma ResetMisses(p0: Lists, next0: Nexts, nonces: State, state: State, maxGas: nat, limit: nat, t: Reorganization)
    requires forall a :: RunsFrom(At(p0, a), nonces.Nonce(a)) && next0.Next(a) == state.Nonce(a)
    requires KeepsRuns(p0, next0, t.mid.pending, t.next) && Agree(t.mid.all, t.mid.pending, t.mid.queue, map[])
    requires Readies(true, {}, state, maxGas, limit, t) && 1 <= limit
    ensures Missing(nonces, state, maxGas, t)
  {
    forall a ensures var s, p, q := state.Nonce(a), At(t.ready, a), At(t.queued, a);
                     && (Reached(p, q, s) <==>
                         Misses(At(t.mid.pending, a), At(t.mid.queue, a), t.next.Next(a), state, a, maxGas))
                     && (nonces.Nonce(a) <= s ==> (Separated(p, q, s) <==> !Reached(p, q, s)))
    {
      NoncesApart(t.mid.all, t.mid.pending, t.mid.queue, map[], a);
      RunsStillAt(p0, next0, t.mid.pending, t.next, a, nonces.Nonce(a));
      ReadyListAt(true, {}, state, maxGas, limit, t, a);
      ReadyQueueAt(true, {}, state, maxGas, limit, t, a);
      MissedAfterReset(At(t.mid.pending, a), At(t.mid.queue, a), t.next.Next(a), state, a, maxGas,
                       QueueCap(t.mid.locals, limit, a), nonces.Nonce(a));
    }
  }

  /** Where nothing executable was queued, nothing is missed. */
  lemma ExhaustedMissesNothing(p: NonceMap, q: NonceMap, first: nat, end: nat, state: State, a: Address, maxGas: nat)
    requires Interval(p, first, end) && Exhausted(q, end)
    ensures !Misses(p, q, state.Nonce(a), state, a, maxGas)
  {
    var s, live, none: NonceMap := state.Nonce(a), StillPayable(q, state, a, maxGas), map[];
    if end <= s {
      MissesAbove(p, q, s, state, a, maxGas);
    } else {
      NothingReady(live, s);
      forall n | n in live ensures !Supports(p, none, state, a, maxGas, n) {
        assert end !in p;
      }
    }
  }

  /** So a reset that reinjects nothing and lowers no nonce keeps apart what was apart. */
  lemma ResetSeparates(next0: Nexts, nonces: State, state: State, maxGas: nat, t: Reorganization)
    requires forall a :: Interval(At(t.mid.pending, a), nonces.Nonce(a), next0.Next(a))
    requires forall a :: nonces.Nonce(a) <= state.Nonce(a) && t.next.Next(a) == state.Nonce(a)
    requires Missing(nonces, state, maxGas, t)
    ensures Separates(t.mid.queue, next0, state, t.ready, t.queued)
  {
    forall a | Holder(a) && Exhausted(At(t.mid.queue, a), next0.Next(a))
      ensures Separated(At(t.ready, a), At(t.queued, a), state.Nonce(a))
    {
      assert Open(0);
      ExhaustedMissesNothing(At(t.mid.pending, a), At(t.mid.queue, a), nonces.Nonce(a), next0.Next(a), state, a, maxGas);
    }
  }

  /** An abandoned reset from contiguous lists promotes whatever is executable. */
  lemma AbandonedSeparates(next0: Nexts, state: State, maxGas: nat, limit: nat, t: Reorganization)
    requires forall a :: Interval(At(t.mid.pending, a), state.Nonce(a), t.next.Next(a))
    requires Solvent(t.mid.pending, state, maxGas) && Agree(t.mid.all, t.mid.pending, t.mid.queue, map[])
    requires Readies(true, {}, state, maxGas, limit, t)
    ensures Separates(t.mid.queue, next0, state, t.ready, t.queued)
  {
    forall a | Holder(a) ensures Separated(At(t.ready, a), At(t.queued, a), state.Nonce(a)) {
      NoncesApart(t.mid.all, t.mid.pending, t.mid.queue, map[], a);
      ReadyListAt(true, {}, state, maxGas, limit, t, a);
      ReadyQueueAt(true, {}, state, maxGas, limit, t, a);
      NothingMissed(At(t.mid.pending, a), At(t.mid.queue, a), t.next.Next(a), state, a, maxGas,
                    QueueCap(t.mid.locals, limit, a));
    }
  }

  /** The lists that are not local are cut to one level, the highest that meets the limit, but not below the
      slots every account is guaranteed. */
  ghost predicate Truncates(config: Config, locals: set<Address>, ready: Lists, level: nat, pending: Lists) {
    && Leveled(ready, pending, locals, level, Total(pending), config.globalSlots)
    && config.accountSlots <= level && (Total(pending) <= config.globalSlots || level == config.accountSlots)
    && (Total(ready) <= config.globalSlots ==> pending == ready)
  }

  ghost predicate TruncatesQueueInFull(config: Config, locals: set<Address>, queued: Lists, cut: Truncation, queue: Lists) {
    && CutLatestFirst(queued, queue, cut.beats, locals, cut.gone, cut.last, cut.left)
    && (if Total(queued) <= config.globalQueue then queue == queued
        else Total(queue) == config.globalQueue
             || (Total(queue) > config.globalQueue && forall a :: a !in locals ==> At(queue, a) == map[]))
  }

  /** Queues that are not local are cut, latest heartbeat first, until the limit is met exactly or none is left;
      guarded as `Agree` is. */
  ghost predicate TruncatesQueue(config: Config, locals: set<Address>, queued: Lists, cut: Truncation, queue: Lists) {
    forall k {:trigger Open(k)} :: Open(k) ==> TruncatesQueueInFull(config, locals, queued, cut, queue)
  }

  lemma TruncatedQueue(config: Config, locals: set<Address>, queued: Lists, cut: Truncation, queue: Lists)
    requires TruncatesQueue(config, locals, queued, cut, queue)
    ensures (forall a, n :: n in At(queue, a) ==> n in At(queued, a))
    ensures Total(queued) <= config.globalQueue ==> queue == queued
  {
    assert Open(0);
  }

  lemma TruncatedNonces(config: Config, locals: set<Address>, p: Lists, level: nat, p': Lists)
    requires Truncates(config, locals, p, level, p')
    ensures forall a, n :: n in At(p', a) ==> n in At(p, a)
    ensures forall a, n :: n in At(p', a) ==> At(p', a)[n] == At(p, a)[n]
  {
    ExpandLeveled(p, p', locals, level, Total(p'), config.globalSlots);
  }

  lemma TruncationStaysSolvent(config: Config, locals: set<Address>, p: Lists, level: nat, p': Lists, state: State,
                               maxGas: nat)
    requires Truncates(config, locals, p, level, p') && Solvent(p, state, maxGas)
    ensures Solvent(p', state, maxGas)
  {
    TruncatedNonces(config, locals, p, level, p');
    forall a | Holder(a) ensures AllPayable(At(p', a), state, a, maxGas) {
      assert AllPayable(At(p, a), state, a, maxGas);
    }
  }

  /** After a reset, and without one from solvent lists, a reorganisation leaves solvent lists. */
  lemma EndsSolvent(reset: bool, dirty: set<Address>, state: State, maxGas: nat, config: Config, locals: set<Address>,
                    t: Reorganization, level: nat, p: Lists)
    requires Readies(reset, dirty, state, maxGas, config.accountQueue, t) && Truncates(config, locals, t.ready, level, p)
    requires reset || Solvent(t.mid.pending, state, maxGas)
    ensures Solvent(p, state, maxGas)
  {
    ReadiesSolvent(reset, dirty, state, maxGas, config.accountQueue, t);
    TruncationStaysSolvent(config, locals, t.ready, level, p, state, maxGas);
  }

  /** Truncation makes nothing executable. */
  lemma TruncationExhausts(reset: bool, q0: Lists, next0: Nexts, state: State, p: Lists, q: Lists, next: Nexts, config: Config,
                           locals: set<Address>, cut: Truncation, p': Lists, q': Lists, next': Nexts)
    requires if reset then Separates(q0, next0, state, p, q) && forall a :: Interval(At(p', a), state.Nonce(a), next'.Next(a))
             else KeepsExhausted({}, q0, next0, q, next) && KeepsExhausted({}, q, next, q', next')
    requires Truncates(config, locals, p, cut.level, p') && TruncatesQueue(config, locals, q, cut, q')
    ensures KeepsExhausted({}, q0, next0, q', next')
  {
    if reset {
      TruncatedNonces(config, locals, p, cut.level, p');
      TruncatedQueue(config, locals, q, cut, q');
      SeparatedListsExhaust(q0, next0, state, p, q, p', q', next');
    } else {
      var none: set<Address> := {};
      KeepsExhaustedTrans(none, q0, next0, q, next, none, q', next');
      assert none + none == none;
    }
  }
}
