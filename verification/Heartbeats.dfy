/** The heartbeats of the pool of core/tx_pool.go: when an account was last heard of, which decides whose queue is cut
    first. */
module Heartbeats {
  import opened Basics
  import opened Transactions
  import opened NonceMaps
  import opened TxLists
  import opened TxPricing
  import opened PoolViews
  import opened TxNoncers
  import opened PoolSteps
  import opened Fairness
  import opened Additions
  import opened Reorgs

  type Beats = map<Address, nat>

  function Pulse(beats: Beats, a: Address): Option<nat> {
    if a in beats then Some(beats[a]) else None
  }

  /** A heartbeat that is set where there is none. */
  function Revived(pulse: Option<nat>, now: nat): Option<nat> {
    if pulse == None then Some(now) else pulse
  }

  /** None of the transactions is of `a`. */
  ghost predicate Quiet(txs: seq<Transaction>, a: Address) {
    forall tx :: tx in txs ==> tx.from != a
  }

  /** Every heartbeat is of before or of now, and for accounts none of whose transactions are dropped it is of before. */
  ghost predicate Hushed(drop: seq<Transaction>, b0: Beats, b: Beats, now: nat) {
    forall a {:trigger Holder(a)} :: Holder(a) ==>
      Pulse(b, a) in {None, Some(now), Pulse(b0, a)} && (Quiet(drop, a) ==> Pulse(b, a) == Pulse(b0, a))
  }

  /** The heartbeat of `a` after `tx` has entered: one that replaces a pending transaction sets its sender's, and one that
      joins the queue does so where there is none. */
  function PulseIn(tx: Transaction, entered: bool, pending: bool, a: Address, pulse: Option<nat>, now: nat): Option<nat> {
    if !entered || a != tx.from then pulse else if pending then Some(now) else Revived(pulse, now)
  }

  ghost predicate Hears(tx: Transaction, entered: bool, pending: bool, b0: Beats, b: Beats, now: nat) {
    forall a {:trigger Holder(a)} :: Holder(a) ==> Pulse(b, a) == PulseIn(tx, entered, pending, a, Pulse(b0, a), now)
  }

  /** The heartbeat of `a` after a step. */
  ghost function PulseStep(s: Addition, a: Address, pulse: Option<nat>, now: nat): Option<nat> {
    PulseIn(s.tx, s.err == NoError && !s.crash, s.tx.nonce in At(s.room.pending, s.tx.from), a, pulse, now)
  }

  /** Every heartbeat is of before or of now, and for accounts none of whose transactions are dropped it is as
      `PulseStep` says. */
  ghost predicate StepBeats(s: Addition, b0: Beats, b: Beats, now: nat) {
    forall a {:trigger Holder(a)} :: Holder(a) ==>
      && Pulse(b, a) in {None, Some(now), Pulse(b0, a)}
      && (Quiet(s.drop, a) ==> Pulse(b, a) == PulseStep(s, a, Pulse(b0, a), now))
  }

  lemma StepHeard(s: Addition, b0: Beats, b1: Beats, b: Beats, now: nat)
    requires Hushed(s.drop, b0, b1, now)
    requires Hears(s.tx, s.err == NoError && !s.crash, s.tx.nonce in At(s.room.pending, s.tx.from), b1, b, now)
    ensures StepBeats(s, b0, b, now)
  {
  }

  /** The heartbeat of `a` after some steps. */
  ghost function PulseBy(steps: seq<Addition>, a: Address, pulse: Option<nat>, now: nat): Option<nat> {
    if steps == [] then pulse
    else PulseStep(steps[|steps| - 1], a, PulseBy(steps[..|steps| - 1], a, pulse, now), now)
  }

  ghost predicate QuietSteps(steps: seq<Addition>, a: Address) {
    forall i :: 0 <= i < |steps| ==> Quiet(steps[i].drop, a)
  }

  /** Every heartbeat is of before or of now, and for accounts none of whose transactions are dropped it is as `PulseBy`
      says. */
  ghost predicate HeardBy(steps: seq<Addition>, b0: Beats, b: Beats, now: nat) {
    forall a {:trigger Holder(a)} :: Holder(a) ==>
      && Pulse(b, a) in {None, Some(now), Pulse(b0, a)}
      && (QuietSteps(steps, a) ==> Pulse(b, a) == PulseBy(steps, a, Pulse(b0, a), now))
  }

  lemma HeardNone(b: Beats, now: nat)
    ensures HeardBy([], b, b, now)
  {
  }

  lemma HeardNext(steps: seq<Addition>, s: Addition, b0: Beats, b: Beats, b': Beats, now: nat)
    requires HeardBy(steps, b0, b, now) && StepBeats(s, b, b', now)
    ensures HeardBy(steps + [s], b0, b', now)
  {
    var steps', n := steps + [s], |steps|;
    assert steps'[..n] == steps && steps'[n] == s;
    forall a | Holder(a) && QuietSteps(steps', a) ensures QuietSteps(steps, a) && Quiet(s.drop, a) {
      assert Quiet(steps'[n].drop, a);
      forall i | 0 <= i < n ensures Quiet(steps[i].drop, a) {
        assert Quiet(steps'[i].drop, a);
      }
    }
  }

  /** The step brings a transaction of `a` into the pool, in the place of a pending one if that is asked for. */
  ghost predicate Brings(s: Addition, a: Address, swap: bool) {
    s.tx.from == a && s.err == NoError && !s.crash && (swap ==> s.tx.nonce in At(s.room.pending, a))
  }

  ghost predicate SomeBrings(steps: seq<Addition>, a: Address, swap: bool) {
    exists i :: 0 <= i < |steps| && Brings(steps[i], a, swap)
  }

  lemma BringsNext(steps: seq<Addition>, a: Address, swap: bool)
    requires steps != []
    ensures var n := |steps| - 1;
            SomeBrings(steps, a, swap) <==> SomeBrings(steps[..n], a, swap) || Brings(steps[n], a, swap)
  {
    var n := |steps| - 1;
    if SomeBrings(steps[..n], a, swap) {
      var i :| 0 <= i < n && Brings(steps[..n][i], a, swap);
      assert Brings(steps[i], a, swap);
    }
    if SomeBrings(steps, a, swap) && !Brings(steps[n], a, swap) {
      var i :| 0 <= i < |steps| && Brings(steps[i], a, swap);
      assert Brings(steps[..n][i], a, swap);
    }
  }

  /** Over steps that drop none of its transactions, an account is heard of when one of them replaces a pending
      transaction of it, and else when one joins its queue and it was not heard of before. */
  lemma {:induction false} HeardOf(steps: seq<Addition>, a: Address, pulse: Option<nat>, now: nat)
    ensures PulseBy(steps, a, pulse, now) ==
            if SomeBrings(steps, a, true) || (SomeBrings(steps, a, false) && pulse == None) then Some(now) else pulse
  {
    if steps == [] {
    } else {
      HeardOf(steps[..|steps| - 1], a, pulse, now);
      BringsNext(steps, a, true);
      BringsNext(steps, a, false);
    }
  }

  /** Heartbeats go with the queues that are emptied, and no others change; no empty queue gets something. */
  ghost predicate Stills(q0: Lists, b0: Beats, q: Lists, b: Beats) {
    forall a {:trigger Holder(a)} :: Holder(a) ==>
      && (At(q0, a) == map[] ==> At(q, a) == map[])
      && Pulse(b, a) == if At(q0, a) != map[] && At(q, a) == map[] then None else Pulse(b0, a)
  }

  /** Promotion sets the heartbeat of an account that it promotes something of, and removes that of an account it
      leaves nothing queued for. */
  function PulseAfter(q: NonceMap, next: nat, state: State, a: Address, maxGas: nat, cap: Option<nat>, pulse: Option<nat>,
                      now: nat): Option<nat> {
    if q == map[] then pulse
    else if LeftQueued(q, next, state, a, maxGas, cap) == map[] then None
    else if Ready(StillPayable(q, state, a, maxGas), next) != map[] then Some(now)
    else pulse
  }

  /** The heartbeats after the promotion of `a`, if something was `moved` and something is `left`. */
  function Beaten(beats: Beats, a: Address, moved: bool, left: bool, now: nat): Beats {
    var b := if moved then beats[a := now] else beats;
    if left then b else b - {a}
  }

  lemma BeatenPulse(beats: Beats, p: NonceMap, q: NonceMap, next: nat, state: State, a: Address, maxGas: nat,
                    cap: Option<nat>, lo: nat, hi: nat, now: nat)
    requires q != map[] && IsRun(StillPayable(q, state, a, maxGas), next, lo, hi)
    ensures var beats' := Beaten(beats, a, lo < hi, LeftQueued(q, next, state, a, maxGas, cap) != map[], now);
            && Pulse(beats', a) == PulseAfter(q, next, state, a, maxGas, cap, Pulse(beats, a), now)
            && forall b :: b != a ==> Pulse(beats', b) == Pulse(beats, b)
  {
    var run := Ready(StillPayable(q, state, a, maxGas), next);
    assert run == map[] <==> lo == hi by {
      assert lo < hi ==> lo in run;
    }
  }

  /** The heartbeats after transactions of `a` were put back into its queue. */
  function Touched(beats: Beats, a: Address, back: NonceMap, now: nat): Beats {
    if back != map[] && a !in beats then beats[a := now] else beats
  }

  lemma TouchedTwice(beats: Beats, m: NonceMap, state: State, a: Address, maxGas: nat, now: nat)
    ensures var cut, runs := CutOffBy(m, state, a, maxGas), Executable(m, state, a, maxGas);
            Touched(Touched(beats, a, cut, now), a, if state.Nonce(a) in runs then map[] else runs, now)
            == Touched(beats, a, Requeued(m, state, a, maxGas), now)
  {
    RequeuedNonces(m, state, a, maxGas);
  }

  /** The heartbeats after the promotion of the accounts of `done`. */
  ghost predicate Pulses(state: State, maxGas: nat, locals: set<Address>, limit: nat, now: nat, done: set<Address>,
                         q0: Lists, next0: Nexts, b0: Beats, b: Beats) {
    forall a {:trigger Holder(a)} :: Holder(a) ==>
      Pulse(b, a) == if a in done
                     then PulseAfter(At(q0, a), next0.Next(a), state, a, maxGas, QueueCap(locals, limit, a), Pulse(b0, a), now)
                     else Pulse(b0, a)
  }

  /** A second promotion does not touch the heartbeat. */
  lemma PulseStays(p0: NonceMap, q0: NonceMap, next0: nat, state: State, a: Address, maxGas: nat, cap: Option<nat>,
                   p: NonceMap, q: NonceMap, next: nat, pulse: Option<nat>, now: nat)
    requires IsPromoted(p0, q0, next0, state, a, maxGas, cap, p, q, next)
    ensures PulseAfter(q, next, state, a, maxGas, cap, pulse, now) == pulse
  {
    PromotedStays(p0, q0, next0, state, a, maxGas, cap, p, q, next);
  }

  lemma PulsesNext(state: State, maxGas: nat, locals: set<Address>, limit: nat, now: nat, done: set<Address>, p0: Lists,
                   q0: Lists, next0: Nexts, b0: Beats, p: Lists, q: Lists, next: Nexts, b: Beats, a: Address, b': Beats)
    requires Promotes(state, maxGas, locals, limit, done, p0, q0, next0, p, q, next)
    requires Pulses(state, maxGas, locals, limit, now, done, q0, next0, b0, b)
    requires Pulse(b', a) == PulseAfter(At(q, a), next.Next(a), state, a, maxGas, QueueCap(locals, limit, a), Pulse(b, a), now)
    requires forall c :: c != a ==> Pulse(b', c) == Pulse(b, c)
    ensures Pulses(state, maxGas, locals, limit, now, done + {a}, q0, next0, b0, b')
  {
    assert Holder(a);
    if a in done {
      PulseStays(At(p0, a), At(q0, a), next0.Next(a), state, a, maxGas, QueueCap(locals, limit, a), At(p, a), At(q, a),
                 next.Next(a), Pulse(b, a), now);
    }
  }

  /** Clean-up revives the heartbeat of an account that it puts something back into the queue of; the accounts of `todo`
      are still to be cleaned up. */
  ghost predicate Revives(state: State, maxGas: nat, now: nat, todo: set<Address>, p0: Lists, b0: Beats, b: Beats) {
    forall a {:trigger Holder(a)} :: Holder(a) ==>
      Pulse(b, a) == if a in todo || Requeued(At(p0, a), state, a, maxGas) == map[] then Pulse(b0, a)
                     else Revived(Pulse(b0, a), now)
  }

  lemma RevivesNone(state: State, maxGas: nat, now: nat, p0: Lists, b0: Beats)
    ensures Revives(state, maxGas, now, Accounts(p0), p0, b0, b0)
  {
    forall a | a !in Accounts(p0) ensures Requeued(At(p0, a), state, a, maxGas) == map[] {
    }
  }

  lemma RevivesNext(state: State, maxGas: nat, now: nat, todo: set<Address>, p0: Lists, p: Lists, b0: Beats, b: Beats,
                    a: Address, b': Beats)
    requires Revives(state, maxGas, now, todo, p0, b0, b) && a in todo && At(p, a) == At(p0, a)
    requires b' == Touched(b, a, Requeued(At(p, a), state, a, maxGas), now)
    ensures Revives(state, maxGas, now, todo - {a}, p0, b0, b')
  {
    assert Holder(a);
  }

  /** The heartbeat of an account after promotion and clean-up. */
  function PulseReady(reset: bool, dirty: bool, p: NonceMap, q: NonceMap, next: nat, state: State, a: Address, maxGas: nat,
                      cap: Option<nat>, pulse: Option<nat>, now: nat): Option<nat> {
    var promoted := if reset || dirty then PulseAfter(q, next, state, a, maxGas, cap, pulse, now) else pulse;
    if reset && Requeued(Promoted(p, q, next, state, a, maxGas), state, a, maxGas) != map[] then Revived(promoted, now)
    else promoted
  }

  ghost predicate BeatsAt(reset: bool, dirty: set<Address>, state: State, maxGas: nat, limit: nat, now: nat,
                          t: Reorganization, b: Beats, a: Address) {
    Pulse(b, a) == PulseReady(reset, a in dirty, At(t.mid.pending, a), At(t.mid.queue, a), t.next.Next(a), state, a, maxGas,
                              QueueCap(t.mid.locals, limit, a), Pulse(t.beats, a), now)
  }

  /** The heartbeats by which the queues are cut; guarded as `Agree` is. */
  ghost predicate BeatsBy(reset: bool, dirty: set<Address>, state: State, maxGas: nat, limit: nat, now: nat,
                          t: Reorganization, b: Beats) {
    forall k {:trigger Open(k)} :: Open(k) ==> forall a :: BeatsAt(reset, dirty, state, maxGas, limit, now, t, b, a)
  }

  lemma PromotionBeats(state: State, maxGas: nat, limit: nat, now: nat, dirty: set<Address>, t: Reorganization, b: Beats)
    requires Pulses(state, maxGas, t.mid.locals, limit, now, dirty, t.mid.queue, t.next, t.beats, b)
    ensures BeatsBy(false, dirty, state, maxGas, limit, now, t, b)
  {
    forall a ensures BeatsAt(false, dirty, state, maxGas, limit, now, t, b, a) {
      assert Holder(a);
    }
  }

  lemma ResetBeats(state: State, maxGas: nat, limit: nat, now: nat, dirty: set<Address>, t: Reorganization, p: Lists,
                   q: Lists, next: Nexts, b: Beats, b': Beats)
    requires Promotes(state, maxGas, t.mid.locals, limit, Accounts(t.mid.queue), t.mid.pending, t.mid.queue, t.next, p, q,
                      next)
    requires Pulses(state, maxGas, t.mid.locals, limit, now, Accounts(t.mid.queue), t.mid.queue, t.next, t.beats, b)
    requires Revives(state, maxGas, now, {}, p, b, b')
    ensures BeatsBy(true, dirty, state, maxGas, limit, now, t, b')
  {
    forall a ensures BeatsAt(true, dirty, state, maxGas, limit, now, t, b', a) {
      assert Holder(a);
      ProgressAnyway(a in Accounts(t.mid.queue), At(t.mid.pending, a), At(t.mid.queue, a), t.next.Next(a), state, a, maxGas,
                     QueueCap(t.mid.locals, limit, a), At(p, a), At(q, a), next.Next(a));
    }
  }

  ghost predicate PromotingInFull(all: Lookup, p: Lists, q: Lists, next: Nexts, b: Beats, a: Address, readies: NonceMap,
                                  lo: nat, n: nat, now: nat, p0: Lists, next0: Nexts, b0: Beats) {
    && Agree(all, p, q, RestOf(a, readies, n)) && p == Merge(p0, a, Below(readies, n))
    && (forall c :: next.Next(c) == if c == a && lo < n then n else next0.Next(c))
    && b == (if lo < n then b0[a := now] else b0) && (forall c :: c in q ==> c in b)
  }

  /** The part below `n` of a run `readies` that starts at `lo` has been promoted; guarded, by `Inside`,
      as `Agree` is. */
  ghost predicate Promoting(all: Lookup, p: Lists, q: Lists, next: Nexts, b: Beats, a: Address, readies: NonceMap, lo: nat,
                            n: nat, now: nat, p0: Lists, next0: Nexts, b0: Beats) {
    forall k {:trigger Inside(k)} :: Inside(k) ==>
      PromotingInFull(all, p, q, next, b, a, readies, lo, n, now, p0, next0, b0)
  }

  lemma StartPromoting(all: Lookup, p: Lists, q: Lists, next: Nexts, b: Beats, a: Address, readies: NonceMap, lo: nat,
                       hi: nat, now: nat)
    requires Agree(all, p, q, map[a := readies]) && Interval(readies, lo, hi) && forall c :: c in q ==> c in b
    ensures Promoting(all, p, q, next, b, a, readies, lo, lo, now, p, next, b)
  {
    RunStarts(p, a, readies, lo, hi);
  }

  lemma EndPromoting(all: Lookup, p: Lists, q: Lists, next: Nexts, b: Beats, a: Address, readies: NonceMap, lo: nat, hi: nat,
                     now: nat, p0: Lists, next0: Nexts, b0: Beats)
    requires Promoting(all, p, q, next, b, a, readies, lo, hi, now, p0, next0, b0) && Interval(readies, lo, hi)
    ensures Agree(all, p, q, map[]) && p == Merge(p0, a, readies) && forall c :: c in q ==> c in b
    ensures forall c :: next.Next(c) == if c == a && lo < hi then hi else next0.Next(c)
    ensures b == if lo < hi then b0[a := now] else b0
  {
    assert Inside(0);
    RunEdges(readies, lo, hi);
    SameLoose(all, p, q, RestOf(a, readies, hi), map[]);
  }
}
