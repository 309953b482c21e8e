/** What the operations of the transaction pool do to lists, nonces and prices, as values. */
module PoolSteps {
  import opened Basics
  import opened Transactions
  import opened NonceMaps
  import opened TxLists
  import opened TxPricing
  import opened PoolViews
  import opened TxNoncers
  import opened Fairness

  /** Durations, in nanoseconds. */
  const SECOND: int := 1_000_000_000
  const HOUR: int := 3600 * SECOND

  datatype Config = Config(
    rejournal: int, priceLimit: nat, priceBump: nat, accountSlots: nat, globalSlots: nat, accountQueue: nat,
    globalQueue: nat, lifetime: int)
  {
    predicate Usable() {
      && SECOND <= rejournal && 1 <= priceLimit && 1 <= priceBump && 1 <= accountSlots && 1 <= globalSlots
      && 1 <= accountQueue && 1 <= globalQueue && 1 <= lifetime
    }

    /** Every setting is that of `c`, or one of `c` that is not usable. */
    ghost predicate Repairs(c: Config) {
      && (rejournal == c.rejournal || c.rejournal < SECOND) && (priceLimit == c.priceLimit || c.priceLimit < 1)
      && (priceBump == c.priceBump || c.priceBump < 1) && (accountSlots == c.accountSlots || c.accountSlots < 1)
      && (globalSlots == c.globalSlots || c.globalSlots < 1) && (accountQueue == c.accountQueue || c.accountQueue < 1)
      && (globalQueue == c.globalQueue || c.globalQueue < 1) && (lifetime == c.lifetime || c.lifetime < 1)
    }

    /** Replaces unusable settings by defaults, and only these. */
    function Sanitize(): (c: Config)
      ensures c.Usable() && c.Repairs(this)
    {
      Config(if rejournal < SECOND then SECOND else rejournal,
             if priceLimit < 1 then 1 else priceLimit,
             if priceBump < 1 then 10 else priceBump,
             if accountSlots < 1 then 16 else accountSlots,
             if globalSlots < 1 then 4096 else globalSlots,
             if accountQueue < 1 then 64 else accountQueue,
             if globalQueue < 1 then 1024 else globalQueue,
             if lifetime < 1 then 3 * HOUR else lifetime)
    }
  }

  /** The defaults, and that a second look changes nothing. */
  lemma SanitizedOnce(c: Config)
    ensures c.Sanitize().Sanitize() == c.Sanitize()
    ensures c == Config(0, 0, 0, 0, 0, 0, 0, 0) ==> c.Sanitize() == Config(SECOND, 1, 10, 16, 4096, 64, 1024, 3 * HOUR)
  {
  }

  datatype TxError =
    | NoError | AlreadyKnown | OversizedData | NegativeValue | GasLimit | InvalidSender | Underpriced
    | NonceTooLow | InsufficientFunds | GasUintOverflow | IntrinsicGasTooLow | ReplaceUnderpriced

  /** The nonces held are exactly those from `lo` up to, but not including, `hi`. */
  ghost predicate Interval(m: NonceMap, lo: nat, hi: nat) {
    lo <= hi && forall n :: n in m <==> lo <= n < hi
  }

  /** All transactions are among the `accepted` ones, and are local or bid at least `price`. */
  ghost predicate AdmittedInFull(all: Lookup, accepted: set<Hash>, locals: set<Address>, price: nat) {
    forall h :: h in all ==> h in accepted && (IsLocal(h.tx, locals) || price <= h.tx.gasPrice)
  }

  /** The same, guarded as `Agree` is. */
  ghost predicate Admitted(all: Lookup, accepted: set<Hash>, locals: set<Address>, price: nat) {
    forall k {:trigger Open(k)} :: Open(k) ==> AdmittedInFull(all, accepted, locals, price)
  }

  lemma ExpandAdmitted(all: Lookup, accepted: set<Hash>, locals: set<Address>, price: nat)
    ensures Admitted(all, accepted, locals, price) <==> AdmittedInFull(all, accepted, locals, price)
  {
    assert Open(0);
  }

  /** The slots a pool over its limit is short of, if `tx` joins. */
  function Excess(slots: nat, limit: nat, tx: Transaction): nat {
    if slots < limit then 0 else slots - limit + NumSlots(tx)
  }

  lemma OneMoreAdmitted(all: Lookup, tx: Transaction, all': Lookup, accepted: set<Hash>, locals: set<Address>,
                        locals': set<Address>, price: nat)
    requires Admitted(all, accepted, locals, price) && locals <= locals' && (tx.from in locals' || price <= tx.gasPrice)
    requires tx.signed && forall h :: h in all' ==> h in all || h == tx.Hash()
    ensures Admitted(all', accepted + {tx.Hash()}, locals', price)
  {
    ExpandAdmitted(all, accepted, locals, price);
  }

  lemma FewerAdmitted(all: Lookup, all': Lookup, accepted: set<Hash>, locals: set<Address>, price: nat)
    requires forall h :: h in all' ==> h in all
    ensures Admitted(all, accepted, locals, price) ==> Admitted(all', accepted, locals, price)
  {
    assert Open(0);
  }

  /** `h` is one of the transactions that were added without an error. */
  ghost predicate Accepted(txs: seq<Transaction>, errs: seq<TxError>, h: Hash) {
    exists i :: 0 <= i < |errs| && i < |txs| && errs[i] == NoError && txs[i].Hash() == h
  }

  /** What the screening before the lock says of a transaction. */
  ghost function Screened(known: Lookup, tx: Transaction): TxError {
    if tx.Hash() in known then AlreadyKnown else if !tx.signed then InvalidSender else NoError
  }

  /** `open` are, in order, the positions of the transactions that pass the screening. */
  ghost predicate OpenSlots(known: Lookup, txs: seq<Transaction>, open: seq<nat>) {
    && (forall k, j :: 0 <= k < j < |open| ==> open[k] < open[j])
    && (forall i: nat :: i in open <==> i < |txs| && Screened(known, txs[i]) == NoError)
  }

  /** Every transaction has its own error: that of the screening, or that of its addition. */
  ghost predicate Aligned(known: Lookup, txs: seq<Transaction>, errs: seq<TxError>, open: seq<nat>,
                          results: seq<TxError>) {
    && |errs| == |txs| && |results| == |open|
    && (forall k :: 0 <= k < |open| ==> open[k] < |errs| && errs[open[k]] == results[k])
    && (forall i: nat :: i < |txs| && i !in open ==> errs[i] == Screened(known, txs[i]))
  }

  method Screen(known: Lookup, txs: seq<Transaction>)
    returns (errs: seq<TxError>, news: seq<Transaction>, ghost open: seq<nat>)
    ensures OpenSlots(known, txs, open) && |errs| == |txs| && |news| == |open|
    ensures forall i :: 0 <= i < |txs| ==> errs[i] == Screened(known, txs[i])
    ensures forall k :: 0 <= k < |open| ==> open[k] < |txs| && news[k] == txs[open[k]]
  {
    errs, news, open := [], [], [];
    for i := 0 to |txs|
      invariant |errs| == i && |news| == |open|
      invariant forall j :: 0 <= j < i ==> errs[j] == Screened(known, txs[j])
      invariant forall k :: 0 <= k < |open| ==> open[k] < i && news[k] == txs[open[k]]
      invariant forall k, j :: 0 <= k < j < |open| ==> open[k] < open[j]
      invariant forall j: nat :: j in open <==> j < i && Screened(known, txs[j]) == NoError
    {
      if txs[i].Hash() in known {
        errs := errs + [AlreadyKnown];
      } else if !txs[i].signed {
        errs := errs + [InvalidSender];
      } else {
        errs := errs + [NoError];
        news, open := news + [txs[i]], open + [i];
      }
    }
  }

  /** The first slot from `slot` on without an error; there is one at `open`. */
  method NextOpen(errs: seq<TxError>, slot: nat, ghost open: nat) returns (next: nat)
    requires slot <= open < |errs| && errs[open] == NoError
    ensures slot <= next <= open && errs[next] == NoError
    ensures forall i :: slot <= i < next ==> errs[i] != NoError
  {
    next := slot;
    while errs[next] != NoError
      invariant slot <= next <= open && forall i :: slot <= i < next ==> errs[i] != NoError
      decreases open - next
    {
      next := next + 1;
    }
  }

  /** Fills the results of the additions into the slots left open by the screening. */
  method PlaceErrors(ghost known: Lookup, ghost txs: seq<Transaction>, errs0: seq<TxError>, results: seq<TxError>,
                     ghost open: seq<nat>)
    returns (errs: seq<TxError>)
    requires OpenSlots(known, txs, open) && |errs0| == |txs| && |results| == |open|
    requires forall i :: 0 <= i < |txs| ==> errs0[i] == Screened(known, txs[i])
    ensures Aligned(known, txs, errs, open, results)
  {
    errs := errs0;
    var slot := 0;
    for k := 0 to |results|
      invariant |errs| == |txs| && 0 <= slot && (k < |open| ==> slot <= open[k])
      invariant forall i :: 0 <= i < k ==> open[i] < slot && open[i] < |errs| && errs[open[i]] == results[i]
      invariant forall i: nat :: i < |txs| && (slot <= i || i !in open) ==> errs[i] == Screened(known, txs[i])
    {
      assert open[k] in open;
      slot := NextOpen(errs, slot, open[k]);
      assert slot == open[k] by {
        if slot < open[k] {
          assert slot in open;
          var j :| 0 <= j < |open| && open[j] == slot;
        }
      }
      errs := errs[slot := results[k]];
      slot := slot + 1;
    }
  }

  /** A reset to the state of a new head, which brings back transactions of blocks that left the chain; or one
      that is abandoned because a block or the state is missing. */
  datatype ResetRequest =
    | ResetTo(state: State, maxGas: nat, istanbul: bool, reinject: seq<Transaction>)
    | Abandoned

  datatype Operation =
    | AddMany(txs: seq<Transaction>, local: bool, now: nat)
    | Reorganize(reset: Option<ResetRequest>, dirty: set<Address>, now: nat)
    | Reprice(price: nat, now: nat)
    | EvictIdle(now: nat)

  /** A reset that takes place. */
  predicate IsReset(reset: Option<ResetRequest>) {
    reset.Some? && reset.value.ResetTo?
  }

  function Reinjected(reset: Option<ResetRequest>): seq<Transaction> {
    if IsReset(reset) then reset.value.reinject else []
  }

  /** The transactions an operation brings. */
  function Brought(op: Operation): seq<Transaction> {
    match op
    case AddMany(txs, _, _) => txs
    case Reorganize(reset, _, _) => Reinjected(reset)
    case _ => []
  }

  function Senders(txs: seq<Transaction>): (s: set<Address>)
    ensures forall tx :: tx in txs ==> tx.from in s
  {
    set tx | tx in txs :: tx.from
  }

  /** The accounts for which something executable may be queued: those that an operation has added to, as `joined`
      says, since a reorganisation last promoted them.  A reset does not see to them. */
  function Due(ops: seq<Operation>, joined: seq<set<Address>>, due: set<Address>): set<Address>
    requires |joined| == |ops|
  {
    if ops == [] then due
    else
      var n := |ops| - 1;
      var before := Due(ops[..n], joined[..n], due);
      match ops[n]
      case AddMany(_, _, _) => before + joined[n]
      case Reorganize(None, dirty, _) => before - dirty
      case _ => before
  }

  lemma DueNext(ops: seq<Operation>, i: nat, joined: seq<set<Address>>, due: set<Address>, more: set<Address>)
    requires i < |ops| && |joined| == i
    ensures var before := Due(ops[..i], joined, due);
            Due(ops[..i + 1], joined + [more], due) ==
              match ops[i]
              case AddMany(_, _, _) => before + more
              case Reorganize(None, dirty, _) => before - dirty
              case _ => before
  {
    assert ops[..i + 1][..i] == ops[..i] && (joined + [more])[..i] == joined;
  }

  /** One of the operations brings `tx`. */
  ghost predicate BroughtBy(ops: seq<Operation>, tx: Transaction) {
    exists i :: 0 <= i < |ops| && tx in Brought(ops[i])
  }

  ghost predicate LowersNoNonce(state: State, state': State) {
    forall a :: state.Nonce(a) <= state'.Nonce(a)
  }

  /** No reset, an abandoned one, or a reset to a state that lowers no nonce and with nothing to reinject, as to a child
      block. */
  ghost predicate KeepsContiguous(reset: Option<ResetRequest>, state: State) {
    IsReset(reset) ==> reset.value.reinject == [] && LowersNoNonce(state, reset.value.state)
  }

  function StateAfter(reset: Option<ResetRequest>, state: State): State {
    if IsReset(reset) then reset.value.state else state
  }

  /** Every reset of the run that takes place lowers no nonce and reinjects nothing. */
  ghost predicate Benign(ops: seq<Operation>, state: State) {
    ops == [] ||
    if ops[0].Reorganize? then
      && KeepsContiguous(ops[0].reset, state)
      && Benign(ops[1..], StateAfter(ops[0].reset, state))
    else Benign(ops[1..], state)
  }

  ghost predicate StagedList(m: NonceMap, state: State, a: Address, maxGas: nat, next: nat) {
    var live := AtLeast(m, state.Nonce(a));
    exists e: nat :: && Interval(live, state.Nonce(a), e)
                     && (next == state.Nonce(a)
                         || (next == e && forall n :: n in live ==> !Overspends(live[n], state.Balance(a), maxGas)))
  }

  lemma StageInterval(m: NonceMap, nonce: nat, next: nat, state: State, a: Address, maxGas: nat)
    requires Interval(m, nonce, next) && nonce <= state.Nonce(a)
    ensures StagedList(m, state, a, maxGas, state.Nonce(a))
  {
    var e := if next < state.Nonce(a) then state.Nonce(a) else next;
    assert Interval(AtLeast(m, state.Nonce(a)), state.Nonce(a), e);
  }

  lemma EmptyInterval(m: NonceMap, lo: nat, hi: nat)
    requires Interval(m, lo, hi)
    ensures lo < hi ==> m != map[]
  {
    assert lo in m <==> lo <= lo < hi;
  }

  /** A payable interval that ends at the virtual nonce. */
  lemma SolventIsStaged(m: NonceMap, state: State, a: Address, maxGas: nat, next: nat)
    requires Interval(m, state.Nonce(a), next) && forall n :: n in m ==> !Overspends(m[n], state.Balance(a), maxGas)
    ensures StagedList(m, state, a, maxGas, next)
  {
    assert AtLeast(m, state.Nonce(a)) == m;
  }

  ghost predicate SettledList(m: NonceMap, nonce: nat, next: nat) {
    Interval(m, nonce, next) || (next == nonce && exists e: nat :: Interval(m, nonce, e))
  }

  lemma SettledEnds(m: NonceMap, nonce: nat, next: nat, next': nat)
    requires SettledList(m, nonce, next)
    requires if m == map[] then next' == next else 0 < next' && IsHighest(m, next' - 1)
    ensures Interval(m, nonce, next')
  {
    var e: nat :| Interval(m, nonce, e) && (next == e || next == nonce);
    EmptyInterval(m, nonce, e);
    if m != map[] {
      assert next' in m <==> nonce <= next' < e;
    }
  }

  lemma HighestEnds(m: NonceMap, lo: nat, hi: nat, last: nat)
    requires Interval(m, lo, hi) && IsHighest(m, last)
    ensures hi == last + 1
  {
    assert last in m && (lo < hi ==> hi - 1 in m);
  }

  lemma IntervalShrinks(m: NonceMap, m': NonceMap, lo: nat, hi: nat, hi': nat)
    requires Interval(m, lo, hi) && Interval(m', lo, hi') && forall n :: n in m' ==> n in m
    ensures hi' <= hi
  {
    assert hi < hi' ==> (hi in m' <==> lo <= hi < hi');
  }

  /** The pending transactions of `a` that are neither stale, nor unpayable, nor behind an unpayable one. */
  function Executable(m: NonceMap, state: State, a: Address, maxGas: nat): NonceMap {
    var rest := AtLeast(m, state.Nonce(a));
    Kept(rest, Unpayable(rest, state.Balance(a), maxGas), true)
  }

  /** What stays pending: nothing, unless the first executable transaction has the state nonce. */
  function Demoted(m: NonceMap, state: State, a: Address, maxGas: nat): NonceMap {
    var kept := Executable(m, state, a, maxGas);
    if state.Nonce(a) in kept then kept else map[]
  }

  /** `q` holds payable transactions that are neither stale nor pending in `p`. */
  ghost predicate PromotableFrom(p: NonceMap, q: NonceMap, state: State, a: Address, maxGas: nat) {
    forall n :: n in q ==> state.Nonce(a) <= n && n !in p && !Overspends(q[n], state.Balance(a), maxGas)
  }

  lemma RunIsReady(m: NonceMap, next: nat, lo: nat, hi: nat)
    requires lo in m && lo <= next && lo < hi && hi !in m && forall n :: n in m ==> lo <= n
    requires forall n :: lo <= n < hi ==> n in m
    ensures Interval(Ready(m, next), lo, hi)
  {
    forall n | n in m ensures InRun(m, n) <==> n < hi {
      if hi < n { assert !(hi < lo); }
    }
  }

  lemma RestrictOne(m: NonceMap, todo: set<nat>, n: nat)
    requires n in todo && todo <= Keys(m)
    ensures n in Restrict(m, todo) && Restrict(m, todo) - {n} == Restrict(m, todo - {n})
  {
  }

  lemma OneHighest(m: NonceMap, h: nat, h': nat)
    requires IsHighest(m, h) && IsHighest(m, h')
    ensures h == h'
  {
  }

  /** The lowest `k` nonces are the lowest `k - 1` and one higher. */
  lemma NextHighest(m: NonceMap, k: nat, low: NonceMap, j: nat) returns (h: nat)
    requires 0 < k <= Size(m) && low == Lowest(m, k) && j == k - 1
    ensures IsHighest(low, h) && low - {h} == Lowest(m, j)
  {
    LowestSize(m, k);
    assert Keys(low) != {};
    h := HighestNonce(low);
    LowestButOne(low, h);
    LowestTwice(m, k, j);
  }

  ghost predicate TrimmedSoFar(p: Lists, p': Lists, done: seq<Address>, level: nat) {
    forall a :: At(p', a) == if a in done then Lowest(At(p, a), level) else At(p, a)
  }

  lemma NextOffender(p: Lists, p': Lists, offenders: seq<Address>, i: nat, level: nat)
    requires 2 <= level && i < |offenders| && Accounts(p') == Accounts(p) && TrimmedSoFar(p, p', offenders[..i], level - 1)
    requires forall i, j :: 0 <= i < j < |offenders| ==> offenders[i] != offenders[j]
    requires forall a :: a in offenders ==> a in p && Size(p[a]) == level
    ensures offenders[i] in p' && p'[offenders[i]] == p[offenders[i]]
  {
    assert offenders[i] !in offenders[..i];
    assert offenders[i] in Accounts(p');
    assert At(p', offenders[i]) == At(p, offenders[i]);
  }

  lemma PassOne(p: Lists, before: Lists, offenders: seq<Address>, i: nat, level: nat, kept: NonceMap)
    requires 2 <= level && i < |offenders| && TrimmedSoFar(p, before, offenders[..i], level - 1)
    requires offenders[i] in before && before[offenders[i]] == At(p, offenders[i]) && Size(before[offenders[i]]) == level
    requires kept == Lowest(before[offenders[i]], level - 1) && Size(kept) == level - 1
    ensures var after := With(before, offenders[i], kept);
            && TrimmedSoFar(p, after, offenders[..i + 1], level - 1) && Accounts(after) == Accounts(before)
            && Total(after) == Total(before) - 1
  {
    TotalWith(before, offenders[i], kept);
    assert offenders[..i + 1] == offenders[..i] + [offenders[i]];
  }

  lemma OneCapped(m: NonceMap, kept: NonceMap, caps: NonceMap) returns (h: nat)
    requires 2 <= Size(m) && kept == Lowest(m, Size(m) - 1) && caps == Without(m, kept)
    ensures IsHighest(m, h) && kept == m - {h} && Size(caps) == 1 && (forall n :: n in caps <==> n == h)
    ensures kept != map[] && Size(kept) == Size(m) - 1
  {
    assert Keys(m) != {};
    h := HighestNonce(m);
    LowestButOne(m, h);
    assert Keys(caps) == {h};
    assert Keys(kept) != {};
  }

  /** An interval that loses its last nonce stays one. */
  lemma TrimKeeps(m: NonceMap, h: nat, nonce: nat, next: nat)
    requires IsHighest(m, h) && 2 <= Size(m)
    ensures var next' := if h < next then h else next;
            && (Interval(m, nonce, next) ==> Interval(m - {h}, nonce, next'))
            && (SettledList(m, nonce, next) ==> SettledList(m - {h}, nonce, next'))
  {
    if SettledList(m, nonce, next) {
      var e: nat :| Interval(m, nonce, e) && (next == e || next == nonce);
      assert h + 1 in m <==> nonce <= h + 1 < e;
      assert e == h + 1 && Interval(m - {h}, nonce, h);
    }
  }

  lemma FirstUnpayable(bad: NonceMap) returns (k: nat)
    requires bad != map[]
    ensures k in bad && forall n :: n in bad ==> k <= n
  {
    var n :| n in bad;
    k := 0;
    while k !in bad
      invariant k <= n && forall j :: j in bad ==> k <= j
      decreases n - k
    {
      k := k + 1;
    }
  }

  /** Cleaning up a staged list leaves an interval. */
  lemma StagedSettles(m: NonceMap, state: State, a: Address, maxGas: nat, next: nat)
    requires StagedList(m, state, a, maxGas, next)
    ensures SettledList(Demoted(m, state, a, maxGas), state.Nonce(a), next)
  {
    var s := state.Nonce(a);
    var live := AtLeast(m, s);
    var bad := Unpayable(live, state.Balance(a), maxGas);
    var e: nat :| Interval(live, s, e)
                  && (next == s || (next == e && forall n :: n in live ==> !Overspends(live[n], state.Balance(a), maxGas)));
    if bad == map[] {
      assert Kept(live, bad, true) == live;
      assert Interval(live, s, e);
    } else {
      var k := FirstUnpayable(bad);
      assert Interval(Kept(live, bad, true), s, k);
    }
  }

  /** What `a` can still pay for among its transactions that are not stale. */
  function StillPayable(m: NonceMap, state: State, a: Address, maxGas: nat): NonceMap {
    var rest := AtLeast(m, state.Nonce(a));
    Kept(rest, Unpayable(rest, state.Balance(a), maxGas), false)
  }

  /** Exactly what is not stale, fits into a block and takes no more ether than the sender has is still payable. */
  lemma PayableMeans(m: NonceMap, state: State, a: Address, maxGas: nat, n: nat)
    ensures n in StillPayable(m, state, a, maxGas) <==>
              && n in m && state.Nonce(a) <= n && m[n].gas <= maxGas
              && m[n].gasPrice * m[n].gas + m[n].value <= state.Balance(a)
  {
  }

  /** Clean-up leaves pending exactly what is not stale and neither unpayable nor behind something that is, if the
      account's next nonce is there. */
  lemma DemotedMeans(m: NonceMap, state: State, a: Address, maxGas: nat, n: nat)
    ensures n in Demoted(m, state, a, maxGas) <==>
              && n in m && state.Nonce(a) <= n && state.Nonce(a) in m
              && forall k :: state.Nonce(a) <= k <= n && k in m ==>
                   m[k].gas <= maxGas && m[k].gasPrice * m[k].gas + m[k].value <= state.Balance(a)
  {
    var first, rest := state.Nonce(a), AtLeast(m, state.Nonce(a));
    var bad := Unpayable(rest, state.Balance(a), maxGas);
    assert forall k :: k in bad <==> k in m && first <= k && Overspends(m[k], state.Balance(a), maxGas);
  }

  /** What clean-up puts back into the queue: what is still payable and does not stay pending. */
  function Requeued(m: NonceMap, state: State, a: Address, maxGas: nat): NonceMap {
    Without(StillPayable(m, state, a, maxGas), Demoted(m, state, a, maxGas))
  }

  /** What is cut off from a pending list by the first unpayable transaction. */
  function CutOffBy(m: NonceMap, state: State, a: Address, maxGas: nat): NonceMap {
    var rest := AtLeast(m, state.Nonce(a));
    CutOff(rest, Unpayable(rest, state.Balance(a), maxGas))
  }

  lemma RequeuedNonces(m: NonceMap, state: State, a: Address, maxGas: nat)
    ensures var runs := Executable(m, state, a, maxGas);
            Requeued(m, state, a, maxGas) ==
            CutOffBy(m, state, a, maxGas) + if state.Nonce(a) in runs then map[] else runs
  {
    var rest := AtLeast(m, state.Nonce(a));
    var drops := Unpayable(rest, state.Balance(a), maxGas);
    forall n | n in rest && n !in drops ensures n in Kept(rest, drops, true) <==> n !in CutOff(rest, drops) {
    }
  }

  lemma AddedTwice(m: NonceMap, m': NonceMap, m'': NonceMap)
    ensures m + m' + m'' == m + (m' + m'')
  {
  }

  lemma RequeuedParts(q: Lists, m: NonceMap, state: State, a: Address, maxGas: nat, gapped: NonceMap, q': Lists)
    requires var runs := Executable(m, state, a, maxGas); gapped == if state.Nonce(a) in runs then map[] else runs
    requires q' == Merge(Merge(q, a, CutOffBy(m, state, a, maxGas)), a, gapped)
    ensures At(q', a) == At(q, a) + Requeued(m, state, a, maxGas)
    ensures forall b :: b != a ==> At(q', b) == At(q, b)
  {
    RequeuedNonces(m, state, a, maxGas);
    AddedTwice(At(q, a), CutOffBy(m, state, a, maxGas), gapped);
  }

  /** Always true. What is said of every account is only used for those a proof mentions with it. */
  ghost predicate Holder(a: Address) {
    true
  }

  /** The lists of an account are cleaned up, or as they were. */
  ghost predicate CleanedUp(done: bool, p0: NonceMap, q0: NonceMap, state: State, a: Address, maxGas: nat, p: NonceMap,
                            q: NonceMap) {
    if done then p == Demoted(p0, state, a, maxGas) && q == q0 + Requeued(p0, state, a, maxGas) else p == p0 && q == q0
  }

  /** The lists of all accounts but those of `todo` are cleaned up. */
  ghost predicate CleansUp(state: State, maxGas: nat, todo: set<Address>, p0: Lists, q0: Lists, p: Lists, q: Lists) {
    forall a {:trigger Holder(a)} :: Holder(a) ==>
      CleanedUp(a !in todo, At(p0, a), At(q0, a), state, a, maxGas, At(p, a), At(q, a))
  }

  lemma CleansUpNone(state: State, maxGas: nat, p0: Lists, q0: Lists)
    ensures CleansUp(state, maxGas, Accounts(p0), p0, q0, p0, q0)
  {
    forall a | a !in Accounts(p0) ensures CleanedUp(true, At(p0, a), At(q0, a), state, a, maxGas, At(p0, a), At(q0, a)) {
      assert Demoted(map[], state, a, maxGas) == map[] == Requeued(map[], state, a, maxGas);
    }
  }

  lemma CleansUpNext(state: State, maxGas: nat, todo: set<Address>, p0: Lists, q0: Lists, p: Lists, q: Lists, a: Address,
                     p': Lists, q': Lists)
    requires CleansUp(state, maxGas, todo, p0, q0, p, q) && a in todo
    requires forall b :: b != a ==> At(p', b) == At(p, b) && At(q', b) == At(q, b)
    requires CleanedUp(true, At(p, a), At(q, a), state, a, maxGas, At(p', a), At(q', a))
    ensures CleansUp(state, maxGas, todo - {a}, p0, q0, p', q')
  {
    forall b | Holder(b) ensures CleanedUp(b !in todo - {a}, At(p0, b), At(q0, b), state, b, maxGas, At(p', b), At(q', b)) {
      assert CleanedUp(b !in todo, At(p0, b), At(q0, b), state, b, maxGas, At(p, b), At(q, b));
    }
  }

  lemma SplitsWithout(m: NonceMap, gone: NonceMap)
    requires forall n :: n in gone ==> n in m && gone[n] == m[n]
    ensures Splits(m, Without(m, gone), gone)
  {
  }

  lemma SplitsCutOff(m: NonceMap, gone: NonceMap)
    ensures Splits(Without(m, gone), Kept(m, gone, true), CutOff(m, gone))
  {
  }

  lemma SplitsAll(m: NonceMap)
    ensures Splits(m, map[], m)
  {
  }

  /** The nonces from `lo` up to `hi` are those that are ready. */
  ghost predicate IsRun(m: NonceMap, next: nat, lo: nat, hi: nat) {
    && Interval(Ready(m, next), lo, hi)
    && (lo < hi ==> lo <= next && lo in m && hi !in m && forall n :: n in m ==> lo <= n)
    && (lo == hi ==> forall n :: n in m ==> next < n)
  }

  /** The same while a reset is under way. */
  lemma RunStages(p: NonceMap, q: NonceMap, state: State, a: Address, maxGas: nat, next: nat, lo: nat, hi: nat)
    requires IsRun(q, next, lo, hi) && PromotableFrom(p, q, state, a, maxGas)
    requires StagedList(p, state, a, maxGas, next)
    ensures StagedList(p + Ready(q, next), state, a, maxGas, if lo < hi then hi else next)
  {
    var s := state.Nonce(a);
    var live, live' := AtLeast(p, s), AtLeast(p + Ready(q, next), s);
    var e: nat :| Interval(live, s, e)
                  && (next == s || (next == e && forall n :: n in live ==> !Overspends(live[n], state.Balance(a), maxGas)));
    if lo < hi {
      assert lo !in live;
      assert lo == e;
      forall n ensures n in live' <==> n in live || n in Ready(q, next) {}
      assert Interval(live', s, hi);
      assert forall n :: n in live' ==> !Overspends(live'[n], state.Balance(a), maxGas);
    } else {
      assert live' == live;
    }
  }

  /** What is left above a run starts beyond its end. */
  lemma RunDrains(q: NonceMap, next: nat, lo: nat, hi: nat, left: NonceMap)
    requires IsRun(q, next, lo, hi) && forall n :: n in left ==> n in q && n !in Ready(q, next)
    ensures forall n :: n in left ==> (if lo < hi then hi else next) < n
  {
  }

  /** What becomes ready follows the pending interval directly. */
  lemma RunExtends(p: NonceMap, q: NonceMap, state: State, a: Address, maxGas: nat, next: nat, lo: nat, hi: nat)
    requires IsRun(q, next, lo, hi) && PromotableFrom(p, q, state, a, maxGas)
    requires Interval(p, state.Nonce(a), next)
    ensures Interval(p + Ready(q, next), state.Nonce(a), if lo < hi then hi else next)
  {
    if lo < hi {
      assert lo == next;
    }
  }

  lemma RunKeeps(p: NonceMap, q: NonceMap, state: State, a: Address, maxGas: nat, next: nat, lo: nat, hi: nat)
    requires IsRun(q, next, lo, hi) && PromotableFrom(p, q, state, a, maxGas)
    ensures var next' := if lo < hi then hi else next;
            && (Interval(p, state.Nonce(a), next) ==> Interval(p + Ready(q, next), state.Nonce(a), next'))
            && (StagedList(p, state, a, maxGas, next) ==> StagedList(p + Ready(q, next), state, a, maxGas, next'))
  {
    if Interval(p, state.Nonce(a), next) {
      RunExtends(p, q, state, a, maxGas, next, lo, hi);
    }
    if StagedList(p, state, a, maxGas, next) {
      RunStages(p, q, state, a, maxGas, next, lo, hi);
    }
  }

  lemma PayableIsPromotable(p: NonceMap, list: NonceMap, state: State, a: Address, maxGas: nat)
    requires forall n :: n in p ==> n !in list
    ensures PromotableFrom(p, StillPayable(list, state, a, maxGas), state, a, maxGas)
  {
  }

  lemma SplitsByNonce(m: NonceMap, n: nat)
    ensures Splits(m, AtLeast(m, n), Below(m, n))
  {
  }

  lemma SplitsByPay(m: NonceMap, balance: int, maxGas: nat)
    ensures Splits(m, Kept(m, Unpayable(m, balance, maxGas), false), Unpayable(m, balance, maxGas))
  {
  }

  lemma SplitsByRank(m: NonceMap, k: nat)
    ensures Splits(m, Lowest(m, k), Without(m, Lowest(m, k)))
  {
  }

  lemma ListTidied(q: Lists, a: Address, m: NonceMap, m': NonceMap, m'': NonceMap, q': Lists)
    requires NoneEmpty(q) && q' == Tidy(With(With(With(q, a, m), a, m'), a, m''), a)
    ensures NoneEmpty(q') && At(q', a) == m'' && forall b :: b != a ==> At(q', b) == At(q, b)
  {
  }

  lemma OneFewer(m: NonceMap, n: nat)
    requires n in m
    ensures Size(AtLeast(m, n + 1)) < Size(AtLeast(m, n))
  {
    assert Keys(AtLeast(m, n)) == Keys(AtLeast(m, n + 1)) + {n};
  }

  method RunBounds(m: NonceMap, next: nat) returns (lo: nat, hi: nat)
    ensures IsRun(m, next, lo, hi)
  {
    lo := 0;
    while lo <= next && lo !in m
      invariant lo <= next + 1 && forall n :: n in m ==> lo <= n
    {
      lo := lo + 1;
    }
    hi := lo;
    if lo <= next {
      while hi in m
        invariant lo <= hi && forall n :: lo <= n < hi ==> n in m
        decreases Size(AtLeast(m, hi))
      {
        OneFewer(m, hi);
        hi := hi + 1;
      }
      RunIsReady(m, next, lo, hi);
    }
  }

  lemma RunEdges(m: NonceMap, lo: nat, hi: nat)
    requires Interval(m, lo, hi)
    ensures AtLeast(m, lo) == m && Below(m, lo) == map[] && AtLeast(m, hi) == map[] && Below(m, hi) == m
  {
  }

  /** Of the run `m`, what is left of it from nonce `n` on. */
  ghost function RestOf(a: Address, m: NonceMap, n: nat): Lists {
    map[a := AtLeast(m, n)]
  }

  lemma RunOne(all: Lookup, p: Lists, q: Lists, r: Lists, a: Address, readies: NonceMap, n: nat)
    requires Agree(all, p, q, r) && r == RestOf(a, readies, n) && n in readies
    ensures Held(r, readies[n]) && readies[n].from == a && readies[n].nonce == n
    ensures With(r, a, At(r, a) - {n}) == RestOf(a, readies, n + 1)
  {
    Expand(all, p, q, r);
    assert At(r, a)[n] == readies[n];
    assert AtLeast(readies, n) - {n} == AtLeast(readies, n + 1);
  }

  lemma RunStarts(p: Lists, a: Address, m: NonceMap, lo: nat, hi: nat)
    requires Interval(m, lo, hi)
    ensures RestOf(a, m, lo) == map[a := m] && Merge(p, a, Below(m, lo)) == p && Below(m, hi) == m
  {
    RunEdges(m, lo, hi);
  }

  lemma MergeNext(p: Lists, a: Address, m: NonceMap, n: nat)
    requires n in m
    ensures var p' := Merge(p, a, Below(m, n));
            With(p', a, At(p', a)[n := m[n]]) == Merge(p, a, Below(m, n + 1))
  {
    assert n in Below(m, n + 1);
    assert (At(p, a) + Below(m, n))[n := m[n]] == At(p, a) + Below(m, n + 1);
    if Below(m, n) == map[] {
      assert At(p, a) + Below(m, n) == At(p, a);
    }
  }

  ghost function NextAfter(p: Lists, tx: Transaction, a: Address, next: nat): nat {
    if a == tx.from && tx.nonce in At(p, a) && tx.nonce < next then tx.nonce else next
  }

  /** Removing a transaction and all after it from an interval leaves an interval. */
  lemma CutInterval(p: Lists, tx: Transaction, a: Address, lo: nat, hi: nat)
    requires Interval(At(p, a), lo, hi)
    ensures Interval(if tx.nonce in At(p, tx.from) then At(CutPending(p, tx), a) else At(p, a), lo, NextAfter(p, tx, a, hi))
  {
  }

  lemma RepricedAdmitted(all: Lookup, all': Lookup, accepted: set<Hash>, locals: set<Address>, price: nat, price': nat)
    requires Admitted(all, accepted, locals, price)
    requires forall h :: h in all' ==> h in all && (IsLocal(h.tx, locals) || price' <= h.tx.gasPrice)
    ensures Admitted(all', accepted, locals, price')
  {
    assert Open(0);
  }

  lemma DearerAdmitted(all: Lookup, accepted: set<Hash>, locals: set<Address>, price: nat, held: Transaction,
                       tx: Transaction)
    requires Admitted(all, accepted, locals, price) && held.Hash() in all
    requires held.from == tx.from && tx.signed && held.gasPrice < tx.gasPrice
    ensures Admitted((all - {held.Hash()})[tx.Hash() := tx], accepted + {tx.Hash()}, locals, price)
  {
    ExpandAdmitted(all, accepted, locals, price);
    assert held.Hash().tx == held && tx.Hash().tx == tx;
  }

  lemma SameNonces(m: NonceMap, tx: Transaction)
    requires tx.nonce in m
    ensures m[tx.nonce := tx] != map[]
    ensures forall lo, hi :: Interval(m[tx.nonce := tx], lo, hi) <==> Interval(m, lo, hi)
  {
    assert forall n :: n in m[tx.nonce := tx] <==> n in m;
  }

  lemma NextDropped(drop: seq<Transaction>, i: nat, clean: bool)
    requires i < |drop| && (clean ==> NoDuplicates(multiset(drop)))
    ensures clean ==> drop[i] !in drop[..i]
  {
    if clean && drop[i] in drop[..i] {
      var j: nat :| j < i && drop[j] == drop[i];
      CountAtLeastTwo(drop, j, i);
    }
  }

  lemma StrictRemoval(all: Lookup, p: Lists, q: Lists, tx: Transaction)
    requires Agree(all, p, q, map[]) && Held(p, tx)
    ensures tx.Hash() in all
    ensures Agree(all - {tx.Hash()}, CutPending(p, tx), q,
                  map[tx.from := AtLeast(At(p, tx.from), tx.nonce + 1)])
  {
    var a, list := tx.from, At(p, tx.from);
    var gone, kept := AtLeast(list, tx.nonce), Below(list, tx.nonce);
    LoosenPending(all, p, q, map[], a, gone, kept);
    var p', r := With(p, a, kept), With(map[], a, gone);
    DropLoose(all, p', q, r, tx);
    assert gone - {tx.nonce} == AtLeast(list, tx.nonce + 1);
    SameLoose(all - {tx.Hash()}, p', q, With(r, a, gone - {tx.nonce}), map[a := AtLeast(list, tx.nonce + 1)]);
    SameLists(all - {tx.Hash()}, p', q, map[a := AtLeast(list, tx.nonce + 1)], Tidy(p', a), q);
  }

  lemma QueuedRemoval(all: Lookup, p: Lists, q: Lists, tx: Transaction)
    requires Agree(all, p, q, map[]) && Held(q, tx)
    ensures tx.Hash() in all
    ensures Agree(all - {tx.Hash()}, p, CutQueued(q, tx), map[])
  {
    var a, list := tx.from, At(q, tx.from);
    var gone := map[tx.nonce := tx];
    LoosenQueued(all, p, q, map[], a, gone, list - {tx.nonce});
    var r := With(map[], a, gone);
    DropLoose(all, p, With(q, a, list - {tx.nonce}), r, tx);
    assert gone - {tx.nonce} == map[];
    var q' := With(q, a, list - {tx.nonce});
    SameLoose(all - {tx.Hash()}, p, q', With(r, a, At(r, a) - {tx.nonce}), map[]);
    SameLists(all - {tx.Hash()}, p, q', map[], p, Tidy(q', a));
  }

  lemma MergeOne(q: Lists, a: Address, gone: NonceMap, todo: set<nat>, n: nat)
    requires n in todo && todo <= Keys(gone)
    ensures var q' := Merge(q, a, Without(gone, Restrict(gone, todo)));
            With(q', a, At(q', a)[n := gone[n]]) == Merge(q, a, Without(gone, Restrict(gone, todo - {n})))
  {
    var more, most := Without(gone, Restrict(gone, todo)), Without(gone, Restrict(gone, todo - {n}));
    assert n in most;
    assert (At(q, a) + more)[n := gone[n]] == At(q, a) + most;
    if more == map[] {
      assert At(q, a) + more == At(q, a);
    }
  }

  lemma LooseOne(all: Lookup, p: Lists, q: Lists, r: Lists, a: Address, gone: NonceMap, todo: set<nat>, n: nat)
    requires Agree(all, p, q, r) && r == map[a := Restrict(gone, todo)] && n in todo && n in gone
    ensures Held(r, gone[n]) && gone[n].from == a && gone[n].nonce == n && gone[n].Hash() in all
    ensures With(r, a, At(r, a) - {n}) == map[a := Restrict(gone, todo - {n})]
  {
    Expand(all, p, q, r);
    assert At(r, a)[n] == gone[n];
    assert gone[n].Hash().tx == gone[n];
    assert Restrict(gone, todo) - {n} == Restrict(gone, todo - {n});
  }
}
