/** What it takes to replace a transaction in the pool of core/tx_pool.go. */
module Replacements {
  import opened Basics
  import opened Transactions
  import opened NonceMaps
  import opened TxLists
  import opened PoolViews
  import opened PoolSteps
  import opened Additions

  /** `tx` is pending or queued. */
  ghost predicate Listed(v: Views, tx: Transaction) {
    Held(v.pending, tx) || Held(v.queue, tx)
  }

  /** `tx` is new, acceptable, and bids enough for a full pool. */
  ghost predicate Eligible(rules: Rules, local: bool, s: Addition) {
    && s.tx.Hash() !in s.before.all && rules.Accepts(s.tx, local, s.before.locals)
    && !BidsTooLittle(rules.Limit(), s.tx, local, s.before)
  }

  lemma ListedIsIndexed(v: Views, tx: Transaction)
    requires Agree(v.all, v.pending, v.queue, map[]) && Listed(v, tx)
    ensures tx.Hash() in v.all
  {
    Expand(v.all, v.pending, v.queue, map[]);
  }

  lemma MadeRoom(rules: Rules, local: bool, s: Addition, held: Transaction)
    requires Adds(rules, local, s) && !s.crash && Agree(s.before.all, s.before.pending, s.before.queue, map[])
    requires Listed(s.before, held) && held !in s.drop
    ensures Agree(s.room.all, s.room.pending, s.room.queue, map[]) && Listed(s.room, held)
  {
    assert Open(0);
    assert held.Hash() in s.before.all;
    IndexedIsListed(s.room.all, s.room.pending, s.room.queue, held.Hash());
  }

  lemma OnlyRival(s: Addition, held: Transaction)
    requires Agree(s.room.all, s.room.pending, s.room.queue, map[]) && Listed(s.room, held)
    requires held.from == s.tx.from && held.nonce == s.tx.nonce
    ensures Rival(s.tx, s.room) == Some(held)
  {
    NoncesApart(s.room.all, s.room.pending, s.room.queue, map[], s.tx.from);
  }

  lemma InsertionReplaces(bump: nat, tx: Transaction, local: bool, room: Views, err: TxError, replaced: bool, after: Views,
                          held: Transaction)
    requires Inserts(bump, tx, local, room, err, replaced, after) && Rival(tx, room) == Some(held)
    requires Agree(room.all, room.pending, room.queue, map[]) && tx != held && Listed(room, held)
    ensures replaced <==> held.gasPrice < tx.gasPrice && held.gasPrice * (100 + bump) < 100 * (tx.gasPrice + 1)
    ensures if replaced then err == NoError && Listed(after, tx) && !Listed(after, held)
            else err == ReplaceUnderpriced && after == room
  {
    assert Open(0);
    NoncesApart(room.all, room.pending, room.queue, map[], tx.from);
  }

  lemma RefusalReplacesNothing(rules: Rules, local: bool, s: Addition)
    requires Adds(rules, local, s) && !Eligible(rules, local, s)
    ensures s.err != NoError && s.err != ReplaceUnderpriced && !s.replaced && s.after == s.room
  {
    ExpandAdds(rules, local, s);
  }

  /** A transaction that holds a nonce, and is not dropped to make room, gives it up to an eligible transaction exactly
      if that bids more and, rounded down, at least the price bump more.  Otherwise it stays and the other is refused. */
  lemma ReplacementRule(rules: Rules, local: bool, s: Addition, held: Transaction)
    requires Adds(rules, local, s) && !s.crash && Agree(s.before.all, s.before.pending, s.before.queue, map[])
    requires Listed(s.before, held) && held !in s.drop && held.from == s.tx.from && held.nonce == s.tx.nonce
    ensures var outbid := held.gasPrice < s.tx.gasPrice
                          && held.gasPrice * (100 + rules.config.priceBump) < 100 * (s.tx.gasPrice + 1);
            && (s.replaced <==> Eligible(rules, local, s) && outbid)
            && (s.err == ReplaceUnderpriced <==> Eligible(rules, local, s) && !outbid)
            && (if s.replaced then s.err == NoError && Listed(s.after, s.tx) && !Listed(s.after, held)
                else s.err != NoError && Listed(s.after, held))
  {
    MadeRoom(rules, local, s, held);
    if Eligible(rules, local, s) {
      AcceptanceMakesRoom(rules, local, s);
      OnlyRival(s, held);
      ListedIsIndexed(s.before, held);
      InsertionReplaces(rules.config.priceBump, s.tx, local, s.room, s.err, s.replaced, s.after, held);
    } else {
      RefusalReplacesNothing(rules, local, s);
    }
  }

  function Power(base: nat, k: nat): nat {
    if k == 0 then 1 else base * Power(base, k - 1)
  }

  lemma Scales(c: nat, x: int, y: int)
    requires x <= y
    ensures c * x <= c * y
  {
  }

  /** What one replacement makes of a price, scaled and set off against the rounding. */
  lemma OneBump(price: nat, bid: nat, bump: nat)
    requires price * (100 + bump) < 100 * (bid + 1)
    ensures (100 + bump) * (bump * price - 100) <= 100 * (bump * bid - 100)
  {
    calc {
      100 * (bump * bid - 100);
    ==
      bump * (100 * bid) - 10000;
    >= { assert price * (100 + bump) - 99 <= 100 * bid; Scales(bump, price * (100 + bump) - 99, 100 * bid); }
      bump * (price * (100 + bump) - 99) - 10000;
    ==
      bump * (price * (100 + bump)) - bump * 99 - 10000;
    >=
      bump * (price * (100 + bump)) - bump * 100 - 10000;
    ==
      (100 + bump) * (bump * price - 100);
    }
  }

  /** The transaction that holds a nonce after `steps`, each of which replaced it. */
  function LastHeld(steps: seq<Addition>, held: Transaction): Transaction {
    if steps == [] then held else steps[|steps| - 1].tx
  }

  /** The first step replaces `held`, and every other one what the step before it brought. */
  ghost predicate Replace(bump: nat, rules: seq<Rules>, local: seq<bool>, steps: seq<Addition>, held: Transaction) {
    && |rules| == |local| == |steps|
    && (steps == []
        || var k := |steps| - 1;
           && Adds(rules[k], local[k], steps[k]) && rules[k].config.priceBump == bump && !steps[k].crash
           && steps[k].replaced && Rival(steps[k].tx, steps[k].room) == Some(LastHeld(steps[..k], held))
           && Replace(bump, rules[..k], local[..k], steps[..k], held))
  }

  lemma ReplacementBids(rules: Rules, local: bool, s: Addition, held: Transaction)
    requires Adds(rules, local, s) && !s.crash && s.replaced && Rival(s.tx, s.room) == Some(held)
    ensures held.gasPrice < s.tx.gasPrice
    ensures held.gasPrice * (100 + rules.config.priceBump) < 100 * (s.tx.gasPrice + 1)
  {
    assert Open(0);
  }

  lemma Compound(a: nat, b: nat, x: int, y: int, z: int, bump: nat)
    requires b * x <= a * y && (100 + bump) * y <= 100 * z
    ensures (100 + bump) * b * x <= 100 * a * z
  {
    calc {
      (100 + bump) * b * x;
    ==
      (100 + bump) * (b * x);
    <= { Scales(100 + bump, b * x, a * y); }
      (100 + bump) * (a * y);
    ==
      a * ((100 + bump) * y);
    <= { Scales(a, (100 + bump) * y, 100 * z); }
      a * (100 * z);
    ==
      100 * a * z;
    }
  }

  /** However far apart they are and whatever rules they meet, k replacements of one nonce raise the price by at least
      k, and its excess over 100 / bump at least (1 + bump / 100) to the k fold. */
  lemma {:induction false} ReplacementsCompound(bump: nat, rules: seq<Rules>, local: seq<bool>, steps: seq<Addition>,
                                                held: Transaction)
    requires Replace(bump, rules, local, steps, held)
    ensures var k, bid := |steps|, LastHeld(steps, held).gasPrice;
            && held.gasPrice + k <= bid
            && Power(100 + bump, k) * (bump * held.gasPrice - 100) <= Power(100, k) * (bump * bid - 100)
  {
    if steps == [] {
    } else {
      var k := |steps| - 1;
      var prev := LastHeld(steps[..k], held);
      ReplacementsCompound(bump, rules[..k], local[..k], steps[..k], held);
      ReplacementBids(rules[k], local[k], steps[k], prev);
      OneBump(prev.gasPrice, steps[k].tx.gasPrice, bump);
      Compound(Power(100, k), Power(100 + bump, k), bump * held.gasPrice - 100, bump * prev.gasPrice - 100,
               bump * steps[k].tx.gasPrice - 100, bump);
    }
  }
}
