/** The arithmetic of fairness among accounts: how many transactions lists hold, and trimming them to a level. */
module Fairness {
  import opened Basics
  import opened Transactions
  import opened NonceMaps
  import opened PoolViews

  /** The accounts that have a list. */
  function Accounts(p: Lists): (s: set<Address>)
    ensures forall a :: a in s <==> a in p
  {
    set a | a in p
  }

  /** The number of transactions in the lists of `s`. */
  ghost function TotalOf(p: Lists, s: set<Address>): nat {
    if s == {} then 0 else var a :| a in s; Size(At(p, a)) + TotalOf(p, s - {a})
  }

  ghost function Total(p: Lists): nat {
    TotalOf(p, Accounts(p))
  }

  lemma {:induction false} TotalOfWithout(p: Lists, s: set<Address>, a: Address)
    requires a in s
    ensures TotalOf(p, s) == Size(At(p, a)) + TotalOf(p, s - {a})
  {
    var first :| first in s && TotalOf(p, s) == Size(At(p, first)) + TotalOf(p, s - {first});
    if first != a {
      TotalOfWithout(p, s - {first}, a);
      TotalOfWithout(p, s - {a}, first);
      assert s - {first} - {a} == s - {a} - {first};
    }
  }

  lemma {:induction false} SameTotal(p: Lists, p': Lists, s: set<Address>)
    requires forall a :: a in s ==> At(p, a) == At(p', a)
    ensures TotalOf(p, s) == TotalOf(p', s)
  {
    if s != {} {
      var a :| a in s;
      TotalOfWithout(p, s, a);
      TotalOfWithout(p', s, a);
      SameTotal(p, p', s - {a});
    }
  }

  /** Changing one list changes the total by the difference of its sizes. */
  lemma TotalWith(p: Lists, a: Address, m: NonceMap)
    requires a in p
    ensures Total(With(p, a, m)) == Total(p) - Size(p[a]) + Size(m)
  {
    var p', s := With(p, a, m), Accounts(p);
    assert Accounts(p') == s;
    TotalOfWithout(p, s, a);
    TotalOfWithout(p', s, a);
    SameTotal(p, p', s - {a});
  }

  lemma PartOfTotal(p: Lists, a: Address)
    requires a in p
    ensures Size(p[a]) <= Total(p)
  {
    TotalOfWithout(p, Accounts(p), a);
  }

  /** `p` is `p0` with every list that is not local cut down to its `level` lowest nonces. */
  ghost predicate Filled(p0: Lists, p: Lists, locals: set<Address>, level: nat) {
    forall a :: At(p, a) == if a in locals then At(p0, a) else Lowest(At(p0, a), level)
  }

  /** The accounts that the level cuts. */
  ghost function Cut(p0: Lists, locals: set<Address>, level: nat): (s: set<Address>)
    ensures forall a :: a in s <==> a in p0 && a !in locals && Size(p0[a]) > level
  {
    set a | a in p0 && a !in locals && Size(p0[a]) > level
  }

  /** A level no list exceeds cuts nothing. */
  lemma NothingCut(p: Lists, locals: set<Address>, level: nat)
    requires forall a :: a in p && a !in locals ==> Size(p[a]) <= level
    ensures Filled(p, p, locals, level) && Cut(p, locals, level) == {}
  {
    forall a ensures At(p, a) == if a in locals then At(p, a) else Lowest(At(p, a), level) {
      if a in p && a !in locals {
        LowestIsAll(p[a], level);
      }
    }
  }

  /** Shortening every list that reaches the level by one lowers the level by one. */
  lemma LevelFalls(p0: Lists, p: Lists, p': Lists, locals: set<Address>, level: nat)
    requires 0 < level && Filled(p0, p, locals, level)
    requires forall a :: At(p', a) == if a in Cut(p0, locals, level - 1) then Lowest(At(p, a), level - 1) else At(p, a)
    ensures Filled(p0, p', locals, level - 1)
  {
    forall a ensures At(p', a) == if a in locals then At(p0, a) else Lowest(At(p0, a), level - 1) {
      if a in Cut(p0, locals, level - 1) {
        LowestTwice(p0[a], level, level - 1);
      } else if a in p0 && a !in locals {
        LowestIsAll(p0[a], level - 1);
        LowestIsAll(p0[a], level);
      }
    }
  }

  lemma FilledSize(p0: Lists, p: Lists, locals: set<Address>, level: nat, a: Address)
    requires Filled(p0, p, locals, level) && a !in locals
    ensures Size(At(p, a)) == if level < Size(At(p0, a)) then level else Size(At(p0, a))
  {
    LowestSize(At(p0, a), level);
  }

  /** Lists cut to a level, with `count` transactions left: no more were removed than the limit asks for,
      because one level higher would exceed it. */
  ghost predicate AtLevel(p0: Lists, p: Lists, locals: set<Address>, level: nat, count: nat, limit: nat) {
    && Filled(p0, p, locals, level) && Accounts(p) == Accounts(p0) && count == Total(p)
    && (Cut(p0, locals, level) != {} ==> count + |Cut(p0, locals, level)| > limit)
  }

  lemma FilledFits(p0: Lists, p: Lists, locals: set<Address>, level: nat)
    requires Filled(p0, p, locals, level)
    ensures forall a :: a !in locals ==> Size(At(p, a)) <= level
  {
    forall a | a !in locals ensures Size(At(p, a)) <= level {
      if level < Size(At(p0, a)) {
        LowestSize(At(p0, a), level);
      } else {
        LowestIsAll(At(p0, a), level);
      }
    }
  }

  ghost predicate Distinct(s: seq<Address>) {
    forall i, j :: 0 <= i < j < |s| ==> s[i] != s[j]
  }

  lemma {:induction false} DistinctSize(s: seq<Address>, t: set<Address>)
    requires Distinct(s) && forall a :: a in s <==> a in t
    ensures |t| == |s|
  {
    if s != [] {
      var last := s[|s| - 1];
      assert s == s[..|s| - 1] + [last];
      DistinctSize(s[..|s| - 1], t - {last});
    }
  }

  /** `offenders` are the accounts whose lists reach the level; all others are within `threshold`. */
  ghost predicate Tallest(p0: Lists, locals: set<Address>, offenders: seq<Address>, threshold: nat, level: nat) {
    && Distinct(offenders) && threshold <= level
    && (forall a :: a in offenders ==> a in p0 && a !in locals && level <= Size(p0[a]))
    && (forall a :: a in p0 && a !in locals && a !in offenders ==> Size(p0[a]) <= threshold)
  }

  lemma TallestAreCut(p0: Lists, p: Lists, locals: set<Address>, offenders: seq<Address>, threshold: nat, level: nat)
    requires Tallest(p0, locals, offenders, threshold, level) && threshold < level
    requires Filled(p0, p, locals, level) && Accounts(p) == Accounts(p0)
    ensures forall a :: a in offenders <==> a in Cut(p0, locals, level - 1)
    ensures |Cut(p0, locals, level - 1)| == |offenders|
    ensures forall a :: a in offenders ==> a in p && Size(p[a]) == level
  {
    DistinctSize(offenders, Cut(p0, locals, level - 1));
    forall a | a in offenders ensures a in p && Size(p[a]) == level {
      assert a in Accounts(p);
      FilledSize(p0, p, locals, level, a);
    }
  }

  /** Trimming under way: the lists stand at `level`, which the tallest ones reach.  Guarded as `Agree` is. */
  ghost predicate Trimming(p0: Lists, p: Lists, locals: set<Address>, offenders: seq<Address>, threshold: nat,
                           level: nat, count: nat, limit: nat) {
    forall k {:trigger Open(k)} :: Open(k) ==>
      Tallest(p0, locals, offenders, threshold, level) && AtLevel(p0, p, locals, level, count, limit)
  }

  lemma ExpandTrimming(p0: Lists, p: Lists, locals: set<Address>, offenders: seq<Address>, threshold: nat,
                       level: nat, count: nat, limit: nat)
    ensures Trimming(p0, p, locals, offenders, threshold, level, count, limit) <==>
              Tallest(p0, locals, offenders, threshold, level) && AtLevel(p0, p, locals, level, count, limit)
  {
    assert Open(0);
  }

  /** Each of the tallest lists has exactly `level` transactions. */
  lemma OffenderSize(p0: Lists, p: Lists, locals: set<Address>, offenders: seq<Address>, threshold: nat,
                     level: nat, count: nat, limit: nat)
    requires Trimming(p0, p, locals, offenders, threshold, level, count, limit)
    ensures Distinct(offenders) && threshold <= level && count == Total(p)
    ensures forall a :: a in offenders ==> a in p && Size(p[a]) == level
  {
    ExpandTrimming(p0, p, locals, offenders, threshold, level, count, limit);
    forall a | a in offenders ensures a in p && Size(p[a]) == level {
      assert a in Accounts(p);
      FilledSize(p0, p, locals, level, a);
    }
  }

  /** A pass over the tallest lists lowers the level by one. */
  lemma PassLowers(p0: Lists, p: Lists, p': Lists, locals: set<Address>, offenders: seq<Address>, threshold: nat,
                   level: nat, count: nat, limit: nat, lower: nat, left: nat)
    requires Trimming(p0, p, locals, offenders, threshold, level, count, limit) && threshold < level && limit < count
    requires lower == level - 1 && left == count - |offenders|
    requires Accounts(p') == Accounts(p) && Total(p') == Total(p) - |offenders|
    requires forall a :: At(p', a) == if a in offenders then Lowest(At(p, a), level - 1) else At(p, a)
    ensures Trimming(p0, p', locals, offenders, threshold, lower, left, limit)
  {
    ExpandTrimming(p0, p, locals, offenders, threshold, level, count, limit);
    TallestAreCut(p0, p, locals, offenders, threshold, level);
    LevelFalls(p0, p, p', locals, level);
    ExpandTrimming(p0, p', locals, offenders, threshold, lower, left, limit);
  }

  /** The accounts above `slots` are those popped, `offenders`, and those waiting, `spammers`; nobody waiting is
      taller than the level. */
  ghost predicate Waiting(p0: Lists, locals: set<Address>, slots: nat, offenders: seq<Address>, spammers: set<Address>,
                          level: nat) {
    && (forall a :: a in Cut(p0, locals, slots) <==> a in offenders || a in spammers)
    && (forall a :: a in spammers ==> a !in offenders && Size(At(p0, a)) <= level)
  }

  /** Trimming starts with the tallest list of all. */
  lemma FirstOffender(p0: Lists, locals: set<Address>, slots: nat, spammers: set<Address>, a: Address, level: nat,
                      count: nat, limit: nat)
    requires Waiting(p0, locals, slots, [], spammers, level) && a in spammers && count == Total(p0)
    requires forall b :: b in spammers ==> Size(At(p0, b)) <= Size(At(p0, a))
    ensures Trimming(p0, p0, locals, [a], Size(At(p0, a)), Size(At(p0, a)), count, limit)
    ensures Waiting(p0, locals, slots, [a], spammers - {a}, Size(At(p0, a))) && slots < Size(At(p0, a))
  {
    var top := Size(At(p0, a));
    assert a in Cut(p0, locals, slots);
    forall b | b in p0 && b !in locals ensures Size(p0[b]) <= top {
      assert b in Cut(p0, locals, slots) <==> Size(p0[b]) > slots;
    }
    NothingCut(p0, locals, top);
    ExpandTrimming(p0, p0, locals, [a], top, top, count, limit);
  }

  /** The next offender's height becomes the threshold for those before it. */
  lemma NextThreshold(p0: Lists, p: Lists, locals: set<Address>, slots: nat, offenders: seq<Address>,
                      spammers: set<Address>, a: Address, level: nat, count: nat, limit: nat)
    requires Waiting(p0, locals, slots, offenders, spammers, level) && a in spammers
    requires Trimming(p0, p, locals, offenders, level, level, count, limit)
    requires forall b :: b in spammers ==> Size(At(p0, b)) <= Size(At(p0, a))
    ensures Trimming(p0, p, locals, offenders, Size(At(p0, a)), level, count, limit)
    ensures slots < Size(At(p0, a))
  {
    var threshold := Size(At(p0, a));
    ExpandTrimming(p0, p, locals, offenders, level, level, count, limit);
    assert a in Cut(p0, locals, slots);
    forall b | b in p0 && b !in locals && b !in offenders ensures Size(p0[b]) <= threshold {
      assert b in Cut(p0, locals, slots) <==> Size(p0[b]) > slots;
    }
    ExpandTrimming(p0, p, locals, offenders, threshold, level, count, limit);
  }

  /** Once those before it are down to its height, the next offender joins them. */
  lemma JoinOffenders(p0: Lists, p: Lists, locals: set<Address>, slots: nat, offenders: seq<Address>,
                      spammers: set<Address>, a: Address, level: nat, count: nat, limit: nat)
    requires Waiting(p0, locals, slots, offenders, spammers, level) && a in spammers
    requires Trimming(p0, p, locals, offenders, level, level, count, limit)
    requires Size(At(p0, a)) == level && forall b :: b in spammers ==> Size(At(p0, b)) <= level
    ensures Trimming(p0, p, locals, offenders + [a], level, level, count, limit)
    ensures Waiting(p0, locals, slots, offenders + [a], spammers - {a}, level)
  {
    ExpandTrimming(p0, p, locals, offenders, level, level, count, limit);
    assert a in Cut(p0, locals, slots);
    ExpandTrimming(p0, p, locals, offenders + [a], level, level, count, limit);
  }

  /** When nobody waits, everyone but the offenders is within their guaranteed slots. */
  lemma LastThreshold(p0: Lists, p: Lists, locals: set<Address>, slots: nat, offenders: seq<Address>,
                      level: nat, count: nat, limit: nat)
    requires Waiting(p0, locals, slots, offenders, {}, level) && slots <= level
    requires Trimming(p0, p, locals, offenders, level, level, count, limit)
    ensures Trimming(p0, p, locals, offenders, slots, level, count, limit)
  {
    ExpandTrimming(p0, p, locals, offenders, level, level, count, limit);
    forall b | b in p0 && b !in locals && b !in offenders ensures Size(p0[b]) <= slots {
      assert b in Cut(p0, locals, slots) <==> Size(p0[b]) > slots;
    }
    ExpandTrimming(p0, p, locals, offenders, slots, level, count, limit);
  }

  /** `AtLevel`, guarded as `Agree` is. */
  ghost predicate Leveled(p0: Lists, p: Lists, locals: set<Address>, level: nat, count: nat, limit: nat) {
    forall k {:trigger Open(k)} :: Open(k) ==> AtLevel(p0, p, locals, level, count, limit)
  }

  lemma ExpandLeveled(p0: Lists, p: Lists, locals: set<Address>, level: nat, count: nat, limit: nat)
    ensures Leveled(p0, p, locals, level, count, limit) <==> AtLevel(p0, p, locals, level, count, limit)
  {
    assert Open(0);
  }

  lemma TrimmingIsLeveled(p0: Lists, p: Lists, locals: set<Address>, offenders: seq<Address>, threshold: nat,
                          level: nat, count: nat, limit: nat)
    requires Trimming(p0, p, locals, offenders, threshold, level, count, limit)
    ensures Leveled(p0, p, locals, level, count, limit)
  {
    ExpandTrimming(p0, p, locals, offenders, threshold, level, count, limit);
    ExpandLeveled(p0, p, locals, level, count, limit);
  }

  /** Lists of accounts that wait have not been touched. */
  lemma WaitingSizes(p0: Lists, p: Lists, locals: set<Address>, slots: nat, offenders: seq<Address>,
                     spammers: set<Address>, level: nat, count: nat, limit: nat)
    requires Waiting(p0, locals, slots, offenders, spammers, level) && Leveled(p0, p, locals, level, count, limit)
    ensures forall a :: a in spammers ==> a in p && Size(p[a]) == Size(At(p0, a))
  {
    ExpandLeveled(p0, p, locals, level, count, limit);
    forall a | a in spammers ensures a in p && Size(p[a]) == Size(At(p0, a)) {
      assert a in Cut(p0, locals, slots);
      assert a in Accounts(p);
      FilledSize(p0, p, locals, level, a);
    }
  }

  /** Before anything is trimmed. */
  lemma StartTruncation(p0: Lists, locals: set<Address>, slots: nat, spammers: set<Address>, level: nat, count: nat,
                        limit: nat)
    requires count == Total(p0) && level == count + slots
    requires forall a :: a in spammers <==> a in p0 && a !in locals && Size(p0[a]) > slots
    ensures Waiting(p0, locals, slots, [], spammers, level) && Leveled(p0, p0, locals, level, count, limit)
    ensures spammers == {} ==> Leveled(p0, p0, locals, slots, count, limit)
  {
    forall a | a in p0 ensures Size(p0[a]) <= level {
      PartOfTotal(p0, a);
    }
    NothingCut(p0, locals, level);
    ExpandLeveled(p0, p0, locals, level, count, limit);
    if spammers == {} {
      NothingCut(p0, locals, slots);
      ExpandLeveled(p0, p0, locals, slots, count, limit);
    }
  }

  /** Go's loop over the lists that adds up their lengths. */
  method CountTransactions(p: Lists) returns (count: nat)
    ensures count == Total(p)
  {
    count := 0;
    var todo := Accounts(p);
    while todo != {}
      invariant todo <= Accounts(p) && count + TotalOf(p, todo) == Total(p)
    {
      var a :| a in todo;
      TotalOfWithout(p, todo, a);
      count := count + Size(p[a]);
      todo := todo - {a};
    }
  }

  /** `prque.Pop` on accounts by list length: some account with a longest list. */
  method PopTallest(p: Lists, spammers: set<Address>) returns (a: Address)
    requires spammers != {} && forall b :: b in spammers ==> b in p
    ensures a in spammers && forall b :: b in spammers ==> Size(p[b]) <= Size(p[a])
  {
    a :| a in spammers;
    var todo := spammers - {a};
    while todo != {}
      invariant a in spammers && todo <= spammers
      invariant forall b :: b in spammers && b !in todo ==> Size(p[b]) <= Size(p[a])
    {
      var b :| b in todo;
      todo := todo - {b};
      if Size(p[b]) > Size(p[a]) {
        a := b;
      }
    }
  }

  /** Taking one transaction out of a queue lowers the total by one. */
  lemma TotalCut(q: Lists, tx: Transaction)
    requires tx.from in q && tx.nonce in q[tx.from] && NoneEmpty(q)
    ensures Total(CutQueued(q, tx)) == Total(q) - 1
  {
    var a := tx.from;
    var kept := q[a] - {tx.nonce};
    assert Keys(q[a]) == Keys(kept) + {tx.nonce};
    TotalWith(q, a, kept);
    var q' := With(q, a, kept);
    if kept == map[] {
      assert Accounts(q' - {a}) == Accounts(q') - {a};
      TotalOfWithout(q', Accounts(q'), a);
      SameTotal(q', q' - {a}, Accounts(q') - {a});
      assert Keys(kept) == {};
    }
  }

  /** Go's sorting by heartbeat and taking from the end: some account with a latest heartbeat. */
  method PopLatest(beats: map<Address, nat>, accounts: set<Address>) returns (a: Address)
    requires accounts != {} && forall b :: b in accounts ==> b in beats
    ensures a in accounts && forall b :: b in accounts ==> beats[b] <= beats[a]
  {
    a :| a in accounts;
    var todo := accounts - {a};
    while todo != {}
      invariant a in accounts && todo <= accounts
      invariant forall b :: b in accounts && b !in todo ==> beats[b] <= beats[a]
    {
      var b :| b in todo;
      todo := todo - {b};
      if beats[b] > beats[a] {
        a := b;
      }
    }
  }

  /** Queues that are not local have been cut latest heartbeat first: those of `gone` entirely, and that of
      `last`, if any, to its `k` lowest nonces. */
  ghost predicate CutLatestFirst(q0: Lists, q: Lists, beats: map<Address, nat>, locals: set<Address>,
                                 gone: set<Address>, last: Option<Address>, k: nat) {
    && (forall a :: At(q, a) == if a in gone then map[] else if last == Some(a) then Lowest(At(q0, a), k) else At(q0, a))
    && (forall a :: a in gone || last == Some(a) ==> a in q0 && a !in locals && a in beats)
    && (last.Some? ==> last.value !in gone)
    && (forall a, b :: (a in gone || last == Some(a)) && b in q0 && b !in locals && b !in gone && b in beats ==>
                         beats[b] <= beats[a])
  }

  ghost predicate CuttingInFull(q0: Lists, q: Lists, beats: map<Address, nat>, locals: set<Address>,
                                gone: set<Address>, todo: set<Address>) {
    && CutLatestFirst(q0, q, beats, locals, gone, None, 0) && NoneEmpty(q0)
    && (forall a :: a in todo <==> a in q0 && a !in locals && a !in gone)
    && (forall a :: a in todo ==> a in beats)
  }

  /** Cutting under way: the accounts of `todo` are those not cut yet.  Guarded as `Agree` is. */
  ghost predicate Cutting(q0: Lists, q: Lists, beats: map<Address, nat>, locals: set<Address>, gone: set<Address>,
                          todo: set<Address>) {
    forall k {:trigger Open(k)} :: Open(k) ==> CuttingInFull(q0, q, beats, locals, gone, todo)
  }

  lemma ExpandCutting(q0: Lists, q: Lists, beats: map<Address, nat>, locals: set<Address>, gone: set<Address>,
                      todo: set<Address>)
    ensures Cutting(q0, q, beats, locals, gone, todo) <==> CuttingInFull(q0, q, beats, locals, gone, todo)
  {
    assert Open(0);
  }

  lemma UncutQueues(q0: Lists, q: Lists, beats: map<Address, nat>, locals: set<Address>, gone: set<Address>,
                    todo: set<Address>)
    requires Cutting(q0, q, beats, locals, gone, todo)
    ensures forall a :: a in todo ==> a in beats && a in q
  {
    ExpandCutting(q0, q, beats, locals, gone, todo);
    forall a | a in todo ensures a in q {
      assert At(q, a) == q0[a];
    }
  }

  lemma StartCutting(q: Lists, beats: map<Address, nat>, locals: set<Address>, todo: set<Address>)
    requires NoneEmpty(q) && forall a :: a in q ==> a in beats
    requires forall a :: a in todo <==> a in q && a !in locals
    ensures Cutting(q, q, beats, locals, {}, todo)
  {
    ExpandCutting(q, q, beats, locals, {}, todo);
  }

  lemma EndCutting(q0: Lists, q: Lists, beats: map<Address, nat>, locals: set<Address>, gone: set<Address>,
                   todo: set<Address>)
    requires Cutting(q0, q, beats, locals, gone, todo)
    ensures CutLatestFirst(q0, q, beats, locals, gone, None, 0)
    ensures todo == {} ==> forall a :: a !in locals ==> At(q, a) == map[]
  {
    ExpandCutting(q0, q, beats, locals, gone, todo);
  }

  /** The queue of an account with the latest heartbeat among those left is removed. */
  lemma CutWhole(q0: Lists, q: Lists, q': Lists, beats: map<Address, nat>, locals: set<Address>, gone: set<Address>,
                 todo: set<Address>, a: Address)
    requires Cutting(q0, q, beats, locals, gone, todo) && a in todo && a in beats
    requires forall b :: b in todo && b in beats ==> beats[b] <= beats[a]
    requires forall b :: At(q', b) == if b == a then map[] else At(q, b)
    ensures Cutting(q0, q', beats, locals, gone + {a}, todo - {a})
  {
    ExpandCutting(q0, q, beats, locals, gone, todo);
    ExpandCutting(q0, q', beats, locals, gone + {a}, todo - {a});
  }

  /** Or it is shortened, and then the cutting ends. */
  lemma CutPart(q0: Lists, q: Lists, q': Lists, beats: map<Address, nat>, locals: set<Address>, gone: set<Address>,
                todo: set<Address>, a: Address, k: nat)
    requires Cutting(q0, q, beats, locals, gone, todo) && a in todo && a in beats
    requires forall b :: b in todo && b in beats ==> beats[b] <= beats[a]
    requires forall b :: At(q', b) == if b == a then Lowest(At(q, a), k) else At(q, b)
    ensures CutLatestFirst(q0, q', beats, locals, gone, Some(a), k)
  {
    ExpandCutting(q0, q, beats, locals, gone, todo);
  }
}
