# A verified model of a go-ethereum node's stateful core

This project models, in Dafny, the parts of the node whose correctness rests on several structures staying in
agreement over every run, and proves that they do.

- **Transaction pool** (`Heap`, `Transactions`, `NonceMaps`, `TxSortedMaps`, `TxLists`, `TxPricing`, `PoolViews`,
  `Fairness`, `TxNoncers`, `PoolSteps`, `Additions`, `Replacements`, `Reorgs`, `Heartbeats`, `TxPools`, `PoolRuns`). One
  set of transactions is held in five views: the index, the pending and queued lists of every account, the price heap
  and the virtual nonces. `TxPool.Consistent` says that the index is exactly the disjoint union of the lists, that no
  list is empty, that slots and stale entries are counted right, that the price heap covers the index, that everything
  was accepted once and that no remote transaction is below the price floor. `TxPool.Contiguous` says that an account's pending nonces
  run from its state nonce to its virtual nonce without a gap. Every operation, and so every run, keeps the first and
  leaves only pending what can be paid for, and every run without reinjection or falling nonces the second, with
  nothing executable left in a queue but for senders that are still to be promoted. What an addition and what a
  reorganisation do is stated on values (`Adds`, `Promotes`, `AfterReset`, `QueuedAfterReset`, `Truncates`,
  `TruncatesQueue`), the methods of the class are proved to do just that, and the laws are proved of the values.
  Truncation is shown to be water-filling.
- **Canonical chain** (`Headers`, `HeaderChains`, `HeaderServing`, `BlockChains`). The number-to-hash markers are the
  ancestor path of the head over every run of header writes and rewinds; ancestors found by shortcut are those of
  the parent walk; served headers lie on one chain at the requested distance. Over every run of block writes the
  markers up to the head are its path and no lookup entry is wrong; markers above the head and missing entries
  arise exactly under two conditions that can be told beforehand.
- **Chain indexer** (`ChainIndexers`). The steps of the section processing, interleaved in any way with head events,
  forks, checkpoints and queries, keep every stored section head exactly one section of parent links above the one
  before. On a chain that stays as it is, all known sections get stored.
- **Retrieval and serving** (`Retrievals`, `ServingQueues`). The counters of a request match its outstanding attempts
  under every interleaving, and a stopped request ends; the serving queue conserves load and stays within its burst
  limit.
- **Event feed** (`Feeds`). One array seen through two slices delivers a value exactly once to everyone who stays.
- **Gas and ether** (`IntrinsicGas`, `StateTransitions`, `GasLimits`). Gas and ether are conserved over a block, but for
  what the virtual machine itself does, and no checked call runs twice; the gas limit stays valid and reaches its
  targets.

`Basics` holds what all of them share. Where the source updates objects, the model has classes whose methods are
proved against functions of their old state. Hashes are free constructors over what they hash, so they are injective,
never zero and acyclic. Clocks, random choices, network replies and the virtual machine are parameters or
non-deterministic choices; reads of a database are reads of maps, and a batch is a map of writes that is applied at
its end. The predicates `Open`, `Inside` and `Holder` guard quantified facts: they are always true and only control
when a proof unfolds them.

Where code and expectation differ, the code is modelled and the exact condition is proved:

- `Discard` panics on a negative capacity exactly if no account is local and it is asked for more slots than the
  price heap has entries; a pool gets there because it counts transactions and not slots when it tells whether it
  is full (`Discard`, `NoCrash`, `DearerPanics`, `PanicRun`).
- A reset that lowers an account's nonce, and after which the transactions promoted from the new nonce on do not
  reach the pending ones, leaves a gap, because the clean-up looks at the first nonce only (`GapAfterReset`,
  `PromoteAfterReset`, `GapRun`).
- A reset promotes from the nonces of the state, so that a transaction can stay queued that could be pending. That is
  so exactly if a payable queued transaction, which is not ready by the virtual nonce, follows, from the state nonce on,
  transactions that are ready or that are pending and payable (`Misses`, `MissedAfterReset`, `PromoteAfterReset`,
  `MissedRun`).
- A reorganisation to a fork of a single block that is lower than the old head leaves markers behind, because the
  sweep starts at the old head (`WriteKnownBlock`, `MarkerStays`); one whose old branch repeats a transaction from
  below the fork loses its lookup entry (`EntryGetsLost`).
- `GetAncestor` with the zero hash, a number above the head and an ancestor at or below it answers with a canonical
  hash (`UnknownHashHasAncestor`).
- A checkpoint is lost exactly when a section cannot be started, or when a section is stored that was being processed
  when the checkpoint came and is not above it, unless it ends with the checkpoint's own head (`Step`,
  `CheckpointGetsLost`, `CheckpointIsReplaced`, `CheckpointIsDropped`).
- The indexer gives the known sections up, rather than catching up with the chain, exactly if the last section that is
  left after verifying has a head that is not canonical, which only a checkpoint can keep (`UpdateSection`, `CatchUp`).
- Below a parent gas limit of 5120 a nearly full block can raise the limit by a whole 1024th (`CanMoveTooFar`).

## Model

| member | source | states |
|---|---|---|
| Heap.Pop | core/tx_list.go:84-98 | container/heap: the popped element is the root, the rest is a heap of the other elements |
| Heap.Push | core/tx_list.go:458-460 | container/heap: the result is a heap of the old elements and the new one |
| Heap.Remove | core/tx_list.go:168-185 | container/heap: removing any place leaves a heap of the other elements |
| Heap.Init | core/tx_list.go:114-121 | container/heap: some heap permutation of any sequence |
| Heap.RootIsLeast | core/tx_list.go:32-48 | no element of a heap is less than its root |
| Heap.Sort | core/tx_list.go:143-164 | sort.Sort: a sorted permutation |
| Transactions.NumSlots | core/tx_pool.go:1603-1605 | the least number of slots of 32768 bytes that the size fits into |
| TxSortedMaps.TxSortedMap.Put | core/tx_list.go:73-79 | map, nonce heap and cache agree again with the transaction under its nonce |
| TxSortedMaps.TxSortedMap.Forward | core/tx_list.go:84-98 | removes and returns exactly the nonces below the threshold, keeping the three views in agreement, cache prefix trim included |
| TxSortedMaps.TxSortedMap.Filter | core/tx_list.go:105-112 | keeps exactly what the filter does not match, and returns the rest |
| TxSortedMaps.TxSortedMap.Cap | core/tx_list.go:143-164 | keeps exactly the lowest nonces, returns the others highest first, keeping the three views in agreement, cache suffix trim included |
| TxSortedMaps.TxSortedMap.Remove | core/tx_list.go:168-185 | deletes one nonce from all views, and tells whether it was there |
| TxSortedMaps.TxSortedMap.Ready | core/tx_list.go:194-209 | takes exactly the maximal gapless run from the lowest nonce, if that is at most the start, in nonce order |
| TxSortedMaps.TxSortedMap.Flatten | core/tx_list.go:231-237 | all transactions in nonce order, whatever the cache held |
| TxSortedMaps.TxSortedMap.LastElement | core/tx_list.go:241-244 | the transaction with the highest nonce |
| NonceMaps.EnumerationIsUnique | core/tx_list.go:216-226 | there is only one listing in nonce order, so a cache cannot differ from a fresh sort |
| NonceMaps.PrefixIsLowest | core/tx_list.go:143-164 | a prefix of the listing in nonce order holds the lowest nonces |
| TxLists.TxList.Add | core/tx_list.go:279-304 | accepts exactly a new nonce or a bid that is higher than the one held and, rounded down, at least the price bump above it; the caps bound every held transaction |
| TxLists.TxList.Filter | core/tx_list.go:322-351 | equals the full scan although it may return early; in strict mode only what is below the lowest removed nonce stays |
| TxLists.TxList.Remove | core/tx_list.go:362-373 | removes one transaction and, in strict mode, exactly those above it |
| TxLists.TxList.Forward | core/tx_list.go:309-311 | removes exactly the nonces below the threshold; the caps still bound the rest |
| TxLists.TxList.Cap | core/tx_list.go:355-357 | keeps exactly the lowest nonces; the caps still bound them |
| TxLists.TxList.Ready | core/tx_list.go:382-384 | takes exactly the ready run; the caps still bound the rest |
| TxLists.FilterPartitions | core/tx_list.go:322-351 | removed, invalid and kept transactions partition the old list |
| TxLists.StrictKeepsGapless | core/tx_list.go:322-373 | a strict list without gaps stays without gaps whatever is removed |
| TxPricing.TxLookup.Add | core/tx_pool.go:1581-1589 | adds a transaction; the slots stay the sum over the index |
| TxPricing.TxLookup.Remove | core/tx_pool.go:1592-1600 | removes a present transaction; the slots stay the sum over the index |
| TxPricing.SlotSumAtLeastCount | core/tx_pool.go:1565-1578 | there are at least as many slots as transactions |
| TxPricing.TxPricedList.Put | core/tx_list.go:458-460 | the heap holds one more entry and still covers the index |
| TxPricing.TxPricedList.Removed | core/tx_list.go:465-480 | counts the stale entries, and exactly past a quarter of the heap rebuilds it to hold just the index |
| TxPricing.TxPricedList.Underpriced | core/tx_list.go:515-537 | agrees with a scan of the index: no transaction of it is cheaper |
| TxPricing.TxPricedList.Cap | core/tx_list.go:484-511 | returns exactly the live transactions below the threshold that are not local; no entry is lost but stale ones, and none that should go stays |
| TxPricing.StalesGoWrong | core/tx_list.go:484-511 | a transaction put into the heap while its stale entry is there makes the stale count wrong |
| TxPricing.TxPricedList.Discard | core/tx_list.go:541-585 | panics exactly if no account is local and more slots are wanted than the heap has entries; otherwise returns the cheapest live transactions that are not local, just enough for the slots wanted or all there are |
| TxPricing.DiscardableIsBounded | core/tx_list.go:543-559 | with a local account the slots are lowered to at most the entries of the heap |
| TxPricing.CoverCount | core/tx_list.go:541-585 | a heap that covers the index has at least as many entries as the index |
| TxPricing.TxPricedList.HeadIsCheapest | core/tx_list.go:416-426 | the heap's head is a cheapest transaction of the index once stale heads are gone |
| TxNoncers.TxNoncer.Get | core/tx_noncer.go:45-55 | reads the virtual nonce, filling it from the state without changing any |
| TxNoncers.TxNoncer.Set | core/tx_noncer.go:59-64 | changes one virtual nonce and no other |
| TxNoncers.TxNoncer.SetIfLower | core/tx_noncer.go:68-79 | lowers one virtual nonce to the given one, and never raises it |
| PoolViews.ReplacePending | core/tx_pool.go:602-616 | index and lists agree again when a transaction takes the place of another with its nonce |
| PoolViews.AddQueued | core/tx_pool.go:649-679 | index and lists agree again when a transaction with a free nonce joins a queue |
| PoolViews.NoncesApart | core/tx_pool.go:697-732 | agreement implies that no account has a nonce both pending and queued |
| PoolViews.IndexedIsListed | core/tx_pool.go:882-927 | a transaction in the index is in exactly the list that its nonce is in |
| PoolSteps.Config.Sanitize | core/tx_pool.go:172-207 | every setting, journal interval, price limit and lifetime included, is usable afterwards, and only unusable ones change |
| PoolSteps.SanitizedOnce | core/tx_pool.go:155-207 | sanitizing again changes nothing, and a configuration of zeros becomes the defaults |
| PoolSteps.PayableMeans | core/tx_pool.go:1198-1211 | promotion counts as payable exactly what is not stale, fits into a block and costs no more than the balance |
| PoolSteps.DemotedMeans | core/tx_pool.go:1386-1443 | clean-up leaves pending exactly what is not stale and neither unpayable nor behind something that is, if the account's next nonce is there |
| TxPools.TxPool.constructor | core/tx_pool.go:257-309 | a new pool is empty, consistent and contiguous at the state of the head it is reset to, and its price floor is the sanitized price limit |
| TxPools.TxPool.ValidateTx | core/tx_pool.go:519-561 | accepts exactly the acceptable transactions, and names a true reason otherwise |
| TxPools.TxPool.EnqueueTx | core/tx_pool.go:649-679 | the queued list changes at one nonce, exactly if the bid is good enough, and all views agree |
| TxPools.TxPool.EnqueueAll | core/tx_pool.go:906-908 | a set of loose transactions all join the queue, without a change of the index |
| TxPools.TxPool.Add | core/tx_pool.go:570-644 | keeps the pool consistent and contiguous; what it does to index, lists, locals and heap is exactly a step of `Adds`: known, unacceptable and outbid transactions change nothing and get their reason, others make room, which may panic, and enter; the virtual nonces fall to the lowest pending nonce dropped, and the sender is heard of |
| TxPools.TxPool.Admit | core/tx_pool.go:585-644 | the same for a transaction that is new and acceptable |
| Additions.AdditionAccounts | core/tx_pool.go:570-644 | a step adds at most its own transaction, takes out only what it drops or replaces, and panics only without local accounts and with more slots wanted than there are transactions |
| Additions.AdditionsAccount | core/tx_pool.go:832-844 | over any additions, what is new in the index got no error, what has left it was dropped or replaced by a step, and local accounts stay local |
| Additions.SparedNext | core/tx_pool.go:882-927 | removing dropped transactions one by one leaves of every pending list what precedes its first dropped nonce |
| Additions.NoCrash | core/tx_list.go:541-585 | additions do not panic if there is a local account, or if all transactions take one slot |
| Additions.NewcomerFits | core/tx_pool.go:584-599 | a full pool without local accounts drops enough for the newcomer to fit into the slots of the pool, or everything, if it drops nothing twice |
| Additions.AllLoweredNext | core/tx_pool.go:900-911 | over steps each virtual nonce falls to the lowest nonce that was dropped while pending |
| Replacements.ReplacementRule | core/tx_list.go:282-294 | the transaction that holds a nonce is replaced by an eligible one exactly if the bid is higher and at least the price bump above the old one, rounded down; otherwise it stays and the other is refused as underpriced |
| Replacements.ReplacementsCompound | core/tx_list.go:282-294 | k replacements of one nonce raise the price by at least k, and its excess over 100 / bump by at least the factor (1 + bump / 100) to the k |
| TxPricing.DropOrder | core/tx_list.go:416-426 | whatever bids less than a dropped remote transaction, or the same with a higher nonce, is dropped too |
| TxPools.TxPool.MakeRoom | core/tx_pool.go:585-599 | a full pool refuses exactly a remote transaction that outbids none, and otherwise gives up the cheapest remote ones for the slots needed; entries it loses first were stale at the top of the heap |
| TxPools.TxPool.DiscardFor | core/tx_pool.go:593-598 | the panic, or the removal of exactly the cheapest remote transactions from all views |
| TxPools.TxPool.ReplaceInPending | core/tx_pool.go:602-624 | replaces exactly if outbid, keeping nonces and views |
| TxPools.TxPool.Insert | core/tx_pool.go:601-644 | the error and the replaced flag are those of the transaction with the same nonce, in whichever list it is |
| TxPools.TxPool.AddTxsLocked | core/tx_pool.go:832-844 | every transaction is a step of `Adds` from where the one before left, with its error, up to a panic; the dirty accounts are exactly those whose queue a step made longer; queues with nothing executable stay so, but for dirty accounts; each virtual nonce ends at the lowest nonce dropped while pending, if it was above, and each heartbeat of an account that nothing is dropped of is that of before or as the steps set it |
| TxPools.TxPool.AddTxs | core/tx_pool.go:780-828 | every transaction gets its own error: that of the screening, or that of its step; virtual nonces and heartbeats change as by these steps |
| PoolSteps.Screen | core/tx_pool.go:786-804 | finds exactly the new and signed transactions, in order, and the error of the others |
| PoolSteps.PlaceErrors | core/tx_pool.go:814-821 | puts the results of the additions back into the open places, in order |
| TxPools.TxPool.PromoteTx | core/tx_pool.go:697-732 | a loose transaction becomes pending at a nonce that is free, and the virtual nonce follows it |
| TxPools.TxPool.RemoveTx | core/tx_pool.go:882-927 | removes a transaction from all views, requeues the pending ones after it, lowers the virtual nonce to it and keeps contiguity |
| TxPools.TxPool.RemoveDropped | core/tx_pool.go:419-428 | removes exactly the transactions the price heap gave up and settles its counts |
| TxPools.TxPool.PromoteAccount | core/tx_pool.go:1188-1249 | exactly the payable ready run becomes pending; exactly the lowest nonces up to the limit stay queued; the virtual nonce is the end of the run |
| TxPools.TxPool.PromoteExecutables | core/tx_pool.go:1188-1249 | of every account named, exactly the payable run from the virtual nonce on becomes pending, and exactly the other payable transactions stay queued, up to the limit for remote accounts; heartbeats follow; consistency and contiguity are kept |
| Reorgs.PromotedTwice | core/tx_pool.go:1188-1249 | promoting an account twice is promoting it once |
| Reorgs.PromotionExhausts | core/tx_pool.go:1188-1249 | after promotion nothing executable is queued for the accounts named, nor for others that had nothing |
| Reorgs.QueueLimits | core/tx_pool.go:1226-1235 | a local account keeps all of its queue; any other keeps the lowest nonces, up to the limit exactly |
| Reorgs.NumbersRenumber | core/tx_pool.go:1074-1077 | promotion, truncation and renumbering together leave the virtual nonces that `RunReorg` states |
| Reorgs.SolventMeans | core/tx_pool.go:1386-1443 | what is pending in a solvent pool fits into a block and costs no more than its sender has |
| PoolSteps.RunExtends | core/tx_list.go:194-209 | what becomes ready follows the pending interval directly |
| TxPools.TxPool.DemoteAccount | core/tx_pool.go:1386-1434 | exactly what is neither stale, nor unpayable, nor behind an unpayable one stays pending, or nothing if the first nonce is missing |
| TxPools.TxPool.DemoteUnexecutables | core/tx_pool.go:1386-1434 | the same for every account, which restores an interval after a reset; an account that gets something back into its queue has a heartbeat |
| Heartbeats.BeatenPulse | core/tx_pool.go:1188-1249 | promotion sets the heartbeat of an account it promotes something of and removes that of one it leaves nothing queued for |
| Heartbeats.HeardOf | core/tx_pool.go:622-676 | over additions that drop none of its transactions an account is heard of when one replaces a pending transaction of it, or when one joins its queue and it was not heard of before |
| Heartbeats.PulseStays | core/tx_pool.go:1188-1249 | a second promotion does not touch a heartbeat |
| Heartbeats.TouchedTwice | core/tx_pool.go:1386-1434 | what clean-up puts back revives a heartbeat that is not there |
| TxPools.TxPool.TruncatePending | core/tx_pool.go:1254-1336 | water-filling: one level cuts every remote list, to its lowest nonces; the limit is met or the level is the guaranteed slots; one level higher would exceed the limit |
| Fairness.LevelFalls | core/tx_pool.go:1285-1306 | lowering the level by one takes one transaction from each list above it |
| Fairness.TallestAreCut | core/tx_pool.go:1274-1285 | the tallest lists come first, so the offenders are exactly the lists above the level |
| Fairness.TrimmingIsLeveled | core/tx_pool.go:1254-1336 | the state between two passes is a cut at one level |
| Fairness.FilledFits | core/tx_pool.go:1254-1336 | no remote list is longer than the level |
| TxPools.TxPool.TruncateQueue | core/tx_pool.go:1339-1381 | ends at exactly the limit or with no remote queue, cutting whole queues latest heartbeat first and one of them in part, highest nonces first; the heartbeats of emptied queues go, and no others |
| TxPools.TxPool.Truncate | core/tx_pool.go:1254-1381 | both limits of the pool hold, or only guaranteed slots and local accounts are left |
| TxPools.TxPool.SetGasPrice | core/tx_pool.go:419-428 | exactly the remote transactions below the price leave, what follows one of them on a pending list is queued, and the virtual nonces fall to the lowest of them that was pending |
| TxPools.TxPool.Evict | core/tx_pool.go:357-373 | exactly the remote queues whose heartbeat is older than the lifetime are emptied, and their heartbeats go |
| TxPools.TxPool.Reset | core/tx_pool.go:1099-1183 | an abandoned reset changes nothing; another one moves to the new state and adds what is reinjected as steps of `Adds` under it, up to a panic; pending runs stay runs; without reinjection and falling nonces promotion and clean-up can restore intervals |
| Reorgs.AdditionKeepsRun | core/tx_pool.go:570-644 | an addition keeps every pending list a run from where it began |
| TxPools.TxPool.PromoteAfterReset | core/tx_pool.go:1043-1068 | after reset, promotion and clean-up every pending list is `AfterReset` and every queue `QueuedAfterReset` of the lists that the reinjection left; from contiguous lists a list has a gap exactly if `LeavesGap`, and something that could be pending stays queued exactly if `Misses` |
| Heartbeats.ResetBeats | core/tx_pool.go:1043-1068 | the heartbeat of every account after a promotion and clean-up, from that before |
| Reorgs.MissedAfterReset | core/tx_pool.go:1043-1068 | after a reset, whether nonces rise or fall, something stays queued that could be pending exactly if a payable queued transaction that is not ready follows, from the state nonce on, what is ready or is pending and payable; the limit on queues does not matter |
| Reorgs.NothingMissed | core/tx_pool.go:1043-1068 | from payable lists that end at the virtual nonce, as an abandoned reset finds them, promotion and clean-up leave nothing executable queued |
| TxPools.TxPool.SetNonces | core/tx_pool.go:1074-1077 | for every account with pending transactions the virtual nonce is one above the highest pending nonce, gap or not, and every other account keeps its own; so intervals are restored |
| TxPools.TxPool.RunReorg | core/tx_pool.go:1032-1095 | states which pending lists, queues, virtual nonces and heartbeats result, by which heartbeats queues are cut, where gaps are left and what is missed: a virtual nonce is one above the highest pending nonce or, with nothing pending, follows what was promoted or the additions; keeps the pool consistent and within its limits, leaves only pending what can be paid for and, for a benign or abandoned reset, keeps it contiguous and makes nothing queued executable |
| TxPools.TxPool.Conclude | core/tx_pool.go:1070-1077 | truncation and renumbering set the virtual nonces of accounts with pending transactions behind the highest and no others, restore intervals after a clean-up, and make nothing queued executable |
| Reorgs.ResetSeparates | core/tx_pool.go:1043-1068 | a reset that lowers no nonce and reinjects nothing misses nothing where nothing executable was queued |
| Reorgs.AdditionsStaySolvent | core/tx_pool.go:832-844 | additions leave only pending what can be paid for |
| Reorgs.ReadiesSolvent | core/tx_pool.go:1188-1434 | so do promotion and, from any lists, clean-up |
| Reorgs.AdditionKeepsExhausted | core/tx_pool.go:570-644 | an addition makes a queued transaction executable only in a queue that it adds to |
| TxPools.TxPool.Run | core/tx_pool.go:314-386 | every sequence of additions, reorganisations, repricings and evictions, up to a panic, keeps the pool consistent, holds only what was brought and leaves only pending what can be paid for; a benign one, abandoned resets included, keeps it contiguous, with nothing executable queued but for senders not yet promoted; local accounts or transactions of one slot rule the panic out |
| Reorgs.GapAfterReset | core/tx_pool.go:1386-1434 | promotion and clean-up leave a gap exactly if transactions are promoted from the state nonce on, do not reach the pending ones above it, and the first of these is payable |
| PoolRuns.GapRun | core/tx_pool.go:1418-1428 | such a gap arises in a pool whose transactions were all accepted: nonces 0 and 2 are pending and the virtual nonce is 3 |
| PoolRuns.DearerPanics | core/tx_list.go:541-585 | with two remote transactions of four slots in a pool for two slots, the addition of any new acceptable remote one that bids more panics |
| PoolRuns.PanicRun | core/tx_list.go:541-585 | a new pool gets there, and panics |
| PoolRuns.MissedRun | core/tx_pool.go:1043-1068 | a reset to the same state leaves a transaction queued that follows the pending ones directly |
| IntrinsicGas.IntrinsicGas | core/state_transition.go:107-141 | the exact mathematical cost if it fits into 64 bits, and an overflow error exactly if it does not |
| IntrinsicGas.CostInNumbers | core/state_transition.go:107-141 | 21000 or 53000 gas, 4 for each zero byte and 68 or 16 for each other one |
| IntrinsicGas.RoomFor | core/state_transition.go:129-138 | the division tests pass exactly if the sums fit |
| Headers.AncestorInTree | core/headerchain.go:364-397 | in a parent-closed store an ancestor by number is stored and as many parent links away |
| Headers.RootIsLightest | core/headerchain.go:293-317 | no stored header has less total difficulty than the genesis header |
| HeaderChains.HeaderChain.constructor | core/genesis.go:297-317 | a database of the genesis header alone is valid |
| HeaderChains.HeaderChain.Load | core/headerchain.go:79-116 | fails exactly without a genesis header; otherwise starts at the stored head block, or at genesis if that is not stored, and is valid exactly if the stored markers are the path of that head |
| HeaderChains.HeaderChain.GetTd | core/headerchain.go:401-413 | reads the stored total difficulty, whatever the cache holds and evicts |
| HeaderChains.HeaderChain.GetHeader | core/headerchain.go:427-439 | reads the stored header, whatever the cache holds and evicts |
| HeaderChains.HeaderChain.GetHeaderByHash | core/headerchain.go:443-449 | finds exactly the stored headers |
| HeaderChains.HeaderChain.GetHeaderByNumber | core/headerchain.go:463-469 | finds exactly the canonical headers up to the head |
| HeaderChains.HeaderChain.HasHeader | core/headerchain.go:454-459 | tells exactly the stored headers |
| HeaderChains.HeaderChain.WriteHeader | core/headerchain.go:141-225 | the markers stay the ancestor path of the head with none above, total difficulties stay sums over paths, no header gets heavier than the head, or as heavy and lower, and the head moves exactly by the fork choice |
| HeaderChains.CoinDecides | core/headerchain.go:169-176 | the coin decides exactly between headers of one total difficulty and number |
| HeaderChains.HeaderChain.WalkToCanonical | core/headerchain.go:184-205 | the walk back ends on the old path and writes exactly the new path down to it |
| HeaderChains.PathMoves | core/headerchain.go:184-211 | the marker batch turns the old path into the new one |
| HeaderChains.HeaderChain.InsertHeaderChain | core/headerchain.go:293-334 | a validated chain goes in completely unless its first parent is unknown or it is aborted, and the invariants hold throughout |
| HeaderChains.HeaderChain.GetAncestor | core/headerchain.go:364-397 | an answer is the hash exactly that many parent links up; there is one exactly if the links to the canonical chain fit the budget, which falls by just those links; an unknown hash has none, and no hash at all has one exactly if the number is above the head and the ancestor is not, namely the canonical hash there |
| HeaderChains.UnknownHashHasAncestor | core/headerchain.go:376-383 | such an answer at a chain of one header |
| HeaderChains.HeaderChain.Shortcut | core/headerchain.go:376-383 | from a canonical hash the markers give every ancestor |
| HeaderChains.SideStepsIsDistance | core/headerchain.go:376-396 | the links counted are the fewest to a canonical hash |
| HeaderChains.HeaderChain.SetHead | core/headerchain.go:503-580 | ends at the old head's ancestor at the target, with exactly the headers up to it on every branch, and valid markers and caches |
| HeaderChains.HeaderChain.NumbersAbove | core/headerchain.go:545-552 | finds every number above the head at which any branch has headers |
| HeaderChains.PathShrinks | core/headerchain.go:555-575 | deleting the markers above an ancestor leaves its path |
| HeaderChains.HeaderChain.Run | core/headerchain.go:141-225 | every run of writes and rewinds keeps the markers the path of the head, and one without rewinds the head heaviest |
| HeaderServing.ServeByHash | eth/handler.go:399-484 | served headers are pairwise skip + 1 parent links apart on one chain, in either direction; the answer ends exactly at its limit or at the first header that has none skip + 1 links below it, or no canonical one as far above it, or from which getting there takes, with a skip, more than 100 links off the canonical chain in all; from a canonical origin that is only at an end of the chain |
| HeaderServing.ServeByNumber | eth/handler.go:399-484 | served headers are the canonical ones at the requested numbers, until one is missing |
| HeaderServing.AdvanceUp | eth/handler.go:448-470 | the next header is canonical and skip + 1 links above, and is found exactly if there is such a header |
| HeaderServing.AdvanceDown | eth/handler.go:439-447 | the next header is skip + 1 links below, and is found exactly if the number is high enough and, with a skip, the links off the canonical chain are within what is left of the 100, which they use up |
| HeaderServing.CanonicalAnswer | eth/handler.go:439-470 | from a canonical origin every header served is canonical, and the last one within reach is at an end of the chain |
| HeaderServing.Overflow | eth/handler.go:450-457 | the overflow test sees every wrap-around |
| BlockChains.CommonIsHighest | core/blockchain.go:2101-2144 | two blocks share exactly the ancestors up to their common one |
| BlockChains.BlockChain.FindCommon | core/blockchain.go:2101-2144 | the collected chains are exactly the branches from the common ancestor, and it always is found |
| BlockChains.TxDifference | core/types/transaction.go:292-307 | the transactions of the first list that are not in the second, in order |
| BlockChains.MinusHolds | core/types/transaction.go:292-307 | a transaction is in the difference exactly if it is in the first list and not in the second |
| BlockChains.BlockChain.WriteHeadBlock | core/blockchain.go:708-735 | one marker, the lookup entries of one block and the heads change |
| BlockChains.BlockChain.WriteBranch | core/blockchain.go:2163-2172 | after the loop the markers and entries of the new branch, but for its top, are in place |
| BlockChains.BlockChain.Sweep | core/blockchain.go:2180-2190 | deletes exactly the unbroken run of markers above the current block |
| BlockChains.BlockChain.Reorg | core/blockchain.go:2044-2190 | everything but the new head is moved from the old path to the new one |
| BlockChains.BlockChain.WriteKnownBlock | core/blockchain.go:1409-1421 | from any chain that earlier reorganisations can leave, the markers are the path of the new head if and only if none is above a child of the old head, or the sweep reaches all old ones; the lookup index is exact if and only if no entry below the fork is lost or missing; the head header follows unless the block was canonical already |
| BlockChains.BlockChain.ExtendHead | core/blockchain.go:708-735 | the same for a child of the old head |
| BlockChains.BlockChain.SwitchHead | core/blockchain.go:2044-2190 | the same for a reorganisation |
| BlockChains.BlockChain.WriteBlock | core/blockchain.go:1433-1550 | the fork choice decides the head, no block gets heavier than the head, or as heavy and lower, and the conditions for exact markers and index are those of a known block; from exact ones they are that the sweep reaches and nothing is lost |
| BlockChains.PreservedStays | core/blockchain.go:1521-1535 | between blocks of one total difficulty and number preservation comes before the coin; between others the heavier wins, and then the lower |
| BlockChains.HeadMarked | core/blockchain.go:2180-2190 | writing the head's marker leaves no wrong one up to the head, and none above it exactly if the branch has two blocks or is not lower than the old chain |
| BlockChains.HeadIndexed | core/blockchain.go:2175-2178 | writing the head's entries leaves no wrong one, and completes the index exactly if nothing is lost or missing |
| BlockChains.ExactSurvives | core/blockchain.go:2175-2178 | from an exact index that is that no transaction from below the fork is repeated on the old branch only |
| BlockChains.NoRepeatsLoseNothing | core/blockchain.go:2175-2178 | if no transaction repeats along a chain no entry is lost |
| BlockChains.MarkerStays | core/blockchain.go:2180-2187 | a heavier fork of one block leaves a marker of the longer chain |
| BlockChains.EntryGetsLost | core/blockchain.go:2175-2178 | a transaction of block 1 that block 2 repeats loses its entry when block 2 is replaced |
| BlockChains.BlockChain.Run | core/blockchain.go:1433-1550 | over every run of block writes the markers up to the head are its ancestor path, no lookup entry is wrong and the head stays heaviest; if every reorganisation meets the conditions, markers and index also stay exact |
| ChainIndexers.ChainIndexer.SetValidSections | core/chain_indexer.go:479-491 | exactly the heads of the sections cut off are removed |
| ChainIndexers.ChainIndexer.VerifyLastHead | core/chain_indexer.go:422-429 | drops exactly the sections at the top whose heads are not canonical, down to the checkpoint |
| ChainIndexers.ChainIndexer.AllCanonical | core/chain_indexer.go:422-429 | on a parent-linked chain one canonical last head makes all heads from the checkpoint on canonical |
| ChainIndexers.ChainIndexer.Sections | core/chain_indexer.go:434-440 | reports the verified sections, all of them canonical on a parent-linked chain |
| ChainIndexers.ChainIndexer.AddCheckpoint | core/chain_indexer.go:130-143 | a checkpoint above everything stored becomes the trusted base, also while a section is processed |
| ChainIndexers.ChainIndexer.Step | core/chain_indexer.go:130-429 | every event does exactly what its part of the indexer does, and a step of the processing nothing where that is not ready; a checkpoint in its place stays there if and only if the event is neither a failed start of a section nor the storing of a section that is not above it, unless that is the checkpoint itself; only a checkpoint above everything stored changes the trusted base |
| ChainIndexers.CheckpointGetsLost | core/chain_indexer.go:348-368 | a checkpoint that comes while a lower section is processed is lost when that is stored |
| ChainIndexers.CheckpointIsReplaced | core/chain_indexer.go:348-368 | a checkpoint for the section being processed is replaced when that is stored |
| ChainIndexers.CheckpointIsDropped | core/chain_indexer.go:392-395 | a checkpoint is lost when the section after it cannot be started |
| ChainIndexers.ChainIndexer.Fork | core/chain_indexer.go:248-275 | known and stored sections and the head passed on are cut to the fork, and no section above the checkpoint ends beyond it |
| ChainIndexers.ChainIndexer.NewHead | core/chain_indexer.go:277-300 | sections become known exactly when confirmed, unless they lie below the checkpoint or the chain differs at it |
| ChainIndexers.ChainIndexer.Begin | core/chain_indexer.go:319-337 | the next section is taken up on the head of the last section that is still stored after verifying, exactly if there is one to do |
| ChainIndexers.ChainIndexer.ProcessBlock | core/chain_indexer.go:397-412 | a block counts exactly if it is at its number and the child of the one before |
| ChainIndexers.ChainIndexer.Finish | core/chain_indexer.go:348-368 | commits exactly if all went well and the head below is still the one the work was based on; the sections are then those up to it; otherwise sections are dropped from the top at most down to the checkpoint |
| ChainIndexers.ChainIndexer.ProcessSection | core/chain_indexer.go:388-418 | on a parent-linked chain that stays as it is, a section is processed to its canonical head exactly if the head it builds on is canonical |
| ChainIndexers.ChainIndexer.UpdateSection | core/chain_indexer.go:318-376 | on such a chain one update stores exactly one more section, with its canonical head, exactly if the last head left after verifying is canonical; otherwise it gives the known sections up |
| ChainIndexers.ChainIndexer.CatchUp | core/chain_indexer.go:304-379 | repeating this stores all known sections with their canonical heads, under the same condition, which always holds without a checkpoint |
| ChainIndexers.ChainIndexer.Commit | core/chain_indexer.go:351-353 | the new head is exactly one section of links above the one before |
| ChainIndexers.ChainIndexer.ResetFails | core/chain_indexer.go:392-395 | a failed start drops every section and every head |
| ChainIndexers.ChainIndexer.Run | core/chain_indexer.go:243-429 | every interleaving keeps every section that is not trusted exactly one section of links above the one before; the trusted base changes only to that of a checkpoint of the run; a checkpoint below which nothing is processed stays in its place while no other comes and every section can be started |
| Retrievals.Emit | les/retrieve.go:303-370 | an event that the attempts give rise to keeps the channel in order |
| Retrievals.MatchesAfter | les/retrieve.go:303-370 | what an attempt does next is an event the counters will account for |
| Retrievals.Queue | les/retrieve.go:201-238 | with nothing queued and nothing before its soft timeout, a new attempt disturbs no event under way |
| Retrievals.SentReq.WaitingMeansOutstanding | les/retrieve.go:296-298 | the loop waits exactly while an attempt is under way or has left an event |
| Retrievals.SentReq.Assign | les/retrieve.go:133-149 | only a peer that is not being asked is asked |
| Retrievals.SentReq.Report | les/retrieve.go:303-370 | an attempt moves on with one event and ends once |
| Retrievals.SentReq.Deliver | les/retrieve.go:373-395 | a reply is taken exactly once from a peer that is being asked, and from no other |
| Retrievals.SentReq.Update | les/retrieve.go:275-292 | the counters follow the attempts: the late count is the number of attempts past their soft timeout |
| Retrievals.SentReq.StepRequesting | les/retrieve.go:201-238 | exactly one of queued and sent before its soft timeout holds after every event, and success needs a valid reply |
| Retrievals.SentReq.StepNoMorePeers | les/retrieve.go:243-263 | nothing is queued or before its soft timeout, and success needs a valid reply |
| Retrievals.SentReq.Drain | les/retrieve.go:267-272 | a stopped request ends only when every attempt has ended and every event is taken |
| Retrievals.SentReq.Stop | les/retrieve.go:414-422 | only the first stop decides the result |
| Retrievals.SentReq.Retrieve | les/retrieve.go:185-197 | every interleaving keeps the counters right, and the result is no error only if the run picked a peer and then got a valid reply from it |
| Retrievals.SentReq.Advance | les/retrieve.go:303-370 | whatever an attempt does next brings the request closer to its end |
| Retrievals.SentReq.Settle | les/retrieve.go:267-272 | a stopped request ends, in whatever order its attempts go on |
| Feeds.Feed.Subscribe | event/feed.go:72-92 | one more subscriber |
| Feeds.Feed.Find | event/feed.go:213-220 | the first slot of a channel, or none exactly if it has no slot |
| Feeds.Feed.DeleteAt | event/feed.go:223-225 | the in-place shift deletes one slot and keeps the order of the others |
| Feeds.Feed.DeactivateAt | event/feed.go:228-232 | the in-place swap moves one slot behind the active ones and loses none |
| Feeds.Feed.Remove | event/feed.go:103-124 | one subscription less, from the inbox or the cases |
| Feeds.Feed.Merge | event/feed.go:135-137 | the inbox moves to the cases and no subscriber changes |
| Feeds.Feed.Send | event/feed.go:128-190 | the log of deliveries grows by the value once for every subscriber there was, but for some of those the log of removals grew by; who is left is who was there without these; the count is that of the deliveries |
| Feeds.Feed.SendTo | event/feed.go:159-181 | one case takes the value and moves behind the active ones |
| Feeds.Feed.Await | event/feed.go:167-182 | one more delivery or removal, so that sending ends |
| Feeds.Feed.TrySends | event/feed.go:159-165 | a pass keeps the active cases a prefix with everything behind it sent |
| Feeds.Feed.TakeRemoval | event/feed.go:171-177 | a removal shortens the active prefix exactly if it was in it |
| Feeds.Deliver | event/feed.go:178-181 | a delivery moves one case from the unsent to the sent |
| Feeds.Leave | event/feed.go:171-177 | a leaving subscriber is counted as dropped or late by its place |
| ServingQueues.ServingQueue.constructor | les/servingqueue.go:124-142 | the limits are the target times 7.2 and 6 billion, rounded down, so that the drop limit is below the burst limit |
| ServingQueues.ServingQueue.AddTask | les/servingqueue.go:279-295 | queued time stays the sum over all tasks, best stays maximal, the load stays within the burst limit, and exactly a load above it freezes peers |
| ServingQueues.ServingQueue.FreezePeers | les/servingqueue.go:213-260 | drops everything of the shortest sufficient prefix of peers by buffer fill, and none of any other peer |
| ServingQueues.FrozenAreEmptier | les/servingqueue.go:203-205 | no frozen peer has a fuller request buffer, relative to its limit, than one that is not frozen |
| ServingQueues.DropPeers | les/servingqueue.go:240-256 | dropping groups drops exactly what belongs to their peers |
| ServingQueues.LoadFalls | les/servingqueue.go:239-256 | after a freeze the load is down to the drop limit or nothing is queued |
| ServingQueues.ServingQueue.Serve | les/servingqueue.go:307-317 | a served task has maximal priority and its time moves from queued to recent |
| ServingQueues.ServingQueue.Done | les/servingqueue.go:96-108 | a task that stops gives back what is left of its expected time, to be taken off the recent time at the next update |
| ServingQueues.ChargedForTime | les/servingqueue.go:72-108 | a task that is started and stopped is charged the time in between, up to the time expected |
| ServingQueues.ServingQueue.UpdateRecentTime | les/servingqueue.go:263-276 | the recent time falls by what was given back and the decay over the time passed, down to zero |
| ServingQueues.PassesMeans | les/servingqueue.go:263-276 | what is left of the recent time is what was given back and the rate times the time passed below what there was, rounded up and never below zero |
| ServingQueues.DecayInParts | les/servingqueue.go:263-276 | updating in between loses at most one unit of decay |
| ServingQueues.ServingQueue.Run | les/servingqueue.go:300-332 | at every loop head the load is within the burst limit |
| StateTransitions.GasPool.AddGas | core/gaspool.go:29-35 | adds gas; the overflow panic is a precondition that every call meets |
| StateTransitions.GasPool.SubGas | core/gaspool.go:39-45 | takes gas exactly if there is enough |
| StateTransitions.StateTransition.BuyGas | core/state_transition.go:175-188 | reserves and charges the whole gas, or changes nothing |
| StateTransitions.StateTransition.PreCheck | core/state_transition.go:190-201 | refuses for the first reason that applies and then changes nothing |
| StateTransitions.StateTransition.RefundGas | core/state_transition.go:272-287 | at most half of the used gas is refunded; the sender and the pool get the rest back |
| StateTransitions.StateTransition.TransitionDb | core/state_transition.go:216-270 | a message is refused for the first thing wrong with it, with its gas bought or not, or runs: it pays exactly for its gas, from the sender to the miner, a call raises the nonce of the sender, and all else is the virtual machine's own change |
| StateTransitions.FineMeans | core/state_transition.go:175-245 | a message is fine exactly if its nonce is the next one where that is checked, the sender can pay for gas and value, and the gas fits into the block and covers the intrinsic cost |
| StateTransitions.RanAccounts | core/state_transition.go:247-287 | what a message does to every account, around what the virtual machine does: the sender pays for all gas first, a call and no creation raises its nonce, at most half of the gas burnt is refunded, the sender gets the rest back and the miner the fee |
| StateTransitions.InertRun | core/state_transition.go:247-287 | with a machine that changes nothing a call raises the nonce of the sender by one and a creation does not, the sender pays the gas used, the miner gets it and nothing else changes |
| StateTransitions.TotalChanges | core/state_transition.go:175-188 | replacing one account changes all ether by the change of its balance |
| StateTransitions.ApplyTransaction | core/state_processor.go:88-116 | refused exactly for the first reason that applies; otherwise the accounts are those the virtual machine leaves with the gas paid, and the receipt accumulates the gas of the block |
| StateTransitions.RanTotal | core/state_transition.go:216-270 | a message changes all ether by just what the virtual machine's change to its prepared accounts is |
| StateTransitions.RanBounds | core/state_transition.go:216-287 | it uses at most its gas and at least half its intrinsic cost |
| StateTransitions.Process | core/state_processor.go:56-82 | the messages run in order, each on the accounts the one before left and with what that left of the gas limit; gas used is the sum over the receipts; a refusal is that of the first message that does not run |
| StateTransitions.BlockTotal | core/state_processor.go:56-82 | over a block all ether changes by the sum of the virtual machine's changes at the states the messages met |
| StateTransitions.NoReplay | core/state_transition.go:190-201 | no checked call runs twice: over a block a checked message that follows a call of its sender has a higher nonce, if the machine lowers none |
| StateTransitions.BlockBounds | core/state_processor.go:56-82 | every message of a block uses at most its gas and at least half its intrinsic cost |
| GasLimits.StaysValid | core/block_validator.go:109-140 | the new limit is at least the minimum, and within a 1024th of the old one exactly unless a nearly full block with a limit below 5120 raises it by four |
| GasLimits.Unwrapped | core/block_validator.go:109-140 | in 64 bits nothing wraps around: the limit moves by a 1024th of one and a half times the gas used, less a 1024th of itself and one, and then towards its targets |
| GasLimits.CanMoveTooFar | core/block_validator.go:109-140 | such a block exists |
| GasLimits.Closer | core/block_validator.go:109-140 | every block brings the limit closer to its targets or into them |
| GasLimits.ReachesTargets | core/block_validator.go:109-140 | whatever the blocks use, the limit reaches its targets in finitely many blocks and never leaves them |

## Left out

- TxPools.TxPool: holds the lists of accounts as values rather than as objects of class `TxList`; that class is proved to compute the same functions of its old contents, so only aliasing and update in place inside the pool are not captured.
- TxPools.TxPool.PromoteTx: leaves out the branches for a refused and for a replacing transaction, because its contract shows that the nonce is always free.
- TxPools.TxPool.Reset: takes the transactions to reinject as any sequence rather than computing them from the two chains; its early returns are one abandoned reset.
- TxPools.TxPool.Run: a panic ends the run with the pool as it was at that point; what a process that recovers would do is not modelled.
- TxPools: nonces are not wrapped around at 2^64, which no account reaches.
- TxPools.TxPool.Add: the count of stale entries is right while no transaction is put into the price heap that is still in it, as `clean` records; afterwards it can be wrong (`StalesGoWrong`), and when it becomes right again is not stated.
- The pool's journal, events, metrics and scheduling of background work.
- HeaderChains.HeaderChain.WriteHeader: the headers are numbered after their parents, as header verification guarantees; verification itself is left out.
- HeaderChains.HeaderChain.SetHead: without callbacks and ancient store; the head need not be the heaviest of what is left, because a side branch may be heavier.
- HeaderChains.HeaderChain.Load: the stored headers form a tree from the genesis header with their total difficulties, as writing leaves them.
- HeaderChains.HeaderChain.GetAncestor: its second reading of the canonical marker, against concurrent changes, is left out.
- BlockChains: state commitment, receipts, logs, ancient data and the import loop around the writes.
- ChainIndexers: child indexers and crash recovery.
- Retrievals: frozen peers; the channel has no capacity, so a sender that would block is one that has not reported yet.
- Feeds.Feed.Send: the type check and the value field of the cases; channels that are ready are any choice.
- ServingQueues.ServingQueue.AddTask: times do not wrap around at 64 bits, which needs sums of more than five hundred years.
- ServingQueues: buffer fill, target and decay are real numbers rather than floats, and the priority queue compares priorities without the wrap-around of their difference; the serving threads are left out.
- StateTransitions: the virtual machine is any function that returns no more gas than it is given; block rewards and the effects of a failed message on the rest of the state are left out.
- Database encoding, tries, snapshots, signatures, networking and configuration.
