# Verified models of a Go blockchain node

This project models the parts of an Ethereum-style node in which the state
changes in the most intricate ways, and proves what they promise, with Dafny
4.11. `dafny verify dfyconfig.toml` checks all of it.

- **Binary Merkle tree hasher** (`Bmt*.dfy`). The concurrent hasher is a state
  machine whose threads interleave at every access to a shared node. Under every
  schedule it gives the hash of the short recursive reference, never gets stuck,
  ends after a bounded number of steps and leaves its tree clean. For every job and
  every clean tree this holds if and only if no counter that the job toggles is
  negative; a tree can be reused for 2^30 chunks, and that bound is exact. Writing a
  chunk in parts makes no difference if it fits or the number of segments is even.
- **Header chain and block chain** (`Ancestry`, `TotalDifficulty`, `HeaderChain`,
  `CommonAncestor`, `TxLookup`, `BlockChain`). Over every run from the genesis
  block the canonical index follows the head's ancestors, the head is a heaviest
  block and the transaction lookup index is exact. A reorganisation inserts the
  new branch from the top down, so the header head ends at the lowest block that the
  index did not hold; the exact condition for it to be the new head is proved, and a
  three-block run shows it wrong.
- **Transaction pool** (`BinaryHeap`, `Sorting`, `TxContents`, `TxSortedMap`,
  `TxList`, `TxPricedList`, `PricedRun`, `PoolAccount`, `SlotEqualiser`). Heaps, caches
  and caps refine plain maps; the slot equaliser is max-min fair. The price heap can
  list a transaction twice: when it leaves a heap of four or more and comes back, and
  when it is queued again because one before it was removed; both are proved exactly.
  Removing an account's first pending transaction leaves later ones in neither list.
  The heap operations of Go's standard library are modelled in `BinaryHeap`.
- **Event feed** (`Feed`). Exactly-once delivery while other goroutines subscribe
  and unsubscribe at any moment.
- **Weighted random selection** (`WeightedSlots`, `WeightedRandomSelect`). An
  8-ary tree of sums, updated in place, refines one row of slots in which every
  item occupies as many consecutive values as it weighs.
- **Chain indexer** (`ChainIndexer`, `IndexerRace`). Section processing runs without
  the lock and is interleaved with announcements of reorganisations. A failed
  backend reset deletes all sections without the lock; with every access to the
  counter and the database a step of its own, overlapping a reorganisation does no
  harm if and only if that removes no section.
- **Gas and wei** (`Wei`, `StateTransition`, `StateProcessor`). The virtual machine
  is an arbitrary function that conserves wei and returns no more gas than it was
  given. It is run once on each message, wei and gas are accounted for, and a sender's
  transactions of a block carry rising nonces.
- **Derivation paths** (`DerivationPath`). Printing and parsing undo each other;
  relative texts stand behind the default root; exactly which texts are accepted.

Conventions. Hashes are arbitrary injective functions that never give the zero
hash. Coin flips, map iteration order, random draws, cache evictions and the
moves of other threads are nondeterministic. Database reads whose content other
threads may change are parameters. Integers are unbounded except where a width is
written out: the toggle counters (32 bits), gas, nonces, price bumps and section
counts (64 bits), path components (32 bits).

Where code and comments differ, the code is followed. The comment above the
insertions of `reorg` says that order does not matter; `BlockChains.StrandedHeader`
shows that it does for the header head.

## Model

| member | source | states |
|---|---|---|
| BmtReference.RefHasher.constructor | bmt/bmt_r.go:39-55 | the doubling loop ends with a power-of-two span of at least half the capacity |
| BmtReference.RefHasher.Hash | bmt/bmt_r.go:59-65 | the hash object's writes and resets compute the recursive reference on the part of the input that fits |
| BmtReference.RefHasher.HashSpan | bmt/bmt_r.go:67-85 | the recursion with its halving loop equals the reference function for every input and span |
| BmtTree.UpIsReference | bmt/bmt_r.go:67-85 | what a tree node passes up is the reference hash of exactly the bytes below it, for every node and every sufficient span |
| BmtTree.ChunkRootIsReference | bmt/bmt_r.go:59-85 | the value at a chunk's root is the reference hash, for every chunk |
| BmtSetup.Depth | bmt/bmt.go:521-526 | the least height whose data nodes hold all segments |
| BmtSetup.NewTree | bmt/bmt.go:253-276 | the built tree has exactly the nodes of a complete tree, all clean, with zero counters |
| BmtSetup.Hasher.Write | bmt/bmt.go:334-373 | any write after any others hands out double segments in order and keeps the last one open; they are those of all data written, cut at the capacity, if and only if the data fit, the number of segments is even, nothing was written before or the last data node is open |
| BmtSetup.HandedIff | bmt/bmt.go:334-373 | that condition, for every earlier and every new data |
| BmtSteps.OneWinner | bmt/bmt.go:463-494 | two goroutines never both go on from one node |
| BmtMoves.RunStepKeeps | bmt/bmt.go:442-494 | every step of every goroutine keeps the invariant |
| BmtTheorem.MainStepKeeps | bmt/bmt.go:293-319 | every step of writing, finalising, summing and releasing keeps the invariant |
| BmtTheorem.ExecutesKeeps | bmt/bmt.go:293-547 | the invariant holds after every schedule |
| BmtTheorem.NeverStuck | bmt/bmt.go:293-494 | until the tree is released some thread can move |
| BmtTheorem.ScheduleBound | bmt/bmt.go:463-494 | every schedule is at most as long as a measure of its first state |
| BmtTheorem.ReleasedTree | bmt/bmt.go:425-440 | a released tree is clean: even counters, no unbalanced flag, root flag only at the top |
| BmtTheorem.ConcurrentHash | bmt/bmt.go:253-547 | for every segment count, chunk that fits, clean tree without negative counters at the nodes it toggles, and schedule: at most one result, it is the reference hash, no deadlock, bounded length, clean tree afterwards with each toggled counter up by two |
| BmtTheorem.FreshAfter | bmt/bmt.go:425-440 | a job leaves no counter negative if and only if none that it toggles was at its last even value |
| BmtTheorem.ToggleAlternates | bmt/bmt.go:509-511 | the toggle makes the first arrival wait and lets the second pass if and only if the 32-bit counter is not negative |
| BmtExact.WaitsHalf | bmt/bmt.go:509-511 | of any number of arrivals at a counter, wrapped or not, at most every other one waits |
| BmtExact.OnceEverywhere | bmt/bmt.go:463-494 | with one result and even counters every node was left exactly once, whatever the counters were |
| BmtExact.HashIff | bmt/bmt.go:293-547 | for every job and clean tree: all schedules give at most one result, the right one, and a clean released tree, if and only if no counter that the job toggles is negative |
| BmtExact.WrappedCounter | bmt/bmt.go:463-511 | with a negative root counter there is, for every two-segment chunk, a schedule that sends two results |
| BmtSession.SessionGood | bmt/bmt.go:253-547 | any sequence of chunks on one new tree: the first 2^30 are hashed right under every schedule and release a clean tree |
| BmtSession.SessionEnds | bmt/bmt.go:509-511 | after 2^30 chunks that combine at one node, a further chunk that combines there has a schedule that goes wrong |
| BmtSession.WriteParts | bmt/bmt.go:334-373 | a chunk written in parts is cut like one written at once, if it fits or the number of segments is even |
| BmtSession.HashChunk | bmt/bmt.go:253-547 | sizing, building, writing in parts and any schedule give exactly the hash of the reference hasher on the same data |
| HeaderChains.WriteKeeps | core/headerchain.go:131-195 | one write keeps the canonical index equal to the head's ancestor path with nothing above it, totals additive and the head heaviest; the head's total never falls |
| HeaderChains.StatusTells | core/headerchain.go:140-195 | an orphan changes nothing, a side header neither head nor index; the head moves if and only if the total is greater, or equal with the coin |
| HeaderChains.RunKeeps | core/headerchain.go:131-195 | the same after every run of writes; no stored total ever changes |
| HeaderChains.GenesisOk | core/headerchain.go:71-108 | the invariant holds of the genesis chain |
| HeaderChains.RewriteStep | core/headerchain.go:165-176 | the overwrite loop cannot walk below the genesis header |
| HeaderChains.RewriteDone | core/headerchain.go:165-176 | where the overwrite loop stops the index agrees with the new head all the way down |
| HeaderChains.HeaderChain.GetTd | core/headerchain.go:312-324 | cached or not, the answer is the stored total |
| HeaderChains.HeaderChain.GetHeader | core/headerchain.go:344-356 | cached or not, the answer is the stored header |
| HeaderChains.HeaderChain.DeleteAbove | core/headerchain.go:157-163 | exactly the assignments from a number upwards are gone |
| HeaderChains.HeaderChain.RewriteBelow | core/headerchain.go:165-176 | afterwards the index agrees with every ancestor of the header |
| HeaderChains.HeaderChain.WriteHeader | core/headerchain.go:131-195 | database, index, caches and head fields end as the specification says, for known, unknown and orphan headers; the status tells which of the three happened, and the totals and the coin decide |
| CommonAncestors.FindCommonAncestor | core/database_util.go:608-632 | it ends, and returns the highest header on both parent walks, or nothing exactly when the walks never meet |
| CommonAncestors.ForkExists | core/database_util.go:608-632 | any two headers of a tree have a last common ancestor |
| CommonAncestors.BranchAt | core/blockchain.go:1091-1131 | the branch above a height lists the ancestors one by one |
| CommonAncestors.FoundIsFork | core/database_util.go:608-632 | on a complete tree the result is that ancestor |
| CommonAncestors.ReorgWalk | core/blockchain.go:1091-1131 | over any database, gaps included: the last common block and both walks above it, or failure exactly if the walks never meet |
| CommonAncestors.WalkedFork | core/blockchain.go:1091-1131 | on a complete tree the walks meet at the fork and collect exactly the two branches above it |
| CommonAncestors.TxDifference | core/types/transaction.go:334-349 | exactly the elements of the first list that are not in the second |
| CommonAncestors.DifferenceConcat | core/types/transaction.go:334-349 | order and repetitions are kept |
| CommonAncestors.ResetWalk | core/tx_pool.go:366-397 | over any database, gaps included: what the old walk holds above the last common block and the new one does not, or nothing exactly if the walks never meet |
| CommonAncestors.ReinjectedFork | core/tx_pool.go:366-397 | on a complete tree that is what the old branch holds and the new one does not |
| CommonAncestors.Reset | core/tx_pool.go:353-398 | nothing is re-injected without an old head, from parent to child or over more than 64 heights; otherwise what the walk finds |
| CommonAncestors.ExtensionReinjects | core/tx_pool.go:357 | not walking from parent to child loses nothing |
| TxLookup.IndexComplete | core/database_util.go:464-481 | the index of a chain holds the block, number and position of every transaction on it |
| TxLookup.IndexSound | core/database_util.go:464-481 | it holds nothing else |
| TxLookup.WriteAllIs | core/blockchain.go:1145-1153 | the order in which a branch's entries are written does not matter |
| TxLookup.ReorgReindexes | core/blockchain.go:1143-1161 | writing the new branch and deleting the difference turns the old chain's index into the new chain's |
| BlockChains.WriteTxLookupEntries | core/database_util.go:464-481 | the entries of a block's transactions, later ones winning, are laid over the index |
| BlockChains.DeleteTxLookupEntries | core/blockchain.go:1159-1161 | exactly the entries of the listed transactions are gone |
| BlockChains.WriteBlockKeeps | core/blockchain.go:786-855 | one write keeps the canonical index up to the head, the heaviest head and the exact lookup index |
| BlockChains.BlockRunKeeps | core/blockchain.go:786-855 | the same after every run of writes from the genesis block |
| BlockChains.HeadChoice | core/blockchain.go:816-849 | a heavier block always becomes the head and a lighter one never; of two as heavy the lower one wins, and at one height the coin; a block set aside changes neither head nor indices |
| BlockChains.InsertedCanonical | core/blockchain.go:1143-1153 | inserting the branch newest first leaves the new head's path on top of the old index |
| BlockChains.ForkBelowBoth | core/blockchain.go:1091-1131 | with positive difficulties a reorganisation forks below both heads |
| BlockChains.HeaderHeadReorg | core/blockchain.go:1143-1153 | after a reorganisation the header head is the lowest block of the new branch |
| BlockChains.InsertBranchHeader | core/blockchain.go:1143-1153 | inserting a branch newest first leaves the header head at its lowest block that the index did not hold |
| BlockChains.HeaderHeadAfter | core/blockchain.go:455-477 | once any block became the head, the header head is that block if and only if the index held all its ancestors, and did not hold it unless the header head was there already |
| BlockChains.HeaderHeadParent | core/blockchain.go:455-477 | with positive difficulties and a new block: if and only if its parent was canonical |
| BlockChains.StrandedHeader | core/blockchain.go:1143-1153 | three concrete blocks after which the two heads differ |
| BlockChains.BlockChain.Insert | core/blockchain.go:455-477 | the head block moves; the header head follows only if the index did not hold the block |
| BlockChains.BlockChain.Reorg | core/blockchain.go:1068-1161 | it succeeds, and index, header head and lookup entries are those of the new chain |
| BlockChains.BlockChain.WriteBlockAndState | core/blockchain.go:786-855 | database, indices, totals and heads end as the specification says, for orphans, side blocks, extensions and reorganisations; the status tells which happened, and totals, heights and the coin decide |
| Feeds.Find | event/feed.go:210-217 | the first position of a channel, or -1 exactly if it is absent |
| Feeds.Delete | event/feed.go:220-222 | in place, the list without one element, the others in order |
| Feeds.Deactivate | event/feed.go:225-229 | in place, one element swapped behind the end of a list one shorter |
| Feeds.Delivered | event/feed.go:157-178 | a delivery moves one case from the unserved prefix to the served suffix |
| Feeds.Cancelled | event/feed.go:169-174 | deleting the case of any unsubscriber keeps prefix and suffix |
| Feeds.AllServed | event/feed.go:164-187 | with only slot zero left, every subscription was delivered to or cancelled before |
| Feeds.Feed.Subscribe | event/feed.go:73-93 | the channel joins the inbox |
| Feeds.Feed.Unsubscribe | event/feed.go:104-125 | a channel in the inbox is deleted there, any other is left to the sender |
| Feeds.Feed.RemoveWaiting | event/feed.go:104-125 | exactly the first case of the channel is deleted |
| Feeds.Feed.TryAll | event/feed.go:157-163 | one pass of attempts without blocking counts its deliveries and loses nobody |
| Feeds.Feed.Select | event/feed.go:166-178 | one blocking choice delivers to one unserved case or carries out one cancellation; lists and prefix together shrink |
| Feeds.Feed.SendLoop | event/feed.go:151-179 | it ends with every case served, whatever the others do; each step lowers a measure |
| Feeds.Feed.Send | event/feed.go:129-187 | each subscription present at the start is delivered to exactly once unless cancelled first, nothing is lost but to cancellations, and the count is the number of deliveries |
| SlotEqualiser.TxPool.CutLast | core/tx_pool.go:988-997 | list, hash set and next nonce after one cut |
| SlotEqualiser.TxPool.LevelDown | core/tx_pool.go:982-1002 | earlier offenders come down to the last one or the pool fits |
| SlotEqualiser.TxPool.Gather | core/tx_pool.go:974-1005 | offenders are taken longest first and levelled, until the pool fits or all are taken and level |
| SlotEqualiser.TxPool.ReduceAll | core/tx_pool.go:1006-1025 | all offenders come down together to their allowance or the pool fits |
| SlotEqualiser.TxPool.Equalise | core/tx_pool.go:957-1027 | the pool fits or no remote account exceeds its allowance; only remote accounts over it are cut, from the end, never below it, none ends below another remote account; no round was cut in vain |
| SlotEqualiser.UpperCut | core/tx_pool.go:982-1002 | a round over the earlier offenders keeps them level |
| SlotEqualiser.FullCut | core/tx_pool.go:1006-1025 | a round over all offenders keeps them level |
| SlotEqualiser.LevelledFair | core/tx_pool.go:957-1027 | level offenders are a max-min fair outcome |
| TxContents.SortedUnique | core/tx_list.go:203-216 | a map has one nonce-sorted listing |
| TxSortedMaps.FrontIsLeastNonce | core/tx_list.go:34-50 | the front of the key heap is the least nonce of the map |
| TxSortedMaps.TxSortedMap.Put | core/tx_list.go:73-79 | the plain map is updated; heap and cache stay in step |
| TxSortedMaps.TxSortedMap.Forward | core/tx_list.go:84-98 | exactly the nonces below the threshold leave, in nonce order; the cache is the sorted rest |
| TxSortedMaps.TxSortedMap.Filter | core/tx_list.go:102-123 | exactly the matching transactions leave, each once; the heap is rebuilt |
| TxSortedMaps.TxSortedMap.Cap | core/tx_list.go:127-148 | the lowest nonces stay, the others leave highest first; the cache is cut with them |
| TxSortedMaps.TxSortedMap.Remove | core/tx_list.go:152-169 | the nonce leaves map and heap, and the result tells whether it was there |
| TxSortedMaps.TxSortedMap.Ready | core/tx_list.go:178-193 | the maximal run of consecutive nonces from the least one leaves, or nothing if that is above the start |
| TxSortedMaps.TxSortedMap.Flatten | core/tx_list.go:203-216 | the nonce-sorted contents, cached or not |
| TxLists.TxList.Add | core/tx_list.go:252-273 | a replacement is accepted if and only if it is dearer and reaches the old price plus the bump in percent, rounded down (in 64-bit arithmetic); the caps stay upper bounds of price times gas plus value and of gas |
| TxLists.TxList.Forward | core/tx_list.go:278-280 | consecutive nonces stay consecutive |
| TxLists.TxList.Filter | core/tx_list.go:291-315 | short circuit or not, the outcome is that of the unconditional filter: price times gas plus value and the gas of all that stay are within the limits, every removed one exceeds one of them, every invalidated one comes after a removed one; strict lists stay consecutive |
| TxLists.Payable | core/types/transaction.go:256-260 | the same for every map of transactions |
| TxLists.TxList.Cap | core/tx_list.go:319-321 | the lowest nonces stay, so consecutive nonces stay consecutive |
| TxLists.TxList.Remove | core/tx_list.go:326-337 | removed, invalidated and remaining share out the old contents; strict lists stay consecutive |
| TxPricedLists.TxPricedList.Put | core/tx_list.go:404-406 | one more entry, heap order kept |
| TxPricedLists.TxPricedList.Removed | core/tx_list.go:411-425 | below a quarter of stale entries nothing moves, otherwise the heap lists the pool exactly |
| TxPricedLists.TxPricedList.Cap | core/tx_list.go:429-456 | exactly the live remote entries under the threshold leave, cheapest first; all other live entries are kept |
| TxPricedLists.TxPricedList.Underpriced | core/tx_list.go:460-482 | true if and only if the transaction is remote, there is a live entry and none is cheaper |
| TxPricedLists.UnderpricedIff | core/tx_list.go:460-482 | without local accounts, a transaction is underpriced if and only if, once added, it could itself be discarded first |
| TxPricedLists.TxPricedList.Discard | core/tx_list.go:486-509 | the cheapest live remote entries leave in price order with every stale entry on the way, fewer than asked only if nothing but live local entries remains; nothing else that is live is lost |
| TxPricedLists.DiscardCheapest | core/tx_list.go:486-509 | over the pool: min(count, available) distinct remote transactions, none of those left is cheaper |
| TxPricedLists.CapExact | core/tx_list.go:429-456 | over the pool: exactly the remote transactions under the threshold |
| TxPricedLists.StillTracks | core/tx_list.go:486-509 | the heap lists the rest of the pool once the dropped transactions leave it |
| TxPricedLists.OnceDistinct | core/tx_list.go:486-509 | a discard of any size returns distinct transactions if no live remote one is listed twice |
| TxPricedLists.DistinctIff | core/tx_list.go:486-509 | discards of every size return distinct transactions if and only if the heap lists no live remote transaction twice |
| TxPricedLists.PutTracks | core/tx_list.go:404-406 | putting a transaction new to the pool keeps the heap in step if and only if no stale entry for it is left |
| TxPricedLists.PutAgain | core/tx_list.go:404-406 | putting one that is live already, or whose stale entry is left, makes it possible to discard it twice |
| TxPricedLists.AllDropped | core/tx_list.go:486-509 | a discard of more than there are returns distinct transactions if and only if none is listed twice |
| PricedRuns.ThereAndBackIff | core/tx_list.go:404-425 | in every run in which transactions are added to an empty heap and the first leaves and comes back, all discards are distinct if and only if there are fewer than four or its account is local |
| PricedRuns.BackTwice | core/tx_list.go:486-509 | if it is the cheapest of four or more, every discard of two returns it twice |
| PricedRuns.LeftAndBack | core/tx_list.go:404-425 | every such run happens, and ends in that discard |
| PricedRuns.RequeueIff | core/tx_pool.go:862-893 | from a heap in step with the pool, a removal and the re-queueing of what it invalidates keep it in step if and only if nothing was invalidated, and discards distinct if and only if nothing remote was |
| PoolAccounts.Account.Enqueue | core/tx_pool.go:677-699 | a queued transaction with the same nonce must be outbid; pool and heap take exactly the steps of a replacement or an addition |
| PoolAccounts.Account.Promote | core/tx_pool.go:715-748 | a transaction new to the pool joins the pending list, the pool and the heap |
| PoolAccounts.Account.RemoveTx | core/tx_pool.go:862-901 | the steps on pool and heap are a departure and one addition for each invalidated transaction, none if no pending one is left; afterwards the two lists hold exactly the account's pooled transactions, if and only if the removed one was not the first of several pending |
| PoolAccounts.QueuedAgain | core/tx_pool.go:862-893 | a whole run: any transactions of one account become pending, any but the first is removed, everything is discarded; the result is distinct if and only if it was the last or the account is local |
| WeightedRandomSelects.WrsNode.Insert | les/randselect.go:107-132 | a node that is not full has room, never panics, and one empty slot takes the item; the returned index is that slot |
| WeightedRandomSelects.WrsNode.FreeBranch | les/randselect.go:108-114 | the scan stops at a branch with room |
| WeightedRandomSelects.WrsNode.SetWeight | les/randselect.go:136-157 | exactly the indexed slot changes, all partial sums and counts with it |
| WeightedRandomSelects.WrsNode.Choose | les/randselect.go:160-173 | the item of the slot on which the value falls, without panic for any value below the total |
| WeightedRandomSelects.WrsNode.Above | les/randselect.go:61-67 | a new root keeps every index |
| WeightedRandomSelects.WeightedRandomSelect.SetWeight | les/randselect.go:54-73 | tree and index agree with the plain map from items to weights |
| WeightedRandomSelects.WeightedRandomSelect.Draw | les/randselect.go:84-85 | the drawn item is in the set and the value lies in its interval |
| WeightedRandomSelects.WeightedRandomSelect.Attempt | les/randselect.go:84-92 | the stored weight becomes the one read; a weight not lowered is accepted, a lowered one exactly if the second draw is below it; a rejection strictly lowers the total |
| WeightedRandomSelects.WeightedRandomSelect.Choose | les/randselect.go:79-94 | for all re-evaluated weights the retry loop ends; the choice is in the set; the map is the old one with the weights read; nothing is returned exactly when the set is empty |
| WeightedRandomSelects.Proportional | les/randselect.go:160-173 | an item is found for exactly the values of one interval as long as its weight |
| WeightedRandomSelects.IntervalFits | les/randselect.go:160-173 | that interval is not empty and lies below the total |
| WeightedSlots.FallsOnce | les/randselect.go:160-173 | no value falls on two slots |
| WeightedSlots.FallsSomewhere | les/randselect.go:160-173 | every value below the total falls on a slot |
| ChainIndexers.ChainIndexer.SetValidSections | core/chain_indexer.go:402-414 | count and heads after shrinking or growing |
| ChainIndexers.ChainIndexer.NewHead | core/chain_indexer.go:218-257 | a reorganisation cuts known, stored and heads to the reorg point; a new head only raises the known sections, to as many as have all their headers confirmed |
| ChainIndexers.ChainIndexer.Interfere | core/chain_indexer.go:218-257 | any number of announcements keeps the invariant, only cuts, and loses no section exactly if no reorganisation forked below the next one |
| ChainIndexers.ChainIndexer.ReadSection | core/chain_indexer.go:348-361 | under interference the last header read is returned if and only if every header found is a child of the one before |
| ChainIndexers.ChainIndexer.ProcessSection | core/chain_indexer.go:338-367 | a section is accepted if and only if every read finds a child of the one before; then it is one whole span of headers (the deletion after a failed reset taken as one uninterrupted step) |
| ChainIndexers.ChainIndexer.UpdateOnce | core/chain_indexer.go:274-329 | in every interleaving with announcements heads are stored for exactly the counted sections, each a whole span above the one before; a section is recorded if and only if it was processed and no reorganisation announced meanwhile forked below it, and its head is sure to be canonical if and only if none after the last read forked below the head (the deletion after a failed reset taken as one uninterrupted step) |
| ChainIndexers.SpanBack | core/chain_indexer.go:348-361 | from a section head, section size parents lead to the head before |
| ChainIndexers.OneChain | core/chain_indexer.go:338-367 | all stored sections form one parent-linked chain from the start |
| ChainIndexers.SureIff | core/chain_indexer.go:301-303 | a block is sure to stay canonical through any list of reorganisations if and only if none forks below it |
| ChainIndexers.RecordedUnsureIff | core/chain_indexer.go:301-303 | a section is recorded although its head need not be canonical, if and only if no reorganisation forked below the section but one after the last read forked below its last header |
| ChainIndexers.RecordedStaleIff | core/chain_indexer.go:301-303 | a reorganisation announced after the last read leaves an abandoned head recorded if and only if it forks inside the section, below its last header |
| ChainIndexers.StaysCanonical | core/chain_indexer.go:301-303 | a recorded head stays canonical through reorganisations that fork at or above it |
| IndexerRaces.OverlapIff | core/chain_indexer.go:402-414 | the unlocked deletion after a failed reset, overlapping a reorganisation at every access: under every schedule both threads end after the turns they need alone, with counter, count and heads exact, if and only if the reorganisation removes no section |
| IndexerRaces.ExactIff | core/chain_indexer.go:402-414 | schedules that do end, end exact if and only if it removes no section or there is at most one |
| IndexerRaces.Wrapped | core/chain_indexer.go:409-412 | one section, to be removed: a schedule that decrements the counter from zero to 2^64 - 1 |
| IndexerRaces.Spins | core/chain_indexer.go:409-412 | after that no continuation of fewer than 2^64 - 2 steps ends the reorganisation, which holds the lock |
| IndexerRaces.LostHead | core/chain_indexer.go:402-414 | two or more sections, all to be removed: a schedule that leaves the last head in the database |
| IndexerRaces.LostCount | core/chain_indexer.go:227-235 | some sections to be kept: a schedule that counts them although their heads are gone |
| StateTransitions.IntrinsicGas | core/state_transition.go:83-105 | 53000 for a creation since Homestead, else 21000, plus 4 for every zero byte and 68 for every other |
| StateTransitions.GasPool.AddGas | core/gaspool.go:27-31 | the pool grows by the amount |
| StateTransitions.GasPool.SubGas | core/gaspool.go:35-42 | it shrinks by the amount, or fails unchanged exactly if it holds less |
| StateTransitions.StateTransition.UseGas | core/state_transition.go:159-166 | fails unchanged exactly if the gas does not suffice |
| StateTransitions.FeeIs | core/state_transition.go:174 | the fee of the specification is the product that the code forms |
| StateTransitions.StateTransition.BuyGas | core/state_transition.go:168-191 | succeeds if and only if limit, balance and pool allow it; otherwise nothing changes and the error is that of the first check that fails |
| StateTransitions.StateTransition.PreCheck | core/state_transition.go:193-207 | the same, and a nonce that is checked must match; too high and too low are told apart |
| StateTransitions.StateTransition.RefundGas | core/state_transition.go:263-280 | at most half of the used gas is refunded, the 64-bit counter stays within the limit, sender and pool get the price and amount of all gas left |
| StateTransitions.SettledConserves | core/state_transition.go:212-284 | the settled balances hold as much wei as before, for every sender and coinbase |
| StateTransitions.ExecutionRuns | core/state_transition.go:236-245 | the machine gets the message's sender, recipient, data and value, the gas limit less intrinsic gas, the balances less gas limit times price, and for a call the sender's nonce raised by one |
| StateTransitions.RefundAtMostHalf | core/state_transition.go:271-275 | at most half of the required gas is refunded, and the whole counter if that is no more |
| StateTransitions.AppliedAdvances | core/state_transition.go:193-245 | below the wrap an applied message carries the sender's nonce and leaves a higher one |
| StateTransitions.NotAppliedAgain | core/state_transition.go:193-245 | a message that checks its nonce is not accepted again in any later state |
| StateTransitions.StateTransition.TransitionDb | core/state_transition.go:212-261 | a message is applied if and only if all checks pass, else the first that fails is named; the machine is run once on the message itself; wei is conserved, the pool pays exactly for the gas used, every balance is determined; with a machine that keeps nonces a call raises the sender's by one modulo 2^64 and no other |
| StateProcessors.ApplyTransaction | core/state_processor.go:90-130 | pool and running total move by the same amount; receipt and state follow from the execution |
| StateProcessors.Process | core/state_processor.go:58-84 | transactions are applied in turn, the pool before each is the block limit less all gas used; it stops at the first that does not apply; wei is conserved, receipts carry prefix sums and number all logs |
| StateProcessors.AppliedFits | core/state_processor.go:58-130 | every applied transaction is signed, carries its sender's nonce, is paid for up front and fits into the gas left |
| StateProcessors.AppliedRuns | core/state_processor.go:90-104 | the machine runs each transaction's own data and value from its sender to its recipient |
| StateProcessors.RisingNonces | core/state_processor.go:58-84 | a sender's transactions of one block carry rising nonces, so none is applied twice |
| StateProcessors.LogsNumbered | core/state_processor.go:72-80 | the logs of a block are numbered from zero without a gap |
| StateProcessors.ReceiptTells | core/state_processor.go:106-127 | a receipt names transaction and block, the sums of gas differ by what was used, and a contract address is given exactly for a creation |
| StateProcessors.SetReceiptsData | core/blockchain.go:663-694 | in place, gas per transaction from the sums, hashes, addresses, and logs numbered through the block |
| StateProcessors.ReceiptsRecovered | core/blockchain.go:663-694 | recomputing what is not stored gives back the receipts of the processed block |
| DerivationPaths.ParseDerivationPath | accounts/hd.go:67-117 | the loop accepts and rejects with the right error exactly as the path grammar says |
| DerivationPaths.ToString | accounts/hd.go:121-135 | the loop gives the canonical text |
| DerivationPaths.ParseWords | accounts/hd.go:67-117 | an accepted path is not empty and holds 32-bit numbers |
| DerivationPaths.ComponentRoundTrip | accounts/hd.go:90-114 | every component, hardened or not, survives printing and parsing |
| DerivationPaths.RelativeIs | accounts/hd.go:67-87 | a text without a leading "m" or slash means the same as behind "m/44'/60'/0'/0/", errors included |
| DerivationPaths.AcceptedIff | accounts/hd.go:67-117 | a text is accepted if and only if it has a first part that is not blank, a component, and only good components; the two other failures have their own errors |
| DerivationPaths.AbsoluteIs | accounts/hd.go:90-115 | an accepted text with a leading "m" is the list of its components' values |
| DerivationPaths.FirstBad | accounts/hd.go:90-115 | the error is that of the first bad component |
| DerivationPaths.HexRead | accounts/hd.go:101 | hexadecimal numbers with their prefix are read back |
| DerivationPaths.BinaryRead | accounts/hd.go:101 | binary numbers with their prefix are read back |
| DerivationPaths.OctalRead | accounts/hd.go:101 | numbers with a leading zero are octal |
| DerivationPaths.SignRead | accounts/hd.go:101 | a sign may come first |
| DerivationPaths.PlainRange | accounts/hd.go:105-114 | a plain decimal component is accepted exactly up to 2^32 - 1 |
| DerivationPaths.HardenedRange | accounts/hd.go:95-114 | a hardened one exactly up to 2^31 - 1, with 2^31 added |
| DerivationPaths.NegativeRange | accounts/hd.go:105-110 | a negative one only if it is zero |
| DerivationPaths.ComponentInvalid | accounts/hd.go:101-104 | a component with a foreign character, or an empty one, is invalid |
| DerivationPaths.SpacesIgnored | accounts/hd.go:90-98 | whitespace around a component makes no difference |
| DerivationPaths.RoundTrip | accounts/hd.go:67-135 | parsing a printed path gives it back, except for the empty path, which is rejected |
| DerivationPaths.Reprint | accounts/hd.go:67-135 | re-printing any accepted text is stable |
| DerivationPaths.PrintInjective | accounts/hd.go:121-135 | different paths print differently |

## Left out

- Networking, RPC, console, storage engines, logging and metrics: input and output around the modelled logic.
- The virtual machine, the state trie, RLP, signatures and consensus engines: given by contracts only.
- Over-capacity writes, `ReadFrom`, the tree pool and the length prefix of the Merkle hasher.
- BmtSetup.Hasher.Write: slices are values; that an open segment shares memory with the caller's buffer is not modelled.
- BmtExact.WrappedCounter: the send of a result never blocks, while the channel is unbuffered and the second send would wait for the next `Sum`; BmtExact.HashIff does not depend on it, since releasing the tree after the first result leaves a counter odd.
- BmtTheorem.ConcurrentHash: asks that no counter the chunk toggles is negative, because the property is false otherwise (BmtExact.HashIff); reading both children when they are combined is one step.
- HeaderChains.HeaderChain.GetTd: cache keys hold no number, so an answer for a wrong number is possible; callers pass the number one below the child's.
- Canonical entries above the head in full-block mode: `insert` does not clear them, so the block invariant speaks of numbers up to the head.
- `SetHead`, `Rollback`, `FastSyncCommitHead` and fast-sync receipts: they leave the runs over which the chain invariants hold.
- BlockChains.BlockChain.Reorg: collecting the deleted logs and sending the side-chain events are not modelled.
- BlockChains.BlockChain.WriteBlockAndState: committing the state, receipts and preimages is not modelled.
- CommonAncestors.ResetWalk: both heads are stored blocks; the checks before the walk are in CommonAncestors.Reset.
- CommonAncestors.Reset: the distance of the heights is exact, not a difference of `float64`; the state that is loaded afterwards is not modelled.
- PoolAccounts.Account.RemoveTx: one account; the next nonce and the time of the last activity are not modelled, and an emptied list keeps its caps instead of being made anew.
- Feeds.Feed.Subscribe: the checks of the channel's type and direction, with their panics, are not modelled.
- Feeds.Feed.Send: values, type checks and the once-only wrapper of a subscription are not modelled; channels are told apart by number.
- SlotEqualiser.TxPool.Equalise: priorities are exact lengths, not `float32`; the price heap's stale counter is not updated along with the cuts; the later part of the function, which limits queued transactions, is not modelled.
- TxPricedLists.TxPricedList.Discard: that the stale counter is exact is not claimed, because discarded entries have left the heap before they are counted as removed.
- Signature errors in the local account test of the price heap: every transaction has a sender.
- WeightedRandomSelects.WeightedRandomSelect.SetWeight: weights are non-negative and unbounded; overflow of 64-bit sums is not modelled, nor are probabilities.
- ChainIndexers.ChainIndexer.NewHead: the cascaded head and the notification of child indexers are not modelled.
- ChainIndexers.ChainIndexer.ProcessSection: the deletion after a failed reset is one step here; its races are the subject of IndexerRaces.OverlapIff.
- ChainIndexers.ChainIndexer.UpdateOnce: as above; `AddKnownSectionHead`, throttling and shutdown are not modelled.
- ChainIndexers.SureIff: a reorganisation is taken to happen when it is announced.
- IndexerRaces.OverlapIff: memory accesses are taken to be sequentially consistent.
- StateTransitions.StateTransition.TransitionDb: on an error after gas was bought nothing is claimed, since the caller discards the state; deletion of self-destructed accounts between transactions is not modelled.
- StateProcessors.ApplyTransaction: bloom filters and intermediate state roots are not modelled.
- StateProcessors.Process: the DAO fork and block rewards are not modelled; a transaction's logs are those of its own execution.
- DerivationPaths.ParseDerivationPath: numbers are read as `math/big` did before digit separators and the `0o` prefix were added; the branch for a path without any component cannot occur and has no counterpart.
