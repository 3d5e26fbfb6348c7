# go-simplechain core, modelled in Dafny

A model of the bookkeeping at the heart of a go-simplechain node, and proofs of what it keeps.
`dafny verify dfyconfig.toml` checks everything.

- **Transaction pool** (`SortedMap`, `TxLists`, `PricedLists`, `PoolModel`, `PoolSteps`, `PoolProgress`, `WaterFilling`,
  `TxPool`, `PoolReset`). Five views of the same transactions: pending lists, queued lists, the lookup table, the price heap with
  its lazy stale counter, and the pending nonces. `TxPool.Valid` says that they agree, and that over its limit the pool
  has no live remote transaction in the heap twice, which is why dropping the cheapest always makes room; `TxPool.Ready`
  says that every pending list is exactly the nonces from the chain's nonce to the pending nonce, all payable. `TxPool.Run` proves both for every
  run, the second for runs in which each head extends the one before.
- **Reorg scheduler** (`ReorgScheduler`). The loop that merges requests and launches one run at a time, as a state machine
  over the messages it receives.
- **Canonical chain** (`BlockTree`, `Ancestors`, `HeaderChain`, `HeaderQuery`, `BlockChain`). The specification is
  `BlockTree.Chain`: the ancestors of a block by parent pointers alone. Header writes, reorganisations, head rewinds,
  ancestor look-ups and header queries are proved against it, and the transaction index against a scan of it. Look-ups and
  queries are proved over `BlockTree.MapOf`, the canonical map as `BlockChain` really leaves it: the head's chain up to
  the head, and above it possibly a piece of an older one.
- **Section indexer** (`ChainIndexer`). Every database read of the update loop outside the lock is a step of its own, and
  under the lock the chain may still move before every look at it, so `Run` covers every interleaving with chain changes
  and head events.
- **Gas and ether** (`Gas`, `GasLimits`). Conservation over every prefix of a block and the fees of each account as in
  section 6.2 of the Ethereum Yellow Paper, the intrinsic gas of EIP-2028, and the gas limit rule of section 4.3.4.
- **Event feed** (`Feed`). Delivery as a partition of one slice, with channels that become ready in any order.
- **Derivation paths** (`HdPath`). Parser and printer; hardened indices as in the section "Extended keys" of BIP-32.

Where a promise does not hold of the code, a lemma gives an input at which it fails, and the exact condition is proved for
all inputs:

- A reorganisation leaves the canonical map equal to the new chain exactly under the condition of `BlockChains.HeadWritten`;
  `BlockChains.StaleEntry` is an input where entries of the old chain stay.
- On such a map the short cut of `GetAncestor` finds the ancestor exactly when `Ancestors.Sound` holds
  (`Ancestors.ShortcutExact`, input: `Ancestors.StaleAncestor`), a header reply lies on one chain exactly when its one step
  across the head's number is sound (`HeaderQuery.DescendingExactly`, `HeaderQuery.AscendingExactly`, input: `HeaderQuery.StaleReply`), and a
  matching last section head vouches for an earlier one exactly under the condition of `ChainIndexers.AllCanonical` (input:
  `ChainIndexers.StaleSections`).
- `GetAncestor` promises the N-th ancestor of the given block, but a block that is not stored gets an unrelated canonical
  block exactly under the condition of `Ancestors.NoBlockExact` (input: `Ancestors.ZeroHashAncestor`).
- A run of the pool promotes what is executable, but after a new head the pending nonces start over at the chain's: of the
  transactions right behind a pending list exactly the late ones stay queued (`PoolProgress.OverdueExactly`,
  `TxPools.TxPool.FollowHead`; input: `PoolProgress.LeftBehind`).
- The 1/1024 bound on gas limits holds of a parent exactly under the condition of `GasLimits.StepBoundExact`.

## Conventions

A hash identifies its transaction or block: a pool transaction is a value and is compared as one, and storing a block
under a hash that is already taken is assumed to store the same block. `container/heap` and `sort` appear by their
contracts (`Orders`), the databases as maps, coin tosses, clocks and the virtual machine as parameters. The virtual machine
is assumed to return no more gas than it was given. The chain properties assume that no transaction occurs twice on one
chain where they speak about the transaction index.

## Model

| member | source | states |
|---|---|---|
| `SortedMap.TxSortedMap.Put` | core/tx_list.go:73-79 | the plain map gains or replaces one entry; index stays a duplicate-free heap of the keys, cache is dropped |
| `SortedMap.TxSortedMap.Forward` | core/tx_list.go:84-98 | exactly the nonces below the threshold leave, in nonce order; a sliced cache still lists all that is left |
| `SortedMap.TxSortedMap.Filter` | core/tx_list.go:102-123 | exactly the matching transactions leave, each returned once |
| `SortedMap.TxSortedMap.Cap` | core/tx_list.go:127-148 | the lowest nonces up to the threshold stay, the others come back highest first; a sliced cache still lists all that is left |
| `SortedMap.TxSortedMap.Remove` | core/tx_list.go:152-169 | found exactly when stored; only that nonce leaves |
| `SortedMap.TxSortedMap.Ready` | core/tx_list.go:178-193 | the maximal consecutive run from the lowest nonce leaves if that nonce is not above the start, in nonce order |
| `SortedMap.TxSortedMap.Flatten` | core/tx_list.go:203-216 | all transactions in nonce order, from the cache or by sorting |
| `SortedMap.NoDuplicates` | core/tx_list.go:52-56 | an index that is a permutation of the keys holds no nonce twice |
| `SortedMap.CapCache` | core/tx_list.go:141-147 | cutting as many entries off the end of a sorted cache as were dropped leaves the sorted list of what is kept |
| `NonceMaps.FlatUnique` | core/tx_list.go:203-216 | a map has only one listing in nonce order, so cached and fresh answers agree |
| `TxLists.TxList.Add` | core/tx_list.go:251-272 | accepted exactly when new or paying strictly more and the bump; list, caps and replaced transaction afterwards |
| `TxLists.TxList.Forward` | core/tx_list.go:277-279 | the nonces below the threshold leave in order |
| `TxLists.TxList.Filter` | core/tx_list.go:290-314 | the object does what the list value does: kept, removed and invalidated transactions |
| `TxLists.TxList.Cap` | core/tx_list.go:318-320 | the lowest nonces stay |
| `TxLists.TxList.Remove` | core/tx_list.go:325-336 | found exactly when stored; in strict mode everything above goes too and is returned |
| `TxLists.TxList.Ready` | core/tx_list.go:345-347 | the consecutive run leaves |
| `TxLists.TxList.Overlaps` | core/tx_list.go:242-244 | whether the nonce is stored |
| `TxLists.CapsKept` | core/tx_list.go:251-336 | every operation keeps the cost and gas caps upper bounds, so they are in every reachable list |
| `TxLists.FilterShortcut` | core/tx_list.go:290-299 | with correct caps the short cut gives the same kept, removed and invalidated transactions as a scan of the whole list |
| `TxLists.FilterPartition` | core/tx_list.go:290-314 | kept, removed and invalidated are disjoint and make up the list |
| `TxLists.StrictFilter` | core/tx_list.go:290-314 | on a contiguous strict list the kept nonces are exactly the prefix before the first transaction over a limit; the rest is returned |
| `TxLists.StrictRemove` | core/tx_list.go:325-336 | on a contiguous strict list a removal leaves the prefix below the nonce and orphans the rest |
| `TxLists.StrictCap` | core/tx_list.go:318-320 | on a contiguous list a cap leaves a nonce prefix |
| `PricedLists.TxPricedList.Put` | core/tx_list.go:414-416 | the heap gains exactly one entry and keeps its least price in front |
| `PricedLists.TxPricedList.Removed` | core/tx_list.go:421-436 | reported removals become stale entries; afterwards four times the stale count is at most the heap size, and no entry is new |
| `PricedLists.TxPricedList.Cap` | core/tx_list.go:440-467 | drops exactly the live remote transactions below the threshold |
| `PricedLists.TxPricedList.Underpriced` | core/tx_list.go:471-493 | the answer a scan of all live transactions for the least price would give, stale entries or not |
| `PricedLists.TxPricedList.Discard` | core/tx_list.go:497-520 | the cheapest entries are popped until enough are live and remote, and not one more: those are returned, the live local ones are back in the heap, the stale ones are gone, the rest is untouched; fewer only when the heap was emptied |
| `PricedLists.ShrinksBy` | core/tx_pool.go:593-598 | dropping different transactions, as many as the pool is over its limit and one more, or all remote ones, brings it below the limit or leaves no remote one |
| `PricedLists.DroppedOnce` | core/tx_list.go:497-520 | while no live remote transaction is in the heap twice, none is dropped twice |
| `PricedLists.Discarded` | core/tx_pool.go:593-598 | a discard from a pool at or over its limit drops nothing twice and makes room or leaves no remote transaction; then nothing but live local ones is in the heap |
| `PricedLists.OnceStays` | core/tx_list.go:414-520 | removals, rebuilt heaps and new local accounts keep it that over its limit a pool has no live remote transaction in the heap twice |
| `PricedLists.OnceAfterPut` | core/tx_pool.go:585-640 | an addition after room was made keeps it too, even of a transaction whose stale entry was in the heap before |
| `PricedLists.StalesNonNegative` | core/tx_list.go:395-436 | the heap holds every live transaction and at most the stale count more, so that count is never negative |
| `TxPools.Validate` | core/tx_pool.go:518-560 | accepted exactly when small enough, of non-negative value, within the block gas limit, signed, above the price floor unless local, not behind the chain, payable, and covering an intrinsic gas that does not overflow |
| `TxPools.TxPool.constructor` | core/tx_pool.go:258-312 | an empty pool whose five views agree |
| `TxPools.TxPool.EnqueueTx` | core/tx_pool.go:645-671 | queued unless it would be an underpriced replacement; lookup table, price heap and lists stay in agreement |
| `TxPools.TxPool.PromoteTx` | core/tx_pool.go:689-725 | moved to pending unless an equal or better one is there, in which case it is dropped everywhere; the pending nonce follows |
| `TxPools.TxPool.RemoveTx` | core/tx_pool.go:862-907 | only that transaction leaves the pool; what it orphans in pending is queued; the pending nonce is lowered to it |
| `TxPools.TxPool.MakeRoom` | core/tx_pool.go:585-599 | a full pool refuses exactly when the transaction is remote and no live one is cheaper; otherwise the cheapest remote ones leave, and the pool is below its limit or without remote ones |
| `TxPools.TxPool.DropCheapest` | core/tx_pool.go:593-598 | what leaves are different remote transactions, none dearer than a remote one that stays; the pool is then below its limit or without remote ones |
| `TxPools.TxPool.ReplacePending` | core/tx_pool.go:601-618 | a pending transaction is replaced exactly when the new one pays enough more |
| `TxPools.TxPool.Add` | core/tx_pool.go:569-640 | the exact result and lookup table: known and invalid transactions change nothing; a valid one is underpriced exactly when a full pool does not admit it, and otherwise taken exactly when it outbids the transaction with its sender and nonce, if there is one; a local one is never evicted except by its own replacement |
| `TxPools.TxPool.AddTxsLocked` | core/tx_pool.go:818-830 | one result per transaction; the dirty accounts are those of the ones taken without replacing another |
| `TxPools.TxPool.SetGasPrice` | core/tx_pool.go:418-427 | exactly the remote transactions below the new floor leave |
| `TxPools.TxPool.Evict` | core/tx_pool.go:357-372 | exactly the queues of remote accounts with an expired heartbeat are emptied |
| `TxPools.TxPool.PromoteAccount` | core/tx_pool.go:1169-1222 | stale and unpayable queued transactions go, the consecutive run at the front moves to pending and the pending nonce follows it, the rest is capped unless local |
| `TxPools.TxPool.PromoteExecutables` | core/tx_pool.go:1165-1225 | for each account of the batch: the usable run up to the first gap has moved to pending, and the rest stays queued, the lowest nonces up to the allowance unless local; nothing stale, unpayable or ready is left queued; other accounts are untouched; executable lists stay executable |
| `PoolSteps.PromotionRun` | core/tx_pool.go:1191-1201 | with all nonces up to the pending nonce pending, the promoted run starts exactly there and the new pending nonce is its end |
| `PoolSteps.PromotionExecutable` | core/tx_pool.go:1165-1225 | one promotion extends a gapless payable pending list to a gapless payable pending list |
| `PoolSteps.PromotionDrains` | core/tx_pool.go:1174-1212 | after a promotion the pending nonce is not in the queue |
| `TxPools.TxPool.CloseGap` | core/tx_pool.go:1393-1402 | a pending list that does not start at the chain nonce goes back to the queue as a whole, and only then |
| `TxPools.TxPool.DemoteAccount` | core/tx_pool.go:1364-1408 | what is kept pending, what goes back to the queue and what is dropped for one account |
| `TxPools.TxPool.DemoteUnexecutables` | core/tx_pool.go:1362-1409 | only stale or unpayable transactions are lost; every pending list left is payable and starts at the chain nonce; if no list had a gap the gap branch is never taken, and what each account keeps pending and gets back into the queue is exact |
| `PoolSteps.DemotionSettles` | core/tx_pool.go:1362-1409 | a list without gaps above the chain nonce is cut to a gapless payable prefix and nothing is gapped |
| `TxPools.TxPool.TruncatePending` | core/tx_pool.go:1230-1312 | exact water-filling: one level, every remote account cut to its lowest transactions up to it, locals untouched; the level fits or is the guarantee, the next one would not fit, and no other level has this property; lists that start at the chain nonce still do |
| `TxPools.TxPool.Equalize` | core/tx_pool.go:1248-1285 | the offender loop lowers all offenders to one level at a time and ends at a level that fits or with nobody waiting |
| `TxPools.TxPool.ReduceTo` | core/tx_pool.go:1260-1285 | the inner loop cuts all offenders evenly, highest nonces first, until the pool fits or the threshold is reached |
| `WaterFilling.LevelUnique` | core/tx_pool.go:1230-1312 | there is at most one water level |
| `WaterFilling.OnlyLevel` | core/tx_pool.go:1230-1312 | the water level of given lists is the only one |
| `WaterFilling.LevelFits` | core/tx_pool.go:1230-1312 | lists cut to the water level fit the limit, or every remote account is down to its guarantee |
| `WaterFilling.TotalsMonotone` | core/tx_pool.go:1230-1312 | the total left grows with the level |
| `WaterFilling.LevelStep` | core/tx_pool.go:1262-1284 | dropping the highest nonce of every account at the level gives the next lower level |
| `TxPools.TxPool.TruncateQueue` | core/tx_pool.go:1315-1357 | cut down to the global limit and no further, highest nonces first, latest heartbeat first, locals untouched |
| `TxPools.TxPool.ResetTo` | core/tx_pool.go:1139-1159 | the new chain state replaces the old one, pending nonces start over, reinjected transactions are added |
| `TxPools.TxPool.UpdateNonces` | core/tx_pool.go:1057-1061 | every pending list has a last element, and the pending nonce becomes one past it |
| `TxPools.TxPool.RunReorg` | core/tx_pool.go:1012-1062 | all views agree and both limits are met; every pending nonce is one past the last pending transaction; after a reset every pending list starts at the chain nonce; when the head extends the old one, pending nonces are exactly [chain nonce, pending nonce), no gap was found, no dirty account has its next transaction queued, and after a reset only late ones do |
| `TxPools.TxPool.FollowHead` | core/tx_pool.go:1020-1053 | after reset, promotion and demotion the next transaction of an account is queued if and only if it was late before the new head |
| `PoolProgress.OverdueExactly` | core/tx_pool.go:1144-1212 | from one head to the next: the nonce behind the pending run stays queued if and only if it was queued and usable before, the list in front of it is still payable and not all mined |
| `PoolProgress.LeftBehind` | core/tx_pool.go:1144-1192 | a concrete transaction queued behind the only pending one when a new head comes, which the run does not promote |
| `PoolProgress.NoneMoreOverdue` | core/tx_pool.go:1230-1357 | taking transactions out of either list makes none overdue |
| `TxPools.TxPool.Run` | core/tx_pool.go:315-385 | for every sequence of additions, resets, evictions and price changes the views agree and the heap holds no live remote transaction twice while the pool is over its limit; if every head extends the one before, every pending list is exactly [chain nonce, pending nonce) at every release of the lock and the gap branch is never taken |
| `PoolModel.AccountStep` | core/tx_pool.go:569-907 | what is done to one account keeps pending and queue of all others a disjoint cover of the lookup table |
| `PoolModel.WhereIs` | core/tx_pool.go:1493-1556 | a live transaction is in exactly one of the pending and queued lists of its sender |
| `PoolModel.ResetSettles` | core/tx_noncer.go:36-79 | a head that lowers no nonce leaves gapless lists above the new chain nonces |
| `PoolReset.Reinject` | core/tx_pool.go:1076-1138 | the reinjected transactions are exactly those of the old chain that the new chain lacks, none when the new head descends from the old one; the reset is given up exactly when the old head is gone or the branches never meet |
| `PoolReset.DescendantKeepsAll` | core/tx_pool.go:1080-1138 | nothing is missing from a chain that continues the old one |
| `ReorgScheduler.Scheduler.StartRun` | core/tx_pool.go:954-965 | a run takes over everything that is waiting |
| `ReorgScheduler.Scheduler.RequestReset` | core/tx_pool.go:968-976 | a waiting reset is extended to the new head; the handle is that of a run not launched yet |
| `ReorgScheduler.Scheduler.RequestPromote` | core/tx_pool.go:978-986 | a waiting promotion is merged; the handle is that of a run not launched yet |
| `ReorgScheduler.Scheduler.QueueEvent` | core/tx_pool.go:988-995 | the event waits for the next run without asking for one |
| `ReorgScheduler.Scheduler.Shutdown` | core/tx_pool.go:1000-1006 | every handle given out is closed |
| `ReorgScheduler.Scheduler.Loop` | core/tx_pool.go:942-1009 | the invariant holds for any messages in any order |
| `ReorgScheduler.OneActiveRun` | core/tx_pool.go:953-998 | at most one run is active, and it is the last one launched |
| `ReorgScheduler.ClosedAfterServed` | core/tx_pool.go:911-1009 | a handle is closed only by a run launched after the request that carries it, or at shutdown |
| `ReorgScheduler.HeadsTelescope` | core/tx_pool.go:968-976 | each resetting run starts from the head the previous one ended at |
| `ReorgScheduler.FirstReset` | core/tx_pool.go:325-338 | the first resetting run starts from the head the loop started with |
| `ReorgScheduler.WaitingBehindARun` | core/tx_pool.go:953-998 | a request that is not served yet waits behind an active run |
| `HeaderChains.HeaderChain.WriteHeader` | core/headerchain.go:135-208 | canonical map equal to the head chain and empty above it, head maximal by difficulty then lower number; refused exactly when the parent is unknown; when the head moves |
| `HeaderChains.HeaderChain.WriteHeaders` | core/headerchain.go:135-208 | the same after any sequence of headers with any coin tosses |
| `HeaderChains.HeaderChain.Reroute` | core/headerchain.go:167-199 | both rewrite loops end and leave exactly the chain of the new head |
| `HeaderChains.Overwrite` | core/headerchain.go:179-191 | stale entries are rewritten downwards until the map agrees with the chain everywhere below |
| `HeaderChains.HeaviestOf` | core/headerchain.go:156-167 | the old head stays maximal or the new header is |
| `BlockTree.DeleteAbove` | core/headerchain.go:168-177 | exactly the entries above the number are deleted |
| `Ancestors.GetAncestor` | core/headerchain.go:347-380 | what comes back for every block, number and budget; an answer within the budget is the ancestor parent pointers lead to if and only if the map is sound for it; the budget left; the answer for blocks that are not stored |
| `Ancestors.Walk` | core/headerchain.go:360-379 | the loop ends at the first block on the way that the map takes for canonical, or runs out of budget, and answers from the map there |
| `BlockTree.ForkIs` | core/blockchain.go:1965-2009 | where two chains part, by the definition used here, is the number of their highest common ancestor |
| `Ancestors.CanonicalAncestors` | core/headerchain.go:361-366 | the map holds an ancestor of a block it takes for canonical if and only if that block is no higher than the head, or the ancestor is above the head, or no higher than where the two chains part |
| `Ancestors.ShortcutExact` | core/headerchain.go:347-380 | the short cut gives the ancestor that parent pointers lead to if and only if the map is sound for it |
| `Ancestors.SoundFrom` | core/headerchain.go:347-380 | the map is sound for every start no higher than the head, and for every start when nothing is left above the head |
| `Ancestors.StaleAncestor` | core/headerchain.go:360-366 | a concrete map with a stale tail on which the second ancestor of the old head comes out as the new head |
| `Ancestors.NoBlockExact` | core/headerchain.go:360-379 | a block that is not stored gets an ancestor if and only if its hash is zero, the map has no entry at its number, and it has one at the number asked for, two or more below |
| `Ancestors.ZeroHashAncestor` | core/headerchain.go:360-366 | a concrete chain on which the zero hash above the head has the genesis block for an ancestor |
| `HeaderChains.HeaderChainServes` | core/headerchain.go:135-208 | on the map a header chain keeps, every ancestor look-up is sound |
| `BlockChains.BlockChainServes` | core/blockchain.go:1908-2053 | on the map a block chain keeps, look-ups from the head down are sound, and all are when the map is exact |
| `HeaderChains.HeaderChain.SetHead` | core/headerchain.go:491-537 | the canonical map is cut to the target and is still the chain of the head; exactly the canonical headers above are deleted |
| `HeaderQuery.GetBlockHeaders` | eth/handler.go:428-513 | starts at the origin, never more than asked for or allowed, empty only for an unknown origin, consecutive headers skip+1 apart and on one chain if and only if the map is sound for the upper one; a short backward reply ended at the genesis block or with the budget for headers off the canonical chain, a short forward one where the map does not go on |
| `HeaderQuery.DescendingOneChain` | eth/handler.go:468-476 | all headers of a backward reply lie on the chain of the first |
| `HeaderQuery.AscendingOneChain` | eth/handler.go:477-499 | all headers of a forward reply lie on the chain of the last |
| `HeaderQuery.DescendingExactly` | eth/handler.go:468-476 | a backward reply lies on one chain if and only if it stays above the head or the one step of the origin's chain across the head's number is sound |
| `HeaderQuery.AscendingExactly` | eth/handler.go:477-499 | a forward reply lies on one chain if and only if it stays up to the head or the one step up the map across the head's number is sound |
| `HeaderQuery.OnlyCrossing` | eth/handler.go:468-499 | only a step across the head's number can be unsound, and only when something is left above the head |
| `HeaderQuery.SafeFromBelow` | eth/handler.go:468-476 | a backward reply from an origin no higher than the head is on one chain whatever is left above the head |
| `HeaderQuery.StaleReply` | eth/handler.go:477-499 | a concrete map with a stale tail on which a forward reply leaves its chain |
| `HeaderQuery.Forwards` | eth/handler.go:477-499 | the next header forward is the canonical one, refused exactly when there is none, the map does not take the origin for its ancestor, or the number wraps; it descends from the origin if and only if the map is sound for it |
| `HeaderQuery.Backwards` | eth/handler.go:468-476 | refused exactly below the genesis block or when the headers off the canonical chain exceed the budget; the answer is an ancestor of the origin if and only if the map is sound for it; the budget left |
| `BlockChains.BlockChain.Insert` | core/blockchain.go:623-642 | new head, its canonical entry, and the other two heads when the block was not canonical |
| `BlockChains.Reduce` | core/blockchain.go:1965-1984 | the longer chain walked down to the number of the shorter, or broken off |
| `BlockChains.StepBack` | core/blockchain.go:1985-2009 | both chains walked back until they meet |
| `BlockChains.FindFork` | core/blockchain.go:1965-2009 | the highest common ancestor, or none exactly when the chains share no block; ends in any store |
| `BlockChains.BlockChain.InsertAll` | core/blockchain.go:2025-2037 | the new branch except its head is canonical and indexed |
| `BlockChains.BlockChain.Reorg` | core/blockchain.go:1908-2053 | fails, changing nothing, exactly when the chains share no block; else the map is exactly the chain of the then current head and the index that of the new chain without its head |
| `BlockChains.Relocated` | core/blockchain.go:2034-2043 | deleting abandoned transactions that did not come back gives the index of the new branch |
| `BlockChains.HeadWritten` | core/blockchain.go:1908-2053 | after the new head is written the map is exactly its chain if and only if it is no lower than the old head or at least two above the fork; the index is exact in any case |
| `BlockChains.StaleEntry` | core/blockchain.go:2044-2053 | a concrete heavy block right above the fork that leaves the old head canonical above the new one |
| `BlockChains.BlockChain.WriteKnownBlock` | core/blockchain.go:1257-1273 | the head chain is canonical up to the head, the index equals a scan of it, and when the map is exact |
| `BlockChains.BlockChain.WriteBlockWithState` | core/blockchain.go:1291-1439 | the fork choice; refused exactly when the parent is unknown; map and index as above, and when the map is exact, for a child of the head and after a reorganisation; a heaviest head is kept |
| `BlockChains.TxDifference` | core/types/transaction.go:277-292 | the transactions of the first list that are not in the second |
| `ChainIndexers.ChainIndexer.SetValidSections` | core/chain_indexer.go:469-481 | the count is set and exactly the heads of dropped sections are removed |
| `ChainIndexers.ChainIndexer.AddCheckpoint` | core/chain_indexer.go:127-140 | taken over only when above everything known and stored |
| `ChainIndexers.ChainIndexer.RollBack` | core/chain_indexer.go:245-269 | known and stored sections after a reorganisation, never below the checkpoint |
| `ChainIndexers.ChainIndexer.NewHead` | core/chain_indexer.go:240-297 | a new head adds only confirmed sections and drops none; a reorganisation drops exactly the sections beyond it |
| `ChainIndexers.ChainIndexer.VerifyLastHead` | core/chain_indexer.go:420-427 | with the chain moving before any look at it: every dropped head was not canonical when looked at, and the last one left is canonical in the state looked at last |
| `ChainIndexers.ChainIndexer.CheckLast` | core/chain_indexer.go:421-426 | one look at the chain: the last section goes exactly when its head is not canonical |
| `ChainIndexers.ChainIndexer.StartSection` | core/chain_indexer.go:314-334 | a section is started only when one is known and not stored |
| `ChainIndexers.ChainIndexer.ResetBackend` | core/chain_indexer.go:388-393 | a failed reset invalidates every section |
| `ChainIndexers.ChainIndexer.ReadHash` | core/chain_indexer.go:395-399 | the canonical hash of the next block of the section; processing fails when there is none |
| `ChainIndexers.ChainIndexer.ReadHeader` | core/chain_indexer.go:400-409 | the header with the hash read before, from the chain as it is by now; accepted only as the child of the one before |
| `ChainIndexers.ChainIndexer.FinishSection` | core/chain_indexer.go:346-366 | the head is stored exactly when processing succeeded and the previous head is still there |
| `ChainIndexers.HeadsAreAncestors` | core/chain_indexer.go:395-409 | every stored head above the checkpoint is the ancestor of the last one at its section's end |
| `ChainIndexers.AllCanonical` | core/chain_indexer.go:420-427 | with a matching last head, a stored head above the checkpoint is canonical if and only if the last one is no higher than the chain's head, or this one is above it, or no higher than where the two chains part |
| `ChainIndexers.StaleSections` | core/chain_indexer.go:420-427 | a concrete map with a stale tail on which the last of two sections matches and the first does not |
| `ChainIndexers.Run` | core/chain_indexer.go:194-379 | in every interleaving of chain changes, head events, queries and loop steps: no head at or above the count, none missing above the checkpoint, consecutive heads exactly one section apart unless taken from a checkpoint that is still stored |
| `Feeds.Find` | event/feed.go:212-219 | the first index of the channel, or -1 exactly when it is absent |
| `Feeds.Deactivated` | event/feed.go:227-231 | swapping to the end takes exactly that case out of the active part |
| `Feeds.Feed.Subscribe` | event/feed.go:72-92 | one more subscription |
| `Feeds.Feed.Remove` | event/feed.go:103-124 | one subscription fewer |
| `Feeds.Feed.TryAll` | event/feed.go:155-164 | the fast path delivers to some active channels once each |
| `Feeds.Feed.SelectOne` | event/feed.go:168-180 | one delivery or one removal; cases and active cases together get fewer |
| `Feeds.Feed.Send` | event/feed.go:128-189 | delivered plus removed before delivery are the subscriptions at lock time; survivors are the delivered ones not removed later; the count is right |
| `Feeds.ExactlyOnce` | event/feed.go:128-189 | a channel subscribed once gets the value exactly once unless removed first, and never twice |
| `Gas.IntrinsicGas` | core/state_transition.go:79-113 | fails exactly when the true sum does not fit 64 bits, and else is that sum |
| `Gas.DivisionTest` | core/state_transition.go:100-110 | the division test is exactly the overflow condition |
| `Gas.GasPool.AddGas` | core/gaspool.go:29-35 | refused exactly on overflow |
| `Gas.GasPool.SubGas` | core/gaspool.go:39-45 | refused exactly when there is too little |
| `Gas.StateTransition.BuyGas` | core/state_transition.go:156-169 | charges sender and pool for the whole limit, or fails with the right error and no change |
| `Gas.StateTransition.PreCheck` | core/state_transition.go:171-182 | the nonce must match when it is checked; then gas is bought |
| `Gas.StateTransition.RefundGas` | core/state_transition.go:234-249 | refund at most half of what was used; unused gas goes back to sender and pool |
| `Gas.StateTransition.TransitionDb` | core/state_transition.go:187-232 | world, pool and outcome are those of the message function; returning gas to the pool never overflows |
| `Gas.GasUsed` | core/state_transition.go:234-254 | the refund never exceeds half of the gas used before it |
| `Gas.MessageConserves` | core/state_transition.go:187-249 | per account: the coinbase gains and the sender pays gas used times price, and beyond that each balance changes only by what the virtual machine did; so does the total; the pool pays for the gas used |
| `Gas.Process` | core/state_processor.go:55-76 | the loop computes the block function; pool and used gas add up to the block gas limit |
| `Gas.ApplyTransaction` | core/state_processor.go:82-121 | one transaction against pool and state |
| `Gas.BlockConserves` | core/state_processor.go:55-121 | over a block, for any step that conserves a measure up to fees: gas is conserved, cumulative gas is the running sum, and the measure changes by the steps, the clean-ups and the fees |
| `Gas.EtherConserved` | core/state_processor.go:55-121 | for real messages from a full block gas limit, after every prefix: processed with the receipts so far, pool plus used gas is the limit, cumulative gas is the prefix sum, and the total balance changed only by the virtual machine and the clean-ups |
| `Gas.BlockPrefix` | core/state_processor.go:55-76 | every prefix of a processed block is processed, with the same receipts so far |
| `Gas.FeesPaid` | core/state_processor.go:55-121 | over a block the coinbase collects gas used times price of every receipt, each sender pays that of its own transactions, and beyond that a balance changes only by the virtual machine and the clean-ups |
| `GasLimits.TowardTarget` | core/block_validator.go:108-139 | unless a sum leaves 64 bits: with floor and ceiling at a target, the target is a fixed point and any other limit moves strictly toward it without crossing it |
| `GasLimits.Converges` | core/block_validator.go:108-139 | the target is reached in finitely many blocks whatever the usage, when no sum leaves 64 bits at the start or at the target |
| `GasLimits.StepBoundExact` | core/block_validator.go:108-139 | when a full block does not overflow: every step is smaller than parent/1024 for all usages, floors and ceilings if and only if a full block fits |
| `GasLimits.FullBlockFitsFrom` | core/block_validator.go:108-139 | a full block fits from 5*1024 on, and not just below |
| `HdPath.ParseDerivationPath` | accounts/hd.go:68-118 | the loop computes the parse function: the path, or which of the four errors |
| `HdPath.FailsAtFirst` | accounts/hd.go:89-116 | components parse together exactly when each one does, and otherwise with the error of the first bad one |
| `HdPath.PrintPath` | accounts/hd.go:122-136 | the loop computes the printed form |
| `HdPath.ComponentRoundTrip` | accounts/hd.go:90-136 | a printed component, hardened or plain, parses to itself |
| `HdPath.RoundTrip` | accounts/hd.go:68-136 | parsing the printed form of a non-empty path of 32-bit components gives the path back |
| `HdPath.ParseResult` | accounts/hd.go:68-118 | a parsed path is not empty and has 32-bit components |
| `HdPath.PrintedIsFixed` | accounts/hd.go:68-136 | printing a parsed path gives a fixed point of parsing and printing |
| `HdPath.NoComponents` | accounts/hd.go:86-88 | the printed empty path is refused as empty |
| `HdPath.DecimalRoundTrip` | accounts/hd.go:103-131 | reading a printed decimal number gives the number back |

## Left out

- Journal, metrics, logging, event announcements of the pool and the chain, LRU caches, I/O and networking.
- Nonces, block numbers and heartbeats are unbounded integers: wrap-around at 2^64 is modelled only in the gas rules and
  in the skip arithmetic of header queries.
- The pool holds its per-account lists as values. `TxLists.TxList` is the object with its update in place; aliasing
  between the pool's map and a list is not modelled.
- `txNoncer.get` writes the chain's nonce into its map when asked; the model reads it without remembering.
- `container/heap`, `sort` and `prque` are used by contract; their source is not part of the repository.
- Pending contiguity across head reorganisations: a reinjection that only partly succeeds can leave an inner gap. The
  agreement of the views is proved across them.
- Positional alignment of the errors `addTxs` returns, and the wrappers around `addTxsLocked`.
- TxPools.TxPool.PromoteExecutables: the outcome is stated for batches that name no account twice, as all callers do;
  for others only what is left queued is.
- TxPools.TxPool.RunReorg: of a new head it states only that what is left overdue was late, because the limits may have
  dropped the rest; before the limits `TxPools.TxPool.FollowHead` states both directions.
- TxPools.TxPool.TruncateQueue: the order in which transactions of one account are removed is not observable and not
  stated.
- PoolReset.Reinject: the depth test is exact, where the source computes it in floating point.
- HeaderChains.HeaderChain.SetHead: does not claim that side branches keep their ancestors, because the deletion can
  take a fork block away from them.
- BlockChains.BlockChain.WriteKnownBlock: does not claim that the head stays the heaviest, because it never compares
  total difficulties.
- HeaderQuery.GetBlockHeaders: header queries by number are not modelled, and the chain stands still during a query, so
  the second read by which `GetAncestor` guards against concurrent reorganisations never differs from the first.
- State commits, garbage collection, log events, the cross-chain hooks and the failure of database writes in block
  writing; `insertSideChain`, `InsertReceiptChain`, the freezer, `Rollback` and `repair`.
- Child indexers and their cascaded heads, loading the section count at start, and checkpoints added while a section is
  being processed.
- Feeds.Feed.Send: the value itself and the clearing of it from the cases are not modelled; a removal request is for a
  channel that is subscribed, as each subscription is ended once.
- The virtual machine, the state database, tries, signatures and consensus engines.
- Wallet management, `les/balance.go`, and JSON forms of derivation paths; strings are sequences of Unicode characters,
  so ill-formed UTF-8 is not modelled.
