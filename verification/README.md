# Verified model of the Spectrum off-chain services

Spectrum's off-chain services follow the Ergo chain, keep a local picture of the entities on it, and
execute liquidity-mining orders against them. This project models the state machines those services
are built from and proves what they keep, over every run and every reachable state.

| file | what it models |
|---|---|
| `LmPool.dfy`, `PoolEpochs.dfy`, `PoolRewards.dfy`, `PoolRuns.dfy` | the liquidity-mining pool: deposits, redeems, batched reward distribution, the ways to recover the current epoch, and whole runs |
| `PoolMoves.dfy`, `PoolFairness.dfy`, `PoolCompletion.dfy`, `PoolCoverage.dfy`, `PoolSelection.dfy` | when deposits and redeems are accepted and who gets what, one epoch in several batches, when an epoch is over, what an uncovered bundle costs, and which bundles are selected |
| `Layout.dfy` | inputs and outputs of the pool transactions and the mapping of rejected inputs back to them |
| `Chain.dfy`, `ChainSync.dfy` | following the node's best chain across forks with the in-memory cache |
| `RocksCache.dfy`, `RocksRuns.dfy`, `RocksKeys.dfy`, `RocksSync.dfy`, `RocksRestart.dfy` | the persistent cache, a bounded window encoded in separate keys, synchronisation over it, and restarts on what it holds |
| `Mempool.dfy`, `MempoolLaws.dfy` | the projection of the mempool and the updates derived from it |
| `EntityRepo.dfy`, `EntityResolve.dfy`, `EntityLedger.dfy`, `EntityLive.dfy`, `EntityRollback.dfy`, `EntitySync.dfy` | confirmed, unconfirmed and predicted entity states, prediction links, application and rollback of transactions |
| `Backlog.dfy`, `BacklogQueues.dfy`, `BacklogAges.dfy` | the order backlog, a store, two priority queues and a revisit queue; which pops return an order, and how old the orders it drops are |
| `Bytes.dfy`, `ScheduleKeys.dfy`, `Schedule.dfy`, `ScheduleRuns.dfy`, `ScheduleLaws.dfy` | the tick schedule and its byte keys |
| `Arith.dfy`, `Wrappers.dfy` | arithmetic facts and shared types |

Values and expressions of the source are datatypes and functions here. Objects that the source updates
in place are classes; each method promises its exact new state as a function of the old one, and the
properties are lemmas about those functions, over single steps and over whole runs. Machine integers
are modelled by their ranges: an operation that would leave its range, or divide by zero, yields a
`Trapped` outcome, so a run that is proved never to trap behaves the same with and without overflow
checks. A missing database key that the source unwraps is likewise an explicit panic outcome. The node,
the clock, the random draw and the iteration order of hash maps are parameters or unconstrained choices.

## What the code does that one might not expect

Each of these is a theorem with its exact condition:

- While the budget is above `max_rounding_error`, the epoch of a pool advances after a batch if and only if the
  floored shares leave at most `max_rounding_error` above the later epochs' allocation
  (`PoolCompletion.NextEpochIff`, a condition on the state before the batch). When the last batch of an epoch
  leaves more, none of the outstanding bundles can be paid (`PoolCompletion.StallsIff`). Deposits and redeems are
  then blocked as well, unless what is left is again within the tolerance of a multiple of the allocation (`PoolCompletion.MovesOpenIff`). Programs accepted at
  deployment reach both: in `PoolCompletion.EqualStakers` three stakers with a tolerance of two block every
  move, and six stakers, whose shares are all rounded down to zero, stall the pool with its moves open.
- The rewards of an epoch are shares of what all bundles together still hand in. A bundle is covered when it
  holds tokens for all later epochs. If one is not, payable bundles fare in one of two ways
  (`PoolCoverage.CoverageOutcome`, with `PoolCoverage.WeightsMatchIff`): while the bundles together still hand in
  tokens, the shares add up to more than the allocation; when they hand in none in total the divisor is zero, and
  a bundle is paid nothing and loses its tokens. A deposit is accepted although its height is past the epoch
  being paid; it keeps every bundle covered exactly when it is not (`PoolRuns.DepositCoveredIffTimely`).
  `PoolCoverage.LateDepositOverspends` has both failures: after one late deposit another staker is paid three
  times the allocation, after a slightly larger one the payment traps, and after one of 300 the staker hands in
  300 temporal tokens for a reward of zero.
- Coverage holds at deployment exactly when the first bundle is delegated for all epochs but at most one
  (`PoolRuns.DeployedSafeIff`), and the first bundle can be indexed exactly when the epochs it is delegated
  for, as a 32-bit number, are no more than the program has (`PoolSelection.FirstIndexIff`); the deployment tool
  checks neither.
- nanoERG balance in a distribution exactly when the funding covers it (`PoolRuns.FundingBalances`).
- Taking a block from the persistent cache leaves its height key behind, so `exists` means "appended and not
  evicted". Over that cache a child of a rolled-back block can be appended to a block that is not its
  parent (`RocksRuns.UnlinkedOverPersistentCache`); a whole run never panics and
  stays linked if and only if no block is taken for linked on such a leftover key (`RocksSync.LinkedIff`).
- A restart on a non-empty persistent cache asks for the height of the best block again. It then passes over the last
  block it has not rolled back: the cache catches up with the node, but a consumer that had applied the cached
  chain has applied one block too many (`RocksRestart.RestartFollows`). That block is the best one a second time if
  the cached window is on the node's chain, and otherwise the first block of the abandoned fork, which is never
  rolled back (`RocksRestart.RestartIsCleanIff`).
- The oldest record of the persistent cache is not repaired when the oldest block itself is taken: it still
  names that block (`RocksCache.TakeKeepsWindowIff`). A fork that bypasses the block then panics on its missing
  child key once it is longer than the window, exactly when no child of the block was ever recorded
  (`RocksCache.BypassPanicsIff`, `RocksCache.SiblingPanics`).
- The backlog judges the age of an order by its queue entry. An order that is removed and put again keeps its
  old entry and can be dropped at once (`BacklogAges.FreshOrderIsDropped`). `BacklogAges.PutStampedIff`,
  `BacklogAges.PutRevisitedLaterIff` and `BacklogAges.CheckLaterIff` say exactly which operations keep entries
  and orders at one age, and under them only orders older than the lifespan are dropped
  (`BacklogAges.DropsOnlyOld`).
- A schedule update that jumps more than one epoch leaves the old tick behind
  (`ScheduleRuns.UpdateKeepsIff`, `ScheduleRuns.TwoEpochsLeaveTwoTicks`), and so does deferring a tick that
  is no longer the pool's next one (`ScheduleRuns.DeferKeepsIff`). Deferred ticks are found
  exactly while the first of them is due, so a due tick waits behind a lower one that is not
  (`ScheduleRuns.DeferredScanIff`, `ScheduleRuns.PeekIsNearest`, `ScheduleRuns.DueTickWaits`).
- The context indices of a compounding transaction are found by looking for the first output with the bundle
  validator; they are right exactly when the funding leaves no change or its script is not that validator
  (`Layout.IndicesAreOwnIff`, `Layout.GuardedFundingMisleads`). This is a fact about `try_run` as a function: the
  service derives its funding script from a seed (spectrum-offchain-lm/src/main.rs:134) and never passes such
  an input. Negative indices reported by the node are cast
  to unsigned words and end up as bundle indices outside the transaction (`Layout.ReportedAreInputsIff`).

## Model

| member | source | states |
|---|---|---|
| `LmPool.DistributeRewards` | spectrum-offchain-lm/src/data/pool.rs:280-402 | the distribution, bundle loop included, computes `Distribute`: every reward is taken from the pool as it was when the batch started |
| `LmPool.PayInPlace` | spectrum-offchain-lm/src/data/pool.rs:305-378 | the loop that rewrites the bundles in place equals paying them left to right, the first failure deciding the batch |
| `PoolEpochs.ProgramBounds` | spectrum-deploy-lm-pool/src/main.rs:850-873 | accepted programs have fewer than 2^32 - 1 epochs, a tolerance below one allocation, and lose less than one unit per epoch to rounding |
| `PoolEpochs.EpochOfBudget` | spectrum-offchain-lm/src/data/pool.rs:294-300 | every budget up to the program budget determines its epoch; the quotient is bracketed and nothing underflows or saturates |
| `PoolEpochs.CeilBracket` | spectrum-offchain-lm/src/data/pool.rs:404-411 | rounding up the tolerated budget equals rounding down plus one unless the remainder is within the tolerance |
| `PoolEpochs.EpochsRemainMonotone` | spectrum-offchain-lm/src/data/pool.rs:294-300 | spending budget never increases the number of remaining epochs |
| `PoolEpochs.TickWhileEpochsLeft` | spectrum-offchain-lm/src/scheduler/data.rs:29-71 | the tick is for the epoch after the last completed one and exists only while epochs are left |
| `PoolEpochs.EpochAgreement` | spectrum-offchain-lm/src/scheduler/data.rs:58-90 | the scheduler's tick and the distribution loop name the same epoch for every budget, and `epoch_num - epochs_left` never underflows |
| `PoolRewards.LaterAllocBounds` | spectrum-offchain-lm/src/data/pool.rs:337-342 | the reserve for later epochs is within one unit per epoch of their allocation |
| `PoolRewards.BudgetAboveLater` | spectrum-offchain-lm/src/data/pool.rs:337-343 | the budget always exceeds the reserve of later epochs, so the saturating subtractions never saturate |
| `PoolRewards.SnapshotFacts` | spectrum-offchain-lm/src/data/pool.rs:333-335 | the subtractions compute exactly the temporal tokens still to be collected and `reserves_lq * epochs_remain` does not overflow |
| `PoolRewards.WeightIsBurnable` | spectrum-offchain-lm/src/data/pool.rs:306-310 | a bundle's weight in the reward formula is exactly what it hands in |
| `PoolRewards.RewardIsShare` | spectrum-offchain-lm/src/data/pool.rs:333-347 | the reward is the floored pro-rata share; the 128-bit product fits and the cast to 64 bits loses nothing |
| `PoolRewards.BatchIsSolvent` | spectrum-offchain-lm/src/data/pool.rs:305-378 | every batch of distinct, uncompounded bundles succeeds and pays exactly the floored shares, each bundle keeping tokens for the remaining epochs only |
| `PoolRuns.DepositConserves` | spectrum-offchain-lm/src/data/pool.rs:139-218 | a deposit conserves LQ, vLQ, TMP and nanoERG |
| `PoolRuns.RedeemConserves` | spectrum-offchain-lm/src/data/pool.rs:223-275 | a redeem conserves LQ, vLQ, TMP and nanoERG and returns the staked amount |
| `PoolRuns.FundingBalances` | spectrum-offchain-lm/src/data/pool.rs:380-395 | nanoERG of a distribution balance if and only if the funding covers rewards plus miner fee |
| `PoolMoves.MinerKeepsDust` | spectrum-offchain-lm/src/data/pool.rs:380-395 | the miner keeps the fee and less than a box value on top, and exactly the fee when change is returned or the funding does not cover the cost |
| `PoolMoves.ChangeIsExact` | spectrum-offchain-lm/src/data/pool.rs:384-395 | whatever the funding exceeds the cost by comes back, unless it is too small for a box and goes to the miner |
| `PoolMoves.EpochIsRecorded` | spectrum-offchain-lm/src/data/pool.rs:379 | a distribution records the epoch it paid and leaves the pool's stakes and nanoERG alone |
| `PoolRuns.BatchConserves` | spectrum-offchain-lm/src/data/pool.rs:305-378 | a successful batch moves temporal tokens and budget and nothing else |
| `PoolRuns.StepConserves` | spectrum-offchain-lm/src/data/pool.rs:139-402 | every successful step keeps the token sums and never raises the budget |
| `PoolRuns.DeployedConserves` | spectrum-deploy-lm-pool/src/main.rs:666-714 | the deployed pool and its first bundle satisfy the token sums |
| `PoolRuns.ConservationOverRuns` | spectrum-offchain-lm/src/data/pool.rs:173-402 | along every run from a deployed pool the three token sums equal the maximum supply and each bundle's TMP is a multiple of its vLQ |
| `PoolRuns.DepositCoveredIffTimely` | spectrum-offchain-lm/src/data/pool.rs:139-218 | a deposit keeps every bundle covered if and only if its height is not past the epoch being paid |
| `PoolMoves.CurrentEpochIff` | spectrum-offchain-lm/src/data/pool.rs:421-435 | a height belongs to epoch `k` or an earlier one if and only if it lies below `program_start + k * epoch_len` |
| `PoolMoves.EpochEndsAtTick` | spectrum-offchain-lm/src/scheduler/data.rs:33-42 | deposits and the scheduler agree on where an epoch ends: at the height of its tick |
| `PoolMoves.DepositCoveredIffBeforeEnd` | spectrum-offchain-lm/src/data/pool.rs:139-218 | a deposit keeps every bundle covered if and only if its height is below the end of the epoch being paid |
| `PoolMoves.DepositAcceptedIff` | spectrum-offchain-lm/src/data/pool.rs:139-218 | a deposit is accepted if and only if the epoch is completed, the order expects as many epochs as are still to end at its height, the pool has the reserves and the order pays for all boxes; the bundle gets one temporal token per unit and epoch, and each party its exact nanoERG |
| `PoolMoves.RedeemAcceptedIff` | spectrum-offchain-lm/src/data/pool.rs:223-275 | in a conserved state a redeem is accepted if and only if it asks for the bundle's stake, the epoch is completed or the pool exempted, and the nanoERG suffice; no token arithmetic stands in the way, and each party gets its exact amount |
| `PoolRuns.BatchKeepsSafe` | spectrum-offchain-lm/src/data/pool.rs:305-378 | rewards sum to at most the remaining allocation, the budget stays above the later epochs' reserve, and the state stays safe |
| `PoolRuns.CompoundedIsRefused` | spectrum-offchain-lm/src/data/pool.rs:328-332 | a batch with a compounded bundle is refused as already compounded and for no other reason |
| `PoolRuns.DistributionOutcome` | spectrum-offchain-lm/src/data/pool.rs:280-402 | in a safe state a distribution succeeds if and only if all its bundles are uncompounded; "Budget depleted" and traps are unreachable |
| `PoolRuns.StepKeepsSafe` | spectrum-offchain-lm/src/data/pool.rs:139-402 | every successful step with timely deposits leads from a safe state to a safe state |
| `PoolRuns.DeployedSafeIff` | spectrum-deploy-lm-pool/src/main.rs:666-714 | a deployed pool is safe if and only if the first bundle is delegated for all epochs but at most one |
| `PoolRuns.FullBudget` | spectrum-offchain-lm/src/data/pool.rs:294-300 | a full budget pays the first epoch |
| `PoolRuns.SolvencyOverRuns` | spectrum-offchain-lm/src/data/pool.rs:139-402 | every state of a run with timely deposits is safe |
| `PoolRuns.SafeFromDeployment` | spectrum-deploy-lm-pool/src/main.rs:666-873 | every state of a run with timely deposits that starts from an accepted program, with the first bundle delegated for all epochs but at most one, is safe |
| `PoolCoverage.WeightsMatchIff` | spectrum-offchain-lm/src/data/pool.rs:306-347 | in a conserved state with a payable bundle, the weights in the reward formula add up to its divisor if and only if every bundle is covered, and to more otherwise |
| `PoolCoverage.RewardOfPayable` | spectrum-offchain-lm/src/data/pool.rs:333-347 | the reward that the code computes for a payable bundle, covered or not: none on overflow, zero where the divisor is zero, and otherwise its weight times the allocation over the divisor |
| `PoolCoverage.CoverageOutcome` | spectrum-offchain-lm/src/data/pool.rs:333-370 | while the bundles together still hand in tokens, the exact shares add up to more than the allocation if and only if some bundle is not covered; when they hand in none in total, a payable bundle is paid nothing and loses its tokens, unless the arithmetic traps |
| `PoolCoverage.OverspendsBeyondDust` | spectrum-offchain-lm/src/data/pool.rs:333-347 | rounding down hides less than one unit per bundle: beyond that the rewards themselves exceed the allocation |
| `PoolCoverage.LateDepositOverspends` | spectrum-offchain-lm/src/data/pool.rs:139-378 | a run from an accepted deployment with a late deposit: depending on its size the next payment takes 300 out of an allocation of 100, traps, or pays nothing for 300 temporal tokens |
| `PoolFairness.CompoundIsBatchStep` | spectrum-offchain-lm/src/data/pool.rs:280-402 | a successful distribution is one batch of the epoch it pays |
| `PoolFairness.BatchStepContinues` | spectrum-offchain-lm/src/data/pool.rs:305-378 | after a batch the tokens are conserved and every bundle is still covered for the same epoch, so the next batch can follow |
| `PoolFairness.DriftOverBatches` | spectrum-offchain-lm/src/data/pool.rs:305-378 | over any number of batches the unspent allocation stays within one unit per paid bundle of its pro-rata value |
| `PoolFairness.UnpaidIsUnchanged` | spectrum-offchain-lm/src/data/pool.rs:305-378 | a bundle that was not paid in an epoch is untouched by the batches of that epoch |
| `PoolFairness.BatchingIsFair` | spectrum-offchain-lm/src/data/pool.rs:294-370 | however an epoch is split, each reward is at least the floored share of the epoch-start allocation and exceeds the exact share by at most the number of stakers paid earlier |
| `PoolCompletion.BudgetAfterEpoch` | spectrum-offchain-lm/src/data/pool.rs:294-378 | once every bundle is compounded the budget is the later epochs' allocation plus at most `epoch_num` plus the last batch's size |
| `PoolCompletion.NextEpochIff` | spectrum-offchain-lm/src/data/pool.rs:294-439 | for every batch the next epoch is one higher if and only if the budget was above the tolerance and the floored shares of the batch leave at most the tolerance above the later epochs' allocation; otherwise it is the same |
| `PoolCompletion.PaidIsShares` | spectrum-offchain-lm/src/data/pool.rs:333-370 | what a batch is paid is the sum of the floored shares computed from the state before it |
| `PoolCompletion.EpochAbove` | spectrum-offchain-lm/src/data/pool.rs:404-411 | the epoch of a budget above `r` allocations, with no upper bound on the budget |
| `PoolCompletion.EpochCompletes` | spectrum-offchain-lm/src/data/pool.rs:294-439 | a tolerance that covers the epochs plus the last batch completes the epoch and the next one is exactly one higher |
| `PoolCompletion.StallsIff` | spectrum-offchain-lm/src/data/pool.rs:294-378 | the last batch of an epoch leaves the epoch unchanged with every further batch of the outstanding bundles refused if and only if it leaves more than the tolerance above the later epochs' allocation |
| `PoolCompletion.MovesOpenIff` | spectrum-offchain-lm/src/data/pool.rs:437-439 | after a batch the epoch counts as completed if and only if what it leaves is within the tolerance above a multiple of the allocation |
| `PoolCompletion.SpentEpochIsRefused` | spectrum-offchain-lm/src/data/pool.rs:328-332 | once every bundle is compounded for the epoch the budget pays, every batch is refused as already compounded |
| `PoolCompletion.EqualStakers` | spectrum-offchain-lm/src/data/pool.rs:294-439 | runs from accepted deployments with one to six equal stakers: the pool advances if and only if the tolerance covers the units left, and otherwise stalls, with moves blocked for two to five stakers and open for six; with enough tolerance they meet the premises of `EpochCompletes` |
| `PoolSelection.SelectionIff` | spectrum-offchain-lm/src/data/bundle.rs:288-295 | the index of a bundle agrees with the loop (at the epoch being paid it burns one epoch, above it and only there it is refused, once paid it is the next epoch) if and only if the epochs it holds tokens for, cast to 32 bits, are no more than the program has and the cast loses nothing or leaves the index below the epoch being paid |
| `PoolSelection.DelegatedOverRuns` | spectrum-offchain-lm/src/data/pool.rs:139-378 | from a deployment that delegates no more epochs than the program has, every bundle of every run keeps to that |
| `PoolSelection.SelectionOverRuns` | spectrum-offchain-lm/src/data/bundle.rs:288-295 | in every state of such runs before the program is over, index and loop agree on every bundle |
| `PoolSelection.FirstIndexIff` | spectrum-deploy-lm-pool/src/main.rs:666-714 | the first bundle can be indexed if and only if the epochs it is delegated for, as a 32-bit number, are no more than the program has |
| `Layout.PaysInOrder` | spectrum-offchain-lm/src/data/pool.rs:305-378 | the batch loop yields one successor and one reward per bundle, in the order of the bundles |
| `Layout.BundlePlaced` | spectrum-offchain-lm/src/data/order.rs:110-129 | the successors follow the pool and the residual funding, the rewards follow the successors |
| `Layout.FirstBundle` | spectrum-offchain-lm/src/data/order.rs:130-134 | where the first bundle output is found, for any number of bundles and funding boxes |
| `Layout.IndicesAreOwn` | spectrum-offchain-lm/src/data/order.rs:135-164 | each bundle input points to its own successor and its own reward, and the predicted bundle is that successor |
| `Layout.IndicesAreOwnIff` | spectrum-offchain-lm/src/data/order.rs:130-150 | the indices are right if and only if the funding, as passed in, leaves no change or its first script is not the bundle validator |
| `Layout.ChangeIff` | spectrum-offchain-lm/src/data/pool.rs:384-395 | a residual funding box exists if and only if the funding exceeds the cost of the batch by a box value |
| `Layout.FundingIsPlaced` | spectrum-offchain-lm/src/data/order.rs:110-169 | the pool and the funding boxes are the first inputs, and the change is predicted, with its exact value, as the box behind the pool |
| `Layout.GuardedFundingMisleads` | spectrum-offchain-lm/src/data/order.rs:130-150 | a batch whose bundle points to the change instead of its successor |
| `Layout.GenerateInvalidations` | spectrum-offchain/src/executor.rs:169-221 | the loops compute the invalidations of an order from the missing indices |
| `Layout.CollectFunding` | spectrum-offchain/src/executor.rs:188-194 | the loop collects exactly the missing funding positions, in ascending order |
| `Layout.CollectBundles` | spectrum-offchain/src/executor.rs:199-205 | the loop collects exactly the missing positions behind the funding boxes, cast to unsigned words |
| `Layout.MissingIffInvalidated` | spectrum-offchain/src/executor.rs:169-221 | an input is invalidated as the kind of box placed there if and only if it is missing, for deposits, redeems and batches |
| `Layout.InvalidatedAsPlaced` | spectrum-offchain/src/executor.rs:169-221 | nothing is invalidated as a kind of box it is not |
| `Layout.ReportedAreInputsIff` | spectrum-offchain/src/executor.rs:199-208 | every index handed on belongs to the transaction if and only if the node named only inputs |
| `Chain.MeetingChainsAgree` | ergo-chain-sync/src/lib.rs:119-162 | linked chains of one block tree that share a block agree below it |
| `ChainSync.InMemoryCache.AppendBlock` | ergo-chain-sync/src/cache/chain_cache.rs:38-44 | stores the block and makes it the best one |
| `ChainSync.InMemoryCache.TakeBestBlock` | ergo-chain-sync/src/cache/chain_cache.rs:56-64 | removes and returns the best block; its parent becomes the best one |
| `ChainSync.ChainSynchroniser.constructor` | ergo-chain-sync/src/lib.rs:91-114 | starts at the given height or at the best cached one, whichever is higher |
| `ChainSync.ChainSynchroniser.TryUpgrade` | ergo-chain-sync/src/lib.rs:119-162 | one attempt rolls forward onto a known parent, rolls back otherwise, and moves `next_height` accordingly |
| `ChainSync.InitAtBest` | ergo-chain-sync/src/lib.rs:91-114 | a synchroniser started on a cached chain asks for the last block of that chain again |
| `ChainSync.TakeHolds` | ergo-chain-sync/src/cache/chain_cache.rs:56-64 | taking from a cache that holds a linked chain returns its last block and leaves the rest |
| `ChainSync.KnownParentIsBest` | ergo-chain-sync/src/lib.rs:134-142 | a known parent of the block at the next height can only be the best block |
| `ChainSync.UpgradeKeepsSynced` | ergo-chain-sync/src/lib.rs:119-162 | each upgrade keeps log, chain, cache and height in step, and a rollback carries the last block still standing |
| `ChainSync.SyncSafety` | ergo-chain-sync/src/lib.rs:119-162 | for all answers of the node, forks included, replaying the emitted upgrades yields exactly the cached, parent-linked chain, and `next_height` is its end |
| `ChainSync.FollowConverges` | ergo-chain-sync/src/lib.rs:119-162 | a node that keeps serving a longer chain is caught up with after one step per block above the fork point on either side |
| `RocksCache.ChainCacheRocksDB.AppendBlock` | ergo-chain-sync/src/cache/rocksdb.rs:52-168 | the puts, the transaction loop and the eviction compute `Append`, panics included |
| `RocksCache.ChainCacheRocksDB.TakeBestBlock` | ergo-chain-sync/src/cache/rocksdb.rs:192-275 | the transaction loop, the deletions and the new best record compute `Take`, panics included |
| `RocksCache.AppendRepresents` | ergo-chain-sync/src/cache/rocksdb.rs:52-168 | appending to a store that represents a window represents the window with the block pushed and the oldest evicted when full; the child key needed is always there |
| `RocksCache.AppendKeys` | ergo-chain-sync/src/cache/rocksdb.rs:52-168 | an append adds the height and parent keys of its block and drops exactly those of the evicted one |
| `RocksCache.TakeReturnsLast` | ergo-chain-sync/src/cache/rocksdb.rs:192-275 | a take returns the last block with its id, parent, height and transactions |
| `RocksCache.TakeRepresents` | ergo-chain-sync/src/cache/rocksdb.rs:192-275 | a take that leaves the oldest block alone represents the window without its last block |
| `RocksCache.TakeKeepsWindowIff` | ergo-chain-sync/src/cache/rocksdb.rs:192-275 | a take leaves the records of the remaining window if and only if it does not take the oldest block; after the only block is taken the oldest record still names it |
| `RocksCache.BypassPanicsIff` | ergo-chain-sync/src/cache/rocksdb.rs:52-168 | after the only block is taken, a fork that bypasses it appends without a panic as far as the window reaches, and its next block panics if and only if no child of the block was ever recorded |
| `RocksCache.SiblingPanics` | ergo-chain-sync/src/cache/rocksdb.rs:52-168 | with a window of one, the child of a sibling of the taken block panics |
| `RocksRuns.RunIsFaithful` | ergo-chain-sync/src/cache/rocksdb.rs:52-275 | along every run the store never panics, represents exactly the live window, returns blocks last in first out, and `exists` holds exactly for blocks appended and not evicted |
| `RocksKeys.TidyOverRuns` | ergo-chain-sync/src/cache/rocksdb.rs:52-275 | along every run the stored transactions are exactly those of the live window, and no key of an evicted block remains |
| `RocksKeys.PutTxsKeys` | ergo-chain-sync/src/cache/rocksdb.rs:74-97 | appending stores one body per transaction of the block and no other one |
| `RocksRuns.ExistsInWindow` | ergo-chain-sync/src/cache/rocksdb.rs:170-178 | every block of the window exists and no evicted block does |
| `RocksRuns.CachesAgree` | ergo-chain-sync/src/cache/rocksdb.rs:180-275 | while the window lasts both caches report the same best block and give back the same blocks |
| `RocksRuns.ForwardLinksIff` | ergo-chain-sync/src/lib.rs:134-142 | over the persistent cache a block rolled forward links to the best one if and only if its parent is not the leftover of a rolled-back block |
| `RocksSync.LinkedIff` | ergo-chain-sync/src/lib.rs:119-162 | a run over the persistent cache never panics and its replayed chain stays linked, with the window at its end and the store faithful to it, if and only if no block is taken for linked on a leftover key |
| `RocksSync.AttemptStaysInStep` | ergo-chain-sync/src/lib.rs:119-162 | an attempt whose parent is no leftover does not panic, keeps chain, window and height in step, and a rollback carries the last block still standing without its timestamp |
| `RocksRestart.RestartFollows` | ergo-chain-sync/src/lib.rs:91-162 | after a restart on a cached window, against a node whose chain leaves it anywhere above the oldest block, the cache ends up with the node's chain, and consumers have applied the cached chain up to and including one block too many, followed by the node's |
| `RocksRestart.RestartIsCleanIff` | ergo-chain-sync/src/lib.rs:91-162 | after a restart every applied block is on the node's chain if and only if the cached window is |
| `RocksRestart.PassesOver` | ergo-chain-sync/src/lib.rs:119-162 | at the fork the node's block is appended beside the cached one, which is not rolled back, and the store represents the node's chain |
| `RocksRuns.UnlinkedOverPersistentCache` | ergo-chain-sync/src/cache/rocksdb.rs:192-275 | answers of a node after which the replayed chain is not linked |
| `Mempool.SyncState.PushBlock` | ergo-mempool-sync/src/lib.rs:49-55 | appends the block's transaction ids and keeps at most ten blocks |
| `Mempool.SyncState.PopBlock` | ergo-mempool-sync/src/lib.rs:57-59 | drops the last block, if any |
| `Mempool.SyncState.Sync` | ergo-mempool-sync/src/lib.rs:93-115 | the two loops compute `Synced`, whatever the order in which vanished ids are visited |
| `Mempool.SyncState.PopUpdate` | ergo-mempool-sync/src/lib.rs:181-188 | hands out the queued updates first in first out and loses none |
| `Mempool.PushKeepsEnd` | ergo-mempool-sync/src/lib.rs:49-55 | the window stays the end of the chain when a block is pushed |
| `Mempool.PopKeepsEnd` | ergo-mempool-sync/src/lib.rs:57-59 | the window stays the end of the chain when a block is popped, even past the window |
| `Mempool.SyncKeeps` | ergo-mempool-sync/src/lib.rs:93-115 | after a synchronisation the projection holds exactly the fetched ids and the queued updates still fold to it |
| `Mempool.SyncQueues` | ergo-mempool-sync/src/lib.rs:97-114 | only fetched transactions are accepted, and only what is not fetched is removed |
| `Mempool.ProjectionOverRuns` | ergo-mempool-sync/src/lib.rs:48-168 | in every run all updates ever queued fold to the projection, the updates of each transaction take turns beginning with acceptance, and the window is the end of the replayed chain |
| `Mempool.ConfirmedIsOnChain` | ergo-mempool-sync/src/lib.rs:97-107 | every confirmation queued is of a transaction in one of the last ten blocks at that moment |
| `MempoolLaws.SyncAccounts` | ergo-mempool-sync/src/lib.rs:93-115 | for each id a synchronisation queues exactly one farewell if it was known and is not fetched, a confirmation if and only if a block of the window holds it and a withdrawal otherwise; exactly one acceptance if it is new; and nothing else |
| `MempoolLaws.WindowSpans` | ergo-mempool-sync/src/lib.rs:48-60 | the window spans one block more after each block up to ten, and one less after each rollback |
| `MempoolLaws.SpanAfterForwards` | ergo-mempool-sync/src/lib.rs:48-60 | after ten blocks in a row the window is full, and without rollbacks it holds the last ten blocks or all of them |
| `MempoolLaws.ConfirmedIff` | ergo-mempool-sync/src/lib.rs:97-107 | in every run an update about a transaction that left is a confirmation if and only if the transaction is in one of the blocks at the end of the chain that the window spans |
| `EntityRepo.EntityRepoRocksDB.PutPredicted` | spectrum-offchain/src/box_resolver/rocksdb.rs:150-176 | stores the state, links it to its predecessor and makes it the last prediction |
| `EntityRepo.EntityRepoRocksDB.PutConfirmed` | spectrum-offchain/src/box_resolver/rocksdb.rs:178-194 | stores the state and makes it the last confirmed one |
| `EntityRepo.EntityRepoRocksDB.PutUnconfirmed` | spectrum-offchain/src/box_resolver/rocksdb.rs:196-212 | stores the state and makes it the last unconfirmed one |
| `EntityRepo.EntityRepoRocksDB.Invalidate` | spectrum-offchain/src/box_resolver/rocksdb.rs:214-247 | cuts the link and falls back to the predecessor, or forgets the entity |
| `EntityRepo.EntityRepoRocksDB.Eliminate` | spectrum-offchain/src/box_resolver/rocksdb.rs:249-269 | removes the link and all last states of the entity |
| `EntityRepo.EntityRepoRocksDB.IsLinking` | spectrum-offchain/src/box_resolver.rs:52-70 | the link-walking loop terminates and returns true if and only if the anchor is one or more links away |
| `EntityRepo.EntityRepoRocksDB.ResolveEntityState` | spectrum-offchain/src/box_resolver.rs:15-50 | resolves to the prediction if it is or descends from the anchor, and to the anchor otherwise |
| `EntityRepo.SoundOverRuns` | spectrum-offchain/src/box_resolver/rocksdb.rs:150-269 | prediction links stay acyclic under every sequence of operations |
| `EntityRepo.Acyclic` | spectrum-offchain/src/box_resolver.rs:52-70 | links of predicted states never lead back to the state they start from |
| `EntityRepo.ResolvedOverRuns` | spectrum-offchain/src/box_resolver.rs:15-50 | after any sequence of operations an entity resolves to a state of its own, and to a prediction only if it is the current anchor or descends from it |
| `EntityResolve.PredictionReturnedIff` | spectrum-offchain/src/box_resolver.rs:24-49 | with a confirmed state and a linked last prediction the entity resolves to the prediction if and only if following its links leads to the anchor, and to the anchor otherwise |
| `EntityResolve.ResolvesWithoutPrediction` | spectrum-offchain/src/box_resolver.rs:24-49 | without a linked prediction the entity resolves to its mempool state, or else to its confirmed one |
| `EntityResolve.ResolvesIff` | spectrum-offchain/src/box_resolver.rs:24-49 | an entity resolves to something if and only if it is confirmed, or known to the mempool and not predicted |
| `EntityResolve.PredictionLinks` | spectrum-offchain/src/box_resolver/rocksdb.rs:150-176 | a prediction links its state to the predecessor given, if any, and touches no other link |
| `EntityResolve.UnconfirmedIsAnchor` | spectrum-offchain/src/box_resolver/rocksdb.rs:196-212 | a mempool state becomes the anchor, and is resolved to while nothing is predicted |
| `EntityResolve.EliminatedIsGone` | spectrum-offchain/src/box_resolver/rocksdb.rs:249-269 | an eliminated entity has no last state of any kind and resolves to nothing |
| `EntityResolve.PredictionsResolve` | spectrum-offchain/src/box_resolver.rs:15-70 | a chain of predictions on top of the anchor resolves to its last state |
| `EntityResolve.ConfirmationKeepsPredictions` | spectrum-offchain/src/box_resolver.rs:15-70 | confirming any state of the chain keeps its last state resolved |
| `EntityResolve.ForkDiscardsPredictions` | spectrum-offchain/src/box_resolver.rs:15-70 | confirming a state that the chain does not pass discards the chain |
| `EntityResolve.OthersUnchanged` | spectrum-offchain/src/box_resolver/rocksdb.rs:150-269 | an operation on one entity leaves what every other entity resolves to |
| `EntityRepo.OwnedOverRuns` | spectrum-offchain/src/box_resolver/rocksdb.rs:150-269 | links and last states never mix entities |
| `EntityRepo.InvalidateIsEffective` | spectrum-offchain/src/box_resolver/rocksdb.rs:214-247 | after an invalidation the entity never resolves to the state or to anything predicted on it, and where the last prediction stood on it, it resolves to the stored predecessor or nothing |
| `EntityLedger.ExtractTransitions` | spectrum-offchain/src/event_sink/handlers/entity.rs:53-97 | the loops over inputs and outputs pair what a transaction consumed and created, one transition per entity |
| `EntityLedger.Drain` | spectrum-offchain/src/event_sink/handlers/entity.rs:86-96 | draining the two maps visits each entity once, in any order |
| `EntityLedger.TryHandle` | spectrum-offchain/src/event_sink/handlers/entity.rs:108-148 | an applied transaction queues its transitions and an unapplied one queues them swapped, as rollbacks |
| `EntityLedger.TrackEntities` | spectrum-offchain/src/box_resolver/process.rs:20-37 | each queued update is dispatched to the repository operation it stands for |
| `EntityRollback.BatchOutcome` | spectrum-offchain/src/box_resolver/process.rs:20-37 | the updates of one transaction concern different entities, so their order does not matter |
| `EntityRollback.HandledOutcome` | spectrum-offchain/src/event_sink/handlers/entity.rs:108-148 | handling a transaction gives every entity its outcome in whatever order updates arrive |
| `EntityRollback.ApplyKeepsInStep` | spectrum-offchain/src/event_sink/handlers/entity.rs:108-125 | applying a valid transaction moves the confirmed states to the ledger after it |
| `EntityRollback.UnapplyKeepsInStep` | spectrum-offchain/src/event_sink/handlers/entity.rs:126-144 | unapplying the last transaction restores the ledger before it |
| `EntityRollback.RunStaysInStep` | spectrum-offchain/src/box_resolver/process.rs:20-37 | in every last-in first-out run with predictions interleaved, the confirmed states are those of the surviving transactions |
| `EntityRollback.RollbackRestores` | spectrum-offchain/src/box_resolver/rocksdb.rs:178-269 | each entity's last confirmed state equals the one obtained by applying only the surviving chain from scratch |
| `EntityLive.LedgerIsUnspent` | spectrum-offchain/src/event_sink/handlers/entity.rs:53-97 | the ledger of a valid chain holds exactly the entities, blacklisted ones aside, whose boxes some transaction made and no later one spent |
| `EntityLive.ConfirmedIsUnspent` | spectrum-offchain/src/event_sink/handlers/entity.rs:53-148 | in every run the confirmed state of an entity is exactly the one in its unspent box on the surviving chain, and a blacklisted entity has none |
| `EntityLive.EventForgets` | spectrum-offchain/src/event_sink/handlers/entity.rs:53-148 | a transaction forgets predictions and mempool states of just the entities it spends for good; undoing it forgets no prediction, and the mempool states of just the entities it had made |
| `EntityRollback.ForwardSurvives` | spectrum-offchain/src/event_source.rs:17-36 | the events of a block rolled forward append its transactions |
| `EntityRollback.BackwardSurvives` | spectrum-offchain/src/event_source.rs:17-36 | the events of a block rolled back, in reverse order, remove exactly its transactions |
| `EntitySync.LogSurvives` | spectrum-offchain/src/event_source.rs:17-36 | the transactions that survive the events of a log of upgrades are those of the chain it replays to |
| `EntitySync.ReplayedLedger` | spectrum-offchain/src/event_source.rs:17-36 | whatever predictions come in between, each entity's confirmed state is the one of the ledger of the replayed chain |
| `EntitySync.SyncedEntities` | ergo-chain-sync/src/lib.rs:119-162 | for all answers of the node the confirmed entities are those of the ledger of exactly the linked chain in the cache |
| `Backlog.BacklogService.constructor` | spectrum-offchain/src/backlog.rs:239-253 | every stored order is restored as pending |
| `Backlog.BacklogService.Put` | spectrum-offchain/src/backlog.rs:313-352 | a new order ends up stored and pending and leaves the other queues |
| `Backlog.BacklogService.Suspend` | spectrum-offchain/src/backlog.rs:354-372 | a stored order joins the suspended queue with its own timestamp |
| `Backlog.BacklogService.CheckLater` | spectrum-offchain/src/backlog.rs:374-383 | a stored order joins the end of the revisit queue with the current time |
| `Backlog.BacklogService.Recharge` | spectrum-offchain/src/backlog.rs:409-423 | a stored order returns to the pending queue |
| `Backlog.BacklogService.Remove` | spectrum-offchain/src/backlog.rs:402-407 | an order leaves the store; its queue entries are skipped later |
| `Backlog.BacklogService.RevisitProgressingOrders` | spectrum-offchain/src/backlog.rs:255-279 | the loop with its early exit computes `Revisited` |
| `Backlog.BacklogService.TryPop` | spectrum-offchain/src/backlog.rs:385-393 | revisits, then pops the queue that the draw selects, keeping the invariant |
| `Backlog.PopMaxOrder` | spectrum-offchain/src/backlog.rs:282-304 | pops until an entry that has not expired and whose order is stored is found; orders leave the store only with an expired entry of theirs |
| `Backlog.MaxEntry` | spectrum-offchain/src/backlog.rs:282-304 | the entry that a priority queue pops has the greatest weight |
| `Backlog.FindEntry` | spectrum-offchain/src/backlog.rs:313-352 | the search for an order in a queue finds an entry if and only if there is one |
| `Backlog.RemoveFirst` | spectrum-offchain/src/backlog.rs:313-352 | removes the first revisit entry of an order and keeps the others in order |
| `Backlog.RevisitedHolds` | spectrum-offchain/src/backlog.rs:255-279 | revisiting strands no order and keeps the revisit queue sorted by time |
| `Backlog.RevisitIsComplete` | spectrum-offchain/src/backlog.rs:255-279 | with a monotone clock, stopping at the first recent entry leaves no entry older than `order_exec_time` |
| `Backlog.RevisitTakesFront` | spectrum-offchain/src/backlog.rs:255-279 | the entries taken are the front of the revisit queue |
| `Backlog.RevisitKeeps` | spectrum-offchain/src/backlog.rs:255-279 | revisiting takes nothing off the pending queue, leaves the suspended queue alone and stores nothing new |
| `Backlog.RevisitSettles` | spectrum-offchain/src/backlog.rs:255-279 | each entry taken was older than `order_exec_time` and its order is pending again or no longer stored |
| `Backlog.RevisitDropsExpired` | spectrum-offchain/src/backlog.rs:255-279 | an order is dropped only if an entry of it has outlived the lifespan |
| `Backlog.PopIsOptimal` | spectrum-offchain/src/backlog.rs:282-304 | the popped order has maximum weight among the live entries of the queue, no live entry is lost, and an order is dropped only with an expired entry of it |
| `Backlog.StepHolds` | spectrum-offchain/src/backlog.rs:255-423 | every operation keeps the invariant of the backlog |
| `Backlog.NeverStranded` | spectrum-offchain/src/backlog.rs:239-423 | in every run each stored order is pending, suspended, to be revisited, or was popped and not handed back |
| `BacklogQueues.SuspendedIsQueued` | spectrum-offchain/src/backlog.rs:354-372 | a suspended order is in the suspended queue, the other queues and the store are as before |
| `BacklogQueues.RechargedIsQueued` | spectrum-offchain/src/backlog.rs:409-423 | a recharged order is in the pending queue, the other queues and the store are as before |
| `BacklogQueues.PutIsPending` | spectrum-offchain/src/backlog.rs:313-352 | an order that is put is stored and pending, and leaves the revisit and suspended queues if it had one entry there |
| `BacklogQueues.WithoutEntries` | spectrum-offchain/src/backlog.rs:326-332 | a put removes exactly the first revisit entry of its order and none of another |
| `BacklogQueues.CheckedIsOnlyToRevisit` | spectrum-offchain/src/backlog.rs:374-383 | a submitted order joins the revisit queue only |
| `BacklogQueues.SuspendedOnlyRetried` | spectrum-offchain/src/backlog.rs:255-423 | over runs, a suspended order that is neither pending nor to be revisited is returned only by pops whose draw says to retry, until it is put, recharged or checked |
| `BacklogQueues.NeverRetriedUnlessSuspended` | spectrum-offchain/src/backlog.rs:255-423 | over runs, an order that is not suspended is never returned by pops of the suspended queue, until it is suspended |
| `BacklogQueues.CheckedIsNotReturnedEarly` | spectrum-offchain/src/backlog.rs:255-393 | over runs of pops, a submitted order is not returned before `order_exec_time` has passed |
| `BacklogAges.PutStampedIff` | spectrum-offchain/src/backlog.rs:313-352 | a put keeps every queue entry at its order's stored timestamp if and only if the order is stored and is pending or comes with the stored timestamp, or it is not stored and every entry left behind has the new one |
| `BacklogAges.PutRevisitedLaterIff` | spectrum-offchain/src/backlog.rs:313-352 | a put keeps revisit entries no older than their orders if and only if the order is stored or no revisit entry left behind is too early |
| `BacklogAges.CheckLaterIff` | spectrum-offchain/src/backlog.rs:374-383 | checking later keeps revisit entries no older than their orders if and only if the order is not stored with a later timestamp |
| `BacklogAges.StepKeepsAges` | spectrum-offchain/src/backlog.rs:255-423 | under these conditions every operation keeps the entries at the ages of their orders |
| `BacklogAges.PopDropsOld` | spectrum-offchain/src/backlog.rs:282-304 | where the entries carry the stored timestamps a pop drops only orders older than the lifespan |
| `BacklogAges.DropsOnlyOld` | spectrum-offchain/src/backlog.rs:255-423 | in every run whose puts and checks meet these conditions an order leaves the store only by removal or when it is older than the lifespan |
| `BacklogAges.FreshOrderIsDropped` | spectrum-offchain/src/backlog.rs:313-352 | a run in which an order put again after its removal is dropped one second later |
| `Bytes.BigEndianOrder` | spectrum-offchain-lm/src/scheduler.rs:286-292 | reversed little-endian bytes of equal width are ordered like the numbers |
| `ScheduleKeys.KeyRoundTrip` | spectrum-offchain-lm/src/scheduler.rs:294-317 | a key gives back its pool, and each destructuring function accepts exactly its own kind of key |
| `ScheduleKeys.PrefixSelects` | spectrum-offchain-lm/src/scheduler.rs:276-281 | each iteration prefix selects exactly its own kind of key |
| `ScheduleKeys.TickKeyOrder` | spectrum-offchain-lm/src/scheduler.rs:286-292 | byte order of tick keys is height order, with the pool id breaking ties |
| `ScheduleKeys.EncodeInjective` | spectrum-offchain/src/binary.rs:3-14 | different keys have different bytes |
| `Schedule.ScheduleRepoRocksDB.UpdateSchedule` | spectrum-offchain-lm/src/scheduler.rs:97-134 | writes schedule and tick and drops the neighbouring ticks, unless the height was tried already or the program is over |
| `Schedule.ScheduleRepoRocksDB.Peek` | spectrum-offchain-lm/src/scheduler.rs:136-233 | the two scans find the first pending and the first due deferred tick, and the lower one is returned |
| `Schedule.ScheduleRepoRocksDB.PeekPending` | spectrum-offchain-lm/src/scheduler.rs:145-160 | the scan returns the first pending key, in byte order, that resolves to a tick |
| `Schedule.ScheduleRepoRocksDB.PeekDeferred` | spectrum-offchain-lm/src/scheduler.rs:172-194 | the scan returns the first due key that resolves to a tick and stops at the first one that is not due |
| `Schedule.ScheduleRepoRocksDB.Remove` | spectrum-offchain-lm/src/scheduler.rs:235-242 | removes the deferred key of a tick |
| `Schedule.ScheduleRepoRocksDB.Defer` | spectrum-offchain-lm/src/scheduler.rs:244-256 | moves a tick from pending to deferred |
| `Schedule.ScheduleRepoRocksDB.Clean` | spectrum-offchain-lm/src/scheduler.rs:258-273 | deletes every key whose last 32 bytes are the pool's id |
| `ScheduleRuns.UpdateKeepsIff` | spectrum-offchain-lm/src/scheduler.rs:97-134 | an update keeps one tick per pool if and only if it lands within one epoch of the pool's tick |
| `ScheduleRuns.RemoveKeeps` | spectrum-offchain-lm/src/scheduler.rs:235-242 | removing keeps one tick per pool |
| `ScheduleLaws.UpdateSchedules` | spectrum-offchain-lm/src/scheduler.rs:97-134 | after an update the pool's only tick is at the new height, deferred if it was and pending otherwise, and the stored schedule agrees |
| `ScheduleLaws.DeferredIsDeferred` | spectrum-offchain-lm/src/scheduler.rs:244-256 | a deferred tick is not pending any more and is due at the given time; no other key changes |
| `ScheduleLaws.RemovedIsGone` | spectrum-offchain-lm/src/scheduler.rs:235-242 | removing drops the deferred key of the tick and nothing else |
| `ScheduleLaws.DeferAndRemoveClears` | spectrum-offchain-lm/src/scheduler/process.rs:87-97 | deferring the pool's tick and removing it leaves the pool without a tick, and it is not peeked |
| `ScheduleRuns.CleanIsExact` | spectrum-offchain-lm/src/scheduler.rs:258-273 | cleaning removes all keys of the pool and no others |
| `ScheduleRuns.CleanKeeps` | spectrum-offchain-lm/src/scheduler.rs:258-273 | cleaning keeps one tick per pool |
| `ScheduleRuns.OneEpochApartIsNear` | spectrum-offchain-lm/src/scheduler/data.rs:33-41 | schedules of one program that are at most one epoch apart have ticks at most one epoch length apart |
| `ScheduleRuns.OneTickOverRuns` | spectrum-offchain-lm/src/scheduler.rs:97-273 | in every run whose updates move by at most one epoch and whose deferred ticks are current, each pool has at most one tick key, at its stored schedule's next height |
| `ScheduleRuns.DeferredScanIff` | spectrum-offchain-lm/src/scheduler.rs:172-194 | the scan of the deferred ticks finds a tick if and only if the first one by height and pool is due, and then finds that one |
| `ScheduleRuns.PeekIsNearest` | spectrum-offchain-lm/src/scheduler.rs:136-233 | peeking returns a pool's next tick, never above a pending one; it returns nothing if and only if none is pending and the first deferred one is not due, and a tick at or below a deferred one if and only if the first deferred one is due or a tick is pending there |
| `ScheduleLaws.DeferredIsReturned` | spectrum-offchain-lm/src/scheduler.rs:198-230 | the first deferred tick is returned if it is due and no pending one is lower |
| `ScheduleLaws.PendingIsReturned` | spectrum-offchain-lm/src/scheduler.rs:198-230 | the first pending tick is returned if no due first deferred one is level with it or lower |
| `ScheduleRuns.DueTickWaits` | spectrum-offchain-lm/src/scheduler.rs:172-194 | a run after which a tick is due and peeking returns nothing |
| `ScheduleRuns.TwoEpochsLeaveTwoTicks` | spectrum-offchain-lm/src/scheduler.rs:97-134 | a schedule that jumps two epochs leaves two pending ticks of one pool |

## Left out

- Floating point: the `f64` divisions and remainders of the epoch arithmetic are exact integer operations here, which agrees for amounts below 2^53.
- Token ids, registers, scripts, signing and the building and parsing of boxes: only amounts, ids and key layouts are modelled. Staked amounts are taken to be positive, as on the ledger.
- `TxIoVec` bounds: the library's limit on the number of inputs and outputs is not modelled, and indices cast to `i32` are taken to fit.
- Commit-and-retry loops of optimistic transactions, and interleavings inside one operation: each operation is one atomic step, as under the mutex that guards it.
- Streams, throttling, delays, HTTP clients, the node API, the explorer, logging, the command line and all `*Tracing` wrappers.
- Page-by-page fetching of the mempool: a synchronisation receives the whole pool.
- Restart of chain synchronisation on a cache of a single block, or against a node whose chain leaves the cached window at or below its oldest block, or returns to blocks rolled back earlier; elsewhere runs start from an empty cache, where the starting height is the first block.
- Runs of the persistent cache past its oldest block: `RocksCache.TakeKeepsWindowIff` and `RocksCache.BypassPanicsIff` show where the window breaks, and runs stop there. Block timestamps are zero after a take, as in the source.
- `RocksRuns.RunIsFaithful`: the rollback depth is at least one; with a depth of zero the source never evicts.
- Unchecked decrement of `next_height`: heights of chain synchronisation are unbounded integers; `ChainSync.SyncSafety` shows that it never falls below the starting height.
- Entity boxes created before synchronisation started, and invalidations issued by the executor: the rollback theorem covers applications, rollbacks and predictions over a ledger seen from its beginning.
- `Backlog.NeverStranded`: an order's id fixes its weight, and the clock never goes backwards.
- The funding repository and the bundle repository: of the latter only the epoch index of a bundle is modelled.
- The executor's order routing around the network, and the text parsing of node errors.
- The deployment tool apart from `validate_pool` and the amounts of the first pool and bundle.
