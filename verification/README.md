# Verified model of the PoDL protocol's state machines

A Dafny model of the state machines and integer arithmetic in
`BlockchainComponent/`, with proofs about every input, every run and every
reachable state. Amounts (`big.Int` in the source) are unbounded integers, and
64-bit counters are written with their wrap-around where it can be reached.

Each component has a functional model: one function per operation, from a state
value to the next. Code that updates objects in place is modelled by a class
whose methods are proved against those functions. The lemmas are about the
functions, so they hold of the methods. The `Laws` modules, `Liveness`, `VmText`
and `VmEffects` say what the functions compute without naming them: who pays and
who receives by sums over lists, what is accepted by conditions on the input.
Loops over Go maps pick keys in an arbitrary order, and where the order changes a
result the result says so.

Block rewards are computed in IEEE arithmetic: weights are non-negative reals,
sums and ratios are rounded to 53 significant bits and the scaled slice to 64,
ties to even (`Floats`).

| component | functional model and laws | objects and loops |
|---|---|---|
| concentrated liquidity | `TickLedger`, `SwapMath`, `PoolModel`, `SwapLaws`, `PoolLaws` | `ConcentratedPool` |
| block production and replay | `Emission`, `Floats`, `Rewards`, `RewardSupply`, `BlockExecution`, `BlockLaws`, `RewardWitness` | `Chain`, `Ledger` |
| keeper bonds, auctions, revenue | `CustodyModel`, `AuctionRuns`, `CustodyLaws` | `Custody` |
| BFT voting and view change | `VotingPower`, `BftModel`, `Quorums`, `ViewChange`, `Liveness` | `BftNode` |
| bounded BFT checker | `BoundedModel` | `BoundedModel` |
| ECVRF-P256-SHA256-TAI | `Octets`, `PrimeField`, `Ecvrf` | `Octets`, `Ecvrf` |
| batch auction | `BatchModel`, `BatchOrder`, `BatchLaws` | `BatchAuction` |
| contract database | `ContractStore` | `ContractDb` |
| contract transactions | `NativeFlows`, `FlowLaws` | `TxBuffer` |
| hardened VM | `HardenedVm`, `VmText`, `VmEffects` | `Interpreter` |
| protocol arbitrage | `ConstantProduct`, `ArbModel` | `ProtocolArb` |
| pool rebalancing | `PoolRebalance` | `PoolRouter` |
| delegation and votes | `Grouping`, `Delegation`, `GovernanceModel` | `Governance` |

`Basics`, `Sums` and `Sorting` hold the shared vocabulary: sums over finite maps
in any order, and what a library sort promises.

Addresses and identifiers are in the canonical form the source converts them to
(lower case, trimmed). A missing `big.Int` reads as 0. Hash functions, signature
checks, address checks and number formatting are parameters; identifiers that
the source derives by hashing are the hashed values themselves.

## Results that qualify the source

* The cached active liquidity of a concentrated pool is not always the sum over
  the positions that cover the price. A downward swap that lands exactly on a
  tick leaves the counter at the liquidity of the range just below
  (`DownwardSwapCounts`, `DownwardSwapCanSpoil`). `StepConsistency` and
  `RunConsistency` give the exact condition, read off the ticks, the price, the
  counter and the input: whether the input is the cost of crossing down to a tick
  (`LandsExactly`).
* Liquidity weights are added in floating point while ranging over a Go map
  (`rewards.go:402-455`), so the rounded total depends on the visiting order. Two
  nodes agree exactly when their orders round to the same shares
  (`RewardsAgree`); `VisitingOrderMatters` has an input where they do not.
* Three kinds of transactions are kept by the proposer and then refused by every
  receiver: a fee that wraps around 64 bits, a pooled entry of the reward type,
  and a free transfer from an unknown account (`WrappedFeeIsRefused`,
  `PooledRewardIsRefused`, `FreeTransferIsRefused`). `MinedBlockReplays` gives the
  exact condition under which a block is accepted.
* Rounded shares can add up to more than their slice. They cannot while slice and
  group are of moderate size (`GroupFits`), and an accepted block with very large
  fees can create coins (`AcceptedBlockCanOverpay`).
* The first-epoch reward is 20 coins (`EmissionHalves`), as the constant says; the
  table above it says 10 (rewards.go:277-288). `optimiseInput` is described as a
  binary search (protocol_arb.go:308) and doubles its input (`OptimiseInput`).
* The epoch-jumping emission total equals the per-block sum exactly while the
  epoch of the height ends within 64 bits (`EpochTotalsExact`).

## Model

| member | source | states |
|---|---|---|
| `TickLedger.AddTickCorrect` | BlockchainComponent/advanced_amm.go:249-258 | Adding a delta at a price keeps the tick list strictly sorted, one tick per price, and raises the net at or below any price exactly when that price is at or above the tick |
| `TickLedger.BackedNetsSumToZero` | BlockchainComponent/advanced_amm.go:234-258 | Whenever ticks and positions agree at every price, all tick nets sum to zero |
| `SwapMath.UpPartialStopsShort` | BlockchainComponent/advanced_amm.go:358-384 | An upward step that does not consume the whole range ends strictly below the next tick |
| `SwapMath.DownPartialStaysAbove` | BlockchainComponent/advanced_amm.go:338-357 | A downward step inside a range moves the price and never past the next tick below |
| `SwapMath.SwapUpKeepsDrift` | BlockchainComponent/advanced_amm.go:329-386 | From any state, an upward swap of any number of crossings leaves the difference between the counter and the ticks unchanged |
| `SwapMath.SwapDownDrift` | BlockchainComponent/advanced_amm.go:329-386 | From any state, a downward swap carries the difference just under its start to its end, or just under its end when the last step lands on a tick |
| `SwapMath.UpwardSwapPays` | BlockchainComponent/advanced_amm.go:358-384 | output * P^2 <= (net input + crossings) * (10^18)^2 for every upward swap that starts at price P |
| `SwapMath.LandsExactly` | BlockchainComponent/advanced_amm.go:338-357 | A downward swap that goes through ends on the k-th tick below its start if and only if its net input is the cumulative cost of exactly k crossings; otherwise it ends inside a range |
| `SwapLaws.SwapDownObeys` | BlockchainComponent/advanced_amm.go:329-357 | A downward swap of any number of crossings pays the token1 the ranges between its prices hold, told from ticks and liquidity alone, less under one unit a step, and ends at the highest price above which they hold its net input in token0, give or take a unit a crossing |
| `SwapLaws.SwapUpObeys` | BlockchainComponent/advanced_amm.go:358-386 | An upward swap pays the token0 of the ranges it passes, less under one unit a step, and its net input is the token1 they hold, the next price unit and a unit a crossing aside |
| `SwapLaws.DownGoesThrough` | BlockchainComponent/advanced_amm.go:329-357 | A downward swap goes through if and only if the liquid ranges next to its price cost at least its input to cross |
| `SwapLaws.UpGoesThrough` | BlockchainComponent/advanced_amm.go:358-386 | The same of upward swaps |
| `PoolModel.FeeIsConserved` | BlockchainComponent/advanced_amm.go:194-232 | A fee goes exactly to the covering positions plus the remainder, in that token only, and while any position covers the price the remainder grows by less than one unit per covering position |
| `PoolModel.InputIsAccountedFor` | BlockchainComponent/advanced_amm.go:322-386 | In every successful swap the input the loop takes plus what the pool then holds more in fees of that token is exactly the amount paid in, and the other token's fees are untouched |
| `PoolModel.AddKeeps` | BlockchainComponent/advanced_amm.go:130-140 | Adding a position keeps ticks and positions in agreement and the counter's difference from the covering sum unchanged |
| `PoolModel.RemoveKeeps` | BlockchainComponent/advanced_amm.go:142-167 | Removing all or part of a position keeps the same |
| `PoolModel.OwnerCanWithdraw` | BlockchainComponent/advanced_amm.go:142-167 | In a consistent pool a withdrawal succeeds exactly when the caller owns the position and asks for at most its liquidity: the underflow guard never fires |
| `PoolModel.TransferKeeps` | BlockchainComponent/advanced_amm.go:169-177 | A transfer changes neither ticks, nor counter, nor what covers any price |
| `PoolModel.CollectKeeps` | BlockchainComponent/advanced_amm.go:179-192 | Collecting fees, also when it deletes an emptied position, changes neither ticks, nor counter, nor what covers any price |
| `PoolModel.UpwardSwapKeeps` | BlockchainComponent/advanced_amm.go:329-386 | Every successful upward swap keeps the counter right and does not lower the price |
| `PoolModel.DownwardSwapDrift` | BlockchainComponent/advanced_amm.go:329-386 | A downward swap shifts the counter's error by the net at its start, less the net of the tick its input pays to land on |
| `PoolModel.DownwardSwapCounts` | BlockchainComponent/advanced_amm.go:329-386 | A downward swap that starts off every tick ends with the counter at the liquidity around its price, or of the range just below when it lands on a tick |
| `PoolModel.StepConsistency` | BlockchainComponent/advanced_amm.go:130-192 | One operation on a consistent pool keeps it consistent if and only if it is not a successful downward swap whose start has another net than the tick its net input, compared with the crossing costs, pays to land on |
| `PoolModel.RunConsistency` | BlockchainComponent/advanced_amm.go:130-386 | Over every run the counter equals the covering sum after every operation if and only if no such swap occurs in the run |
| `PoolModel.EmptyPool` | BlockchainComponent/advanced_amm.go:118-128 | A pool without positions satisfies the invariant every run starts from |
| `PoolModel.DownwardSwapCanSpoil` | BlockchainComponent/advanced_amm.go:338-357 | A concrete consistent pool and sale after which the counter is wrong |
| `PoolLaws.NetInputRounds` | BlockchainComponent/advanced_amm.go:322-328 | The net input is the part of the amount the fee leaves, rounded down |
| `PoolLaws.DownwardSwapPays` | BlockchainComponent/advanced_amm.go:329-357 | Over the positions of the pool: output and end price of a downward swap are those of the token1 and token0 the positions hold between its prices, two-sided |
| `PoolLaws.UpwardSwapPaysOut` | BlockchainComponent/advanced_amm.go:358-386 | The same of an upward swap: its output is bounded from both sides by the token0 the positions hold, its input by the token1 |
| `PoolLaws.ConsistentIsExact` | BlockchainComponent/advanced_amm.go:234-247 | In a consistent pool the counter is exact, so that these amounts are those of the positions alone |
| `PoolLaws.SwapSucceeds` | BlockchainComponent/advanced_amm.go:287-386 | A valid swap fails exactly when the liquid ranges cannot take its net input or its output rounds to nothing |
| `PoolLaws.FeeGoesToCovering` | BlockchainComponent/advanced_amm.go:194-232 | Each covering position earns its floored share of a fee in the fee's token, and the others nothing |
| `PoolLaws.AddThenRemove` | BlockchainComponent/advanced_amm.go:130-167 | A valid new position is always accepted and puts its liquidity at exactly the prices of its range; only its owner can withdraw it, and withdrawing all of it restores counter, positions and net liquidity |
| `PoolLaws.TransferHandsOver` | BlockchainComponent/advanced_amm.go:169-177 | After a transfer the new owner, and no one else, can withdraw, collect and transfer the position |
| `ConcentratedPoolObject.ConcentratedPool.AddTickAt` | BlockchainComponent/advanced_amm.go:249-258 | Adding to an existing tick, or appending one and sorting, gives the model's tick list |
| `ConcentratedPoolObject.ConcentratedPool.AddRange` | BlockchainComponent/advanced_amm.go:234-247 | Both ticks and, when the price is inside, the counter take the liquidity |
| `ConcentratedPoolObject.ConcentratedPool.AddPosition` | BlockchainComponent/advanced_amm.go:130-140 | The method yields the model's next state, or leaves the pool alone when it refuses |
| `ConcentratedPoolObject.ConcentratedPool.RemovePosition` | BlockchainComponent/advanced_amm.go:142-167 | The method yields the model's next state, or leaves the pool alone when it refuses |
| `ConcentratedPoolObject.ConcentratedPool.TransferPosition` | BlockchainComponent/advanced_amm.go:169-177 | The method changes the owner only, or refuses |
| `ConcentratedPoolObject.ConcentratedPool.CollectPositionFees` | BlockchainComponent/advanced_amm.go:179-192 | The method pays what was owed and yields the model's next state |
| `ConcentratedPoolObject.ConcentratedPool.AccruePositionFee` | BlockchainComponent/advanced_amm.go:194-232 | The loop over positions credits exactly the floored shares and keeps the rest, in any map order |
| `ConcentratedPoolObject.ConcentratedPool.NextTick` | BlockchainComponent/advanced_amm.go:267-282 | Finds the nearest tick strictly beyond the price in the swap's direction, or reports none |
| `ConcentratedPoolObject.ConcentratedPool.Swap` | BlockchainComponent/advanced_amm.go:287-327 | A swap runs on a deep copy and either takes the whole effect of the swap function or none |
| `ConcentratedPoolObject.ConcentratedPool.SwapInPlace` | BlockchainComponent/advanced_amm.go:329-386 | The tick-crossing loop terminates and computes the swap function and the fee step |
| `Emission.ScheduledEmissionThrough` | BlockchainComponent/rewards.go:308-328 | The 64-bit epoch loop returns the per-block sum up to the block its wrapped end marker stands for |
| `Emission.EpochTotalsExact` | BlockchainComponent/rewards.go:308-328 | That total is the sum through the height if and only if the height's epoch ends within 64 bits |
| `Emission.ProjectSupply` | BlockchainComponent/economic_operations.go:163-207 | The projection equals the per-block sum over the projected blocks, cut to the remaining cap, with the flag and the revenue share of the capped issuance |
| `Emission.CappedRun` | BlockchainComponent/rewards.go:330-343 | After any run of blocks, cumulative emission is the smaller of the cap and the scheduled sum |
| `Emission.EmissionHalves` | BlockchainComponent/rewards.go:294-304 | The reward is 20 coins in the first epoch and halves, rounded down and never below one unit, with every epoch |
| `Rewards.PayOrder` | BlockchainComponent/rewards.go:414-466 | Against one total, paying the same weighted entries in another order leaves the same table |
| `Rewards.RewardsAgree` | BlockchainComponent/rewards.go:360-519 | Two nodes with equal states list the same rewards if and only if the orders in which they visit positions and locks round to the same shares, and then reach the same state |
| `Rewards.EqualTotalsAgree` | BlockchainComponent/rewards.go:400-466 | Visiting orders with equal rounded totals and merged lock entries give everyone the same shares |
| `RewardWitness.VisitingOrderMatters` | BlockchainComponent/rewards.go:400-430 | Three positions on stakes 2, 8 and 18 whose shares differ between two visiting orders of the same map |
| `RewardWitness.OrderAloneRefuses` | BlockchainComponent/block_replay.go:315-318 | A block mined from an empty pool in one of these orders is refused by a node that visits in the other |
| `RewardSupply.GroupFits` | BlockchainComponent/rewards.go:544-552 | n entries that share a slice of p coins are paid at most p in all, whatever their weights, when 2(n+1)(p+1) <= 2^53 |
| `RewardSupply.PortionIsNear` | BlockchainComponent/rewards.go:544-552 | A share is pool times weight over total, rounded down, from both sides up to two roundings |
| `RewardSupply.RewardsCreate` | BlockchainComponent/rewards.go:360-519 | Balances plus pending rewards rise by exactly the two fixed slices and the rounded shares |
| `RewardSupply.RewardsAreFunded` | BlockchainComponent/rewards.go:360-519 | With slices and groups of that size, balances plus pending rewards rise by at most the block's capped emission plus its fees; emission always stays within the cap |
| `BlockExecution.MinedBlockReplays` | BlockchainComponent/blocks.go:405-575 | Whatever the workers' order and each node's map order, a receiver accepts the mined block if and only if its list is replayable (no reward entry, no fee overflow, no repeated nonce, sums in 64 bits, every sender pays something or is known at its turn) and both map orders round to the same shares; then it reaches the proposer's state |
| `BlockExecution.CleanPoolAlwaysReplays` | BlockchainComponent/block_replay.go:230-335 | A pool that meets these conditions as a list always yields a block that receivers with the same totals accept, whatever part of it the miner keeps |
| `BlockExecution.WrappedFeeIsRefused` | BlockchainComponent/block_replay.go:272-281 | A transaction whose fee wraps is kept by the miner and its block refused by every receiver |
| `BlockExecution.PooledRewardIsRefused` | BlockchainComponent/block_replay.go:251-258 | A pooled entry of the reward type, which verification lets through unsigned (blockchain_struct.go:1747-1762), is kept and paid, and its block refused by every receiver |
| `BlockExecution.FreeTransferIsRefused` | BlockchainComponent/block_replay.go:300-304 | A transfer of nothing at gas price 0 from an unknown account, which a wrapped minimum price admits (blocks.go:115), is kept and its block refused by every receiver |
| `BlockExecution.AcceptedBlockCreates` | BlockchainComponent/block_replay.go:243-335 | What an accepted block creates beyond its emission is exactly what its slices and rounded shares exceed its reward pool by |
| `BlockExecution.AcceptedBlockSupply` | BlockchainComponent/block_replay.go:243-335 | No accepted block whose fees and groups are of moderate size, however made, raises balances plus pending rewards by more than its capped emission |
| `RewardWitness.AcceptedBlockCanOverpay` | BlockchainComponent/rewards.go:544-552 | A concrete accepted block with very large fees that creates 32 coins more than it emits |
| `BlockExecution.ChainSupply` | BlockchainComponent/block_replay.go:243-335 | Over every chain of accepted blocks of moderate size supply grows by at most what was emitted, and emission never passes the cap |
| `BlockLaws.MiningSettles` | BlockchainComponent/blocks.go:405-555 | After mining, before rewards, every account holds its old balance plus the values of the kept transfers to it, less value and fee of those from it |
| `BlockLaws.KeptExactly` | BlockchainComponent/blocks.go:405-555 | The miner keeps the next result if and only if it is a system entry, or it was verified, fits the block's gas, and its sender still holds value and fee by the sums over the list so far |
| `BlockLaws.ReplaySettles` | BlockchainComponent/block_replay.go:243-308 | The same sums on the receiver, over the charged transfers of every list it gets through |
| `BlockLaws.ReplaysExactly` | BlockchainComponent/block_replay.go:243-308 | A list replays if and only if each entry is the first and matching reward entry, a system entry, or a transfer with a fitting fee and a fresh nonce whose known sender is covered by the sums over the entries before |
| `BlockLaws.SlicesShareThePool` | BlockchainComponent/rewards.go:360-400 | The pool is the block's emission plus its fees, each slice its percentage rounded down, and the six slices miss the pool by at most five units |
| `BlockLaws.MergedIsOwnWeight` | BlockchainComponent/rewards.go:432-455 | Merging locks keeps one entry for each owner, with that owner's weights added in the order they come |
| `BlockLaws.OthersAre` | BlockchainComponent/rewards.go:467-488 | The other validators are those of the list except the proposer, each as often as it is listed |
| `BlockLaws.RewardsReach` | BlockchainComponent/rewards.go:360-519 | Every account gains exactly its fixed slices and shares: 40% for the proposer, 11% for the treasury, shares of 12% and 2% for other validators and participants, pending shares of 30% and 5% for liquidity |
| `BlockLaws.ListingIsWhatIsPaid` | BlockchainComponent/rewards.go:360-519 | What a breakdown lists for an account is what the account is given |
| `BlockLaws.AcceptedExactly` | BlockchainComponent/block_replay.go:243-335 | A receiver accepts a block if and only if its list runs, it holds a reward entry, and its gas, breakdown and state root are those of the list |
| `BlockLaws.AcceptedBlockSettles` | BlockchainComponent/block_replay.go:243-335 | Every accepted block leaves each account with its old balance, plus what is sent to it, less value and fee of what it sends, plus its rewards |
| `Ledger.Accounts.Add` | BlockchainComponent/blockchain_struct.go:1385-1398 | Credits one account, creating it when needed |
| `Ledger.Accounts.Sub` | BlockchainComponent/blockchain_struct.go:1405-1419 | Debits a known account that holds the amount, or refuses and changes nothing |
| `Chain.ChainObject.TakeCappedEmission` | BlockchainComponent/rewards.go:330-343 | Takes the block's reward cut to what the cap leaves, and records it |
| `Chain.SumWeights` | BlockchainComponent/rewards.go:402-413 | The accumulating loop returns the total rounded after every addition |
| `Chain.MergeWeights` | BlockchainComponent/rewards.go:432-455 | One loop merges the locks by owner and adds up their raw weights, rounding each addition |
| `Chain.PayTable` | BlockchainComponent/rewards.go:414-430 | Ranging over the entries a second time, in any order, pays each owner its rounded shares |
| `Chain.ChainObject.CalculateBlockRewards` | BlockchainComponent/rewards.go:360-519 | The in-place payments reach the state and breakdown of the reward functions |
| `Chain.ChainObject.PayAccounts` | BlockchainComponent/rewards.go:467-511 | The payment loops over validators and participants give every listed account its rounded share and touch no other |
| `Chain.ChainObject.ExecutePool` | BlockchainComponent/blocks.go:405-555 | The filter-and-execute loop keeps the transactions, balances and counters of the mining function |
| `Chain.ChainObject.MineCandidate` | BlockchainComponent/blocks.go:405-600 | Producing a block yields the state and block of the production function |
| `Chain.ChainObject.ExecuteTx` | BlockchainComponent/block_replay.go:247-307 | One replayed transaction is checked, charged and paid, or refused, as the replay step says |
| `Chain.ChainObject.ExecuteBlock` | BlockchainComponent/block_replay.go:243-308 | The receiver's loop yields the replay function's balances, counters and refusal |
| `Chain.ChainObject.ReplayIncomingBlock` | BlockchainComponent/block_replay.go:230-335 | Replay on a copy yields the replayed state or a refusal and leaves the node's own state alone |
| `CustodyModel.SplitIsExact` | BlockchainComponent/economic_policy.go:98-134 | Under a valid policy every revenue record splits into non-negative buckets that add up to the amount |
| `CustodyModel.RankingUnique` | BlockchainComponent/arb_auction.go:270-302 | The ranking of revealed bids by fee and address does not depend on the order in which the bids are listed |
| `CustodyModel.BondKeeps` | BlockchainComponent/arb_auction.go:136-155 | Bonding keeps both escrows solvent and every coin |
| `CustodyModel.WithdrawKeeps` | BlockchainComponent/arb_auction.go:175-194 | A withdrawal keeps both escrows solvent and every coin, and is never refused for want of escrow coins |
| `CustodyModel.RecordKeeps` | BlockchainComponent/economic_policy.go:98-134 | Recording revenue raises the buckets by exactly the amount |
| `CustodyModel.CaptureKeeps` | BlockchainComponent/economic_operations.go:29-57 | Capturing revenue from an outside payer keeps solvency and every coin |
| `CustodyModel.BurnKeeps` | BlockchainComponent/economic_operations.go:102-125 | A buyback burn keeps solvency and every coin |
| `CustodyModel.DeployKeeps` | BlockchainComponent/economic_operations.go:127-150 | A treasury deployment keeps solvency and every coin |
| `CustodyModel.ExecuteKeeps` | BlockchainComponent/arb_auction.go:307-367 | Executing an auction and settling its profit keeps solvency and every coin |
| `CustodyModel.SlashKeeps` | BlockchainComponent/arb_auction.go:384-399 | Slashing a missed winner moves forfeited bond into covered revenue and cannot fail |
| `CustodyModel.StepKeepsSolvency` | BlockchainComponent/arb_auction.go:136-425 | Every operation with outside keepers and payers keeps bonds equal to the bond escrow, buckets within the revenue escrow, and all coins |
| `AuctionRuns.FinalizePicksCheapest` | BlockchainComponent/arb_auction.go:270-302 | The winner has the lowest revealed fee, ties by address; finalizing fails exactly when nobody revealed |
| `AuctionRuns.ExpirySucceeds` | BlockchainComponent/arb_auction.go:371-425 | An expiry of a solvent state always succeeds, fails one more of the candidates and leaves the candidates as they are |
| `AuctionRuns.RunExpiries` | BlockchainComponent/arb_auction.go:371-425 | Over every run with non-decreasing heights the successful expiries of one auction are exactly the candidates it has failed since, at most as many as it has candidates |
| `AuctionRuns.StepKeepsAuctions` | BlockchainComponent/arb_auction.go:220-425 | Every operation keeps the auction invariants, and settled auctions never change again |
| `AuctionRuns.RunIsSafe` | BlockchainComponent/arb_auction.go:136-425 | Over every run with non-decreasing heights: both escrows solvent, coins conserved, settled auctions unchanged |
| `CustodyLaws.BondMoves` | BlockchainComponent/arb_auction.go:136-155 | A bond is accepted exactly from a valid keeper that holds it, moves from that keeper to the bond escrow and counts for that keeper alone |
| `CustodyLaws.BondRoundTrip` | BlockchainComponent/arb_auction.go:136-194 | A keeper off duty that bonds and asks for its bond back gets it exactly from the unbonding delay on, and ends with the coins it had |
| `CustodyLaws.SplitShares` | BlockchainComponent/economic_policy.go:98-134 | Revenue is shared by the policy rounded down; the rest is for buybacks, at most three units above their share, or for insurance while that is short or buybacks are off |
| `CustodyLaws.CaptureMoves` | BlockchainComponent/economic_operations.go:29-57 | A capture is accepted exactly when covered or already on record, moves the amount from the payer to the revenue escrow and the buckets once, and repeating it changes nothing |
| `CustodyLaws.BurnMoves` | BlockchainComponent/economic_operations.go:102-125 | A burn moves the amount from the revenue escrow and the buyback bucket to the burn address, and nothing else |
| `CustodyLaws.DeployMoves` | BlockchainComponent/economic_operations.go:127-150 | A deployment moves the amount from the revenue escrow and the operations bucket to its target, and nothing else |
| `CustodyLaws.CandidatesAreRanked` | BlockchainComponent/arb_auction.go:270-302 | The candidates of a finalized auction are exactly the keepers that revealed, cheapest first, and the first of them wins |
| `CustodyLaws.ExecuteMoves` | BlockchainComponent/arb_auction.go:307-367 | Only the winner executes, after the reveal window and within its deadline; a gain moves from the pools to the revenue escrow and the buckets, no account pays it, and the auction is settled by it |
| `CustodyLaws.SlashIs` | BlockchainComponent/arb_auction.go:384-392 | A slash is the policy's part of the bond rounded down, at least one unit and at most the bond |
| `CustodyLaws.SlashMoves` | BlockchainComponent/arb_auction.go:384-399 | The slash moves from the winner's bond to insurance and nobody else pays |
| `CustodyLaws.ExpiryPromotes` | BlockchainComponent/arb_auction.go:371-425 | After an expiry the first candidate in ranking order that has not failed and is still bonded takes over at its own fee; the auction fails exactly when there is none |
| `CustodyLaws.OpenStarts` | BlockchainComponent/arb_auction.go:220-233 | Opening needs a name and two windows that are not empty, sets their ends and starts without bids |
| `CustodyLaws.CommitSeals` | BlockchainComponent/arb_auction.go:234-250 | A commitment is taken exactly from a bonded valid keeper in the commit window |
| `CustodyLaws.RevealOpens` | BlockchainComponent/arb_auction.go:251-269 | A reveal is taken exactly in the reveal window for a fee up to 2000 that hashes with its salt to the keeper's commitment, and opens that bid only |
| `CustodyLaws.RunKeepsSealed` | BlockchainComponent/arb_auction.go:234-269 | In every run each revealed fee hashes, with some salt, to the commitment its keeper gave |
| `CustodyLaws.FeesAreBound` | BlockchainComponent/arb_auction.go:234-269 | Once the commit window is over a keeper can reveal only one fee: any two continuations that reveal its bid reveal the same |
| `Custody.ProtocolCustody.BondKeeper` | BlockchainComponent/arb_auction.go:136-155 | The method yields the model's next state, or leaves the chain alone when it refuses |
| `Custody.ProtocolCustody.RequestUnbond` | BlockchainComponent/arb_auction.go:157-173 | The method starts the unbonding delay, or refuses while the keeper is on duty |
| `Custody.ProtocolCustody.WithdrawBond` | BlockchainComponent/arb_auction.go:175-194 | The method yields the model's next state, or leaves the chain alone when it refuses |
| `Custody.ProtocolCustody.OpenAuction` | BlockchainComponent/arb_auction.go:220-233 | The method yields the model's next state, or leaves the chain alone when it refuses |
| `Custody.ProtocolCustody.CommitBid` | BlockchainComponent/arb_auction.go:234-250 | The method yields the model's next state, or leaves the chain alone when it refuses |
| `Custody.ProtocolCustody.RevealBid` | BlockchainComponent/arb_auction.go:251-269 | The method yields the model's next state, or leaves the chain alone when it refuses |
| `Custody.ProtocolCustody.FinalizeAuction` | BlockchainComponent/arb_auction.go:270-302 | Gathering, sorting and picking the revealed bids yields the model's next state |
| `Custody.ProtocolCustody.ExecuteAuction` | BlockchainComponent/arb_auction.go:307-367 | The method yields the model's next state, or leaves the chain alone when it refuses |
| `Custody.ProtocolCustody.ExpireAuction` | BlockchainComponent/arb_auction.go:371-425 | Slashing and promoting the next candidate yields the model's next state |
| `Custody.ProtocolCustody.RecordRevenue` | BlockchainComponent/economic_policy.go:98-134 | The method adds the split of the amount to the buckets |
| `Custody.ProtocolCustody.CaptureRevenue` | BlockchainComponent/economic_operations.go:29-57 | The method yields the model's next state, or leaves the chain alone when it refuses |
| `Custody.ProtocolCustody.BuybackBurn` | BlockchainComponent/economic_operations.go:102-125 | The method yields the model's next state, or leaves the chain alone when it refuses |
| `Custody.ProtocolCustody.DeployCapital` | BlockchainComponent/economic_operations.go:127-150 | The method yields the model's next state, or leaves the chain alone when it refuses |
| `VotingPower.WeightBounded` | BlockchainComponent/consensus_bft.go:429-444 | No set of voters outweighs its validator set, also when an address is listed twice |
| `VotingPower.QuorumsOverlap` | BlockchainComponent/consensus_bft.go:446-468 | Two quorums of one set share more than a third of its power |
| `Quorums.CertifiedMeans` | BlockchainComponent/consensus_bft.go:501-567 | A certificate is backed by a joint quorum of the votes then on record, the new one added to those before |
| `Quorums.ConflictingCertificatesShareVoters` | BlockchainComponent/consensus_bft.go:501-567 | Certificates for two blocks at one height, round and step, on any two nodes with the same sets, need more than a third of the active power, and before activation of the pending power, on record for both |
| `Quorums.RunKeepsAuthentic` | BlockchainComponent/consensus_bft.go:501-537 | In every run each recorded vote is filed under its own key and validator and has a valid signature |
| `Quorums.ConflictConvicts` | BlockchainComponent/consensus_bft.go:501-567 | After any runs of two nodes from empty tables, conflicting certificates under the same sets mean that validators with more than a third of the power have each signed a vote for both blocks |
| `Quorums.RunKeepsTable` | BlockchainComponent/consensus_bft.go:251-292 | Over every run of votes, timeouts, round changes, set transitions and pruning of older heights, recorded votes stay as they are |
| `Quorums.OneNodeCertifiesOnce` | BlockchainComponent/consensus_bft.go:501-567 | One node that certified a block never certifies another at that height, round and step under the same sets, whatever it processes in between |
| `Quorums.VotesFollowLockRule` | BlockchainComponent/consensus_bft.go:556-565 | A prevote certificate locks its block; a precommit certificate is issued only without a lock or for the locked block and becomes the last certificate; a conflicting joint quorum is refused; nothing else touches lock or last certificate |
| `Quorums.EquivocationLeavesEvidence` | BlockchainComponent/consensus_bft.go:524-536 | A second vote for another block leaves evidence of both votes and changes nothing else |
| `ViewChange.StepMovesRound` | BlockchainComponent/consensus_bft.go:189-219 | An event moves a height's round by one, only with an expired timer, a certificate for the current round and no final block at or above, or forgets it on finalization |
| `ViewChange.RoundsAreJustified` | BlockchainComponent/consensus_safety.go:79-122 | In every run, for every round of a height below its current one a timeout certificate was formed with more than two thirds of the active and, before activation, of the pending power |
| `ViewChange.RoundsAreBounded` | BlockchainComponent/consensus_safety.go:56-59 | No round passes 1,000,001, so the 32-bit counter never wraps |
| `ViewChange.LocksSurviveViewChange` | BlockchainComponent/consensus_bft.go:187-219 | Only a vote can change the lock, the last certificate or the evidence |
| `Liveness.VoteOutcomes` | BlockchainComponent/consensus_bft.go:446-567 | Every vote has exactly one outcome; a first valid vote certifies, or meets a conflicting lock, if and only if three times the power of those for its block exceeds twice the active and, before activation, the pending power; the certificate names its voters and powers |
| `Liveness.TimeoutOutcomes` | BlockchainComponent/consensus_safety.go:79-122 | A first valid timeout forms a certificate if and only if three times the power of those timed out exceeds twice the power |
| `Liveness.AdvancesExactly` | BlockchainComponent/consensus_bft.go:189-219 | A round advances, by one, if and only if its timer has run out, it holds a timeout certificate and nothing is final at or above its height |
| `Liveness.SupermajorityCertifies` | BlockchainComponent/consensus_bft.go:501-567 | Validators with more than two thirds of the power that vote for one block lock it by prevotes and make it the last certificate by precommits, in any order |
| `Liveness.TransitionTakesOneEpoch` | BlockchainComponent/consensus_bft.go:400-427 | A scheduled validator set takes over exactly one epoch later and nothing changes in between |
| `Liveness.FinalizeForgets` | BlockchainComponent/consensus_bft.go:251-292 | Finalizing forgets exactly the rounds up to the height and the votes and timeouts 128 heights below |
| `BftNodeObject.ValidatorSetPower` | BlockchainComponent/consensus_bft.go:429-435 | The loop returns the power of the whole set |
| `BftNodeObject.ValidatorPowerFor` | BlockchainComponent/consensus_bft.go:437-444 | The loop returns the power of the first entry for the address, 0 without one |
| `BftNodeObject.VotePowerForHash` | BlockchainComponent/consensus_bft.go:452-468 | In any map order the loop returns the weight of the voters for the block and those with power |
| `BftNodeObject.BftNode.AddConsensusVote` | BlockchainComponent/consensus_bft.go:501-567 | The method yields the state and outcome of the voting function: refusal, duplicate, evidence, recording, lock conflict or certificate |
| `BftNodeObject.BftNode.AddConsensusTimeoutVote` | BlockchainComponent/consensus_safety.go:79-122 | The method yields the state and certificate of the timeout function |
| `BftNodeObject.BftNode.CurrentConsensusRound` | BlockchainComponent/consensus_bft.go:172-185 | Starts the timer of a height once and returns its round |
| `BftNodeObject.BftNode.AdvanceConsensusRound` | BlockchainComponent/consensus_bft.go:189-219 | The round moves exactly under the view-change condition, and nothing else changes |
| `BftNodeObject.BftNode.PrepareValidatorSetTransition` | BlockchainComponent/consensus_bft.go:400-427 | Activates and schedules sets as the transition function does |
| `BftNodeObject.BftNode.PruneConsensusRounds` | BlockchainComponent/consensus_bft.go:251-292 | Forgets exactly the finalized rounds and the votes 128 heights below |
| `BoundedModel.StrictQuorumIsLeast` | BlockchainComponent/consensus_model.go:20-20 | The integer quorum is the least number of equal votes above two thirds |
| `BoundedModel.EqualVotesAreSafeAndLive` | BlockchainComponent/consensus_model.go:30-46 | For any validators and votes: with at most (n-1)/3 double signers two blocks cannot both reach the quorum, and the honest ones alone can reach it |
| `BoundedModel.ExactTolerance` | BlockchainComponent/consensus_model.go:30-46 | Two blocks can both reach the quorum if and only if the faulty validators number at least twice the quorum minus n |
| `BoundedModel.CheckHonestVotes` | BlockchainComponent/consensus_model.go:37-46 | The loop visits every distribution of honest votes once and reports none |
| `BoundedModel.CheckJointVotes` | BlockchainComponent/consensus_model.go:47-58 | The loop visits every pair of partial votes once and never takes a one-sided quorum for a joint one |
| `BoundedModel.CheckBoundedBFTModel` | BlockchainComponent/consensus_model.go:22-65 | For every minimum and maximum the checker reports no violation, is valid, and has visited exactly every distribution of every size |
| `Octets.FixedRoundTrip` | BlockchainComponent/ecvrf_p256.go:30-41 | A value that fits its width comes back from its octets |
| `Octets.ToIntRoundTrip` | BlockchainComponent/ecvrf_p256.go:30-41 | Every octet string is the fixed-width form of its integer |
| `Octets.FixedWidthInt` | BlockchainComponent/ecvrf_p256.go:30-41 | Cutting and right-aligning the shortest form fills the buffer with the fixed-width form |
| `PrimeField.NoZeroDivisors` | BlockchainComponent/ecvrf_p256.go:79-87 | A prime divides no product of two smaller positive numbers, so scalar multiples never reach infinity |
| `Ecvrf.EncodeByTrying` | BlockchainComponent/ecvrf_p256.go:103-120 | The counter loop computes the encode-to-curve function |
| `Ecvrf.TryFromFindsFirst` | BlockchainComponent/ecvrf_p256.go:103-120 | Encoding succeeds exactly when some counter up to 255 hashes to a point, and returns the point of the least such counter |
| `Ecvrf.ProofRoundTrip` | BlockchainComponent/ecvrf_p256.go:202-226 | An encoded proof has 81 octets and decodes to the same point and scalars |
| `Ecvrf.DecodeThenEncode` | BlockchainComponent/ecvrf_p256.go:212-226 | Every decoded proof encodes back to the octets it came from |
| `Ecvrf.HaltsExactly` | BlockchainComponent/ecvrf_p256.go:237-266 | The verifier meets the point at infinity if and only if key, proof and input parse and the response is the challenge times the key, or the response times the encoded input is the challenge times gamma |
| `Ecvrf.ResponseCancels` | BlockchainComponent/ecvrf_p256.go:253-260 | The verifier's subtraction removes the secret from the response, modulo the order |
| `Ecvrf.ProofsVerify` | BlockchainComponent/ecvrf_p256.go:180-266 | For every valid secret and every input that encodes, proving succeeds, the proof decodes to its parts, and verification accepts with the prover's output |
| `Ecvrf.AcceptsExactly` | BlockchainComponent/ecvrf_p256.go:237-266 | Verification accepts with an output if and only if key, proof and input parse, the commitments s - c y and s h - c gamma modulo the order are not infinity, their 16 challenge octets give c, and the output is the hash of gamma |
| `Ecvrf.ProveFailsOnlyWhen` | BlockchainComponent/ecvrf_p256.go:180-210 | Proving fails if and only if the secret is outside the field or the input does not encode |
| `Ecvrf.TwoAnswersFixGamma` | BlockchainComponent/ecvrf_p256.go:253-263 | Two responses to different challenges on the same commitments force gamma to be the secret times the encoded input |
| `BatchModel.AllotmentsAreExact` | BlockchainComponent/batch_auction.go:106-115 | The allotments of a side add up to exactly the matched amount |
| `BatchModel.SideAllotments` | BlockchainComponent/batch_auction.go:106-115 | Allotments are floored pro-rata shares and never negative; the last order gets at least its share and at most one unit per other order more |
| `BatchModel.FillMeetsLimit` | BlockchainComponent/batch_auction.go:120-133 | Every fill is at the clearing price, rounded down, and meets the order's pro-rata limit |
| `BatchModel.PayoutsFitMatched` | BlockchainComponent/batch_auction.go:92-138 | Token0 sellers receive at most matched1 in total, token1 sellers at most matched0, and neither exceeds what its side offered |
| `BatchOrder.SettlementPayouts` | BlockchainComponent/batch_auction.go:90-149 | In every settlement the fills are those of the two sides, each side is allotted exactly its matched amount, which it offered, and is paid at most the other side's |
| `BatchOrder.ClearingIsOrderIndependent` | BlockchainComponent/batch_auction.go:54-150 | With distinct order ids the settlement is the same for every input order |
| `BatchOrder.EveryOrderIsAnswered` | BlockchainComponent/batch_auction.go:54-150 | With distinct ids every order is filled within its limit, left open, or both exactly when the fill is partial |
| `BatchLaws.ClearExhausts` | BlockchainComponent/batch_auction.go:54-105 | Every settlement uses up a side: all of token0 is matched or one unit more would exceed all of token1 at the clearing price, and matched1 is the largest amount worth no more than matched0 |
| `BatchLaws.JudgedExactly` | BlockchainComponent/batch_auction.go:60-89 | An order stands on a side if and only if it is live, valid, sells that side's token and its limit is met at the reserves' price |
| `BatchLaws.FilledExactly` | BlockchainComponent/batch_auction.go:116-136 | An allotment becomes a fill of that amount at the clearing price unless it is empty or worth less than its part of the limit |
| `BatchLaws.OffersStand` | BlockchainComponent/batch_auction.go:60-89 | With distinct ids every order that offers stands on its side |
| `BatchLaws.OrderIsFilledExactly` | BlockchainComponent/batch_auction.go:92-138 | In every settlement an offering order has the fill its allotment gives and no other, and has none only if nothing matches or its limit forbids it |
| `BatchAuction.Collect` | BlockchainComponent/batch_auction.go:60-89 | The classification loop keeps the first live order of each id on its side and rejects the rest |
| `BatchAuction.FillOrder` | BlockchainComponent/batch_auction.go:116-136 | One order is filled at the clearing price, left open below its rounded-up limit or without an allotment, and listed as open too when partial |
| `BatchAuction.FillSide` | BlockchainComponent/batch_auction.go:106-138 | The loop over a side yields the model's fills and open orders |
| `BatchAuction.ClearUniformBatch` | BlockchainComponent/batch_auction.go:54-150 | The whole procedure yields the model's settlement, or an error for an invalid market |
| `ContractStore.ReadSeesView` | BlockchainComponent/lqd_contract_engine.go:131-150 | A read through any depth of overlays sees the flattened state |
| `ContractStore.LoadAllSeesView` | BlockchainComponent/lqd_contract_engine.go:306-347 | LoadAllStorage through any depth returns the contract's entries of the flattened state |
| `ContractStore.ApplyRefines` | BlockchainComponent/lqd_contract_engine.go:118-163 | A write, delete or batch changes the view as it would a flat state and nothing below the top |
| `ContractStore.FlushRefines` | BlockchainComponent/lqd_contract_engine.go:172-199 | Flushing leaves the parent equal to the child's view and touches nothing below the parent |
| `ContractStore.SessionsRefineSnapshots` | BlockchainComponent/lqd_contract_engine.go:118-249 | For any stack and any session of writes, deletes, batches, new overlays, flushes and discards, each level reads as a store that copied itself whole on every new overlay |
| `ContractStore.WorkStaysAbove` | BlockchainComponent/lqd_contract_engine.go:165-170 | Any sequence of operations in an overlay leaves its parent untouched |
| `ContractStore.ReadsBack` | BlockchainComponent/lqd_contract_engine.go:118-163 | At any depth a write is read back, a deleted key is gone, and every other key reads as before |
| `ContractStore.SavedIsLoaded` | BlockchainComponent/lqd_contract_engine.go:223-347 | After a batch a contract's storage holds the last value given to each key and otherwise what it held, and batches of other contracts do not reach it |
| `ContractDbObject.ContractDb.Read` | BlockchainComponent/lqd_contract_engine.go:131-150 | The recursive read returns the value of the flattened state |
| `ContractDbObject.ContractDb.Write` | BlockchainComponent/lqd_contract_engine.go:118-130 | Writes the top layer only and clears a delete of the key |
| `ContractDbObject.ContractDb.Delete` | BlockchainComponent/lqd_contract_engine.go:151-163 | Deletes in the top layer only and hides a key of the parent |
| `ContractDbObject.ContractDb.SaveStorageBatch` | BlockchainComponent/lqd_contract_engine.go:223-249 | Writes the batch's storage keys in the order it is walked |
| `ContractDbObject.ContractDb.LoadAllStorage` | BlockchainComponent/lqd_contract_engine.go:306-347 | The loops over parent values, deletes and writes, in any order, return the entries of the flattened state |
| `ContractDbObject.ContractDb.NewOverlay` | BlockchainComponent/lqd_contract_engine.go:165-170 | A new overlay reads as its parent and holds nothing of its own |
| `ContractDbObject.ContractDb.FlushOverlay` | BlockchainComponent/lqd_contract_engine.go:172-199 | Flushing into an overlay key by key, or into the store at once, leaves the parent's view equal to the child's and the child as it was |
| `NativeFlows.CallsKeep` | BlockchainComponent/lqd_contract_engine.go:1790-1834 | However contracts call each other and wherever they fail, active frames are pairwise distinct and at most 16 deep, the stack is restored on every exit, and credits plus escrow equal the attached value |
| `NativeFlows.PreflightDecides` | BlockchainComponent/lqd_contract_engine.go:542-589 | Flows can be applied if and only if the preflight passes, and then balances rise by exactly the attached value |
| `NativeFlows.ExecuteAddsValue` | BlockchainComponent/lqd_contract_engine.go:1734-1762 | An executed contract transaction adds exactly its value to the balances; failures come only from the run or the preflight |
| `NativeFlows.ContractCallCostsItsFee` | BlockchainComponent/block_replay.go:282-307 | With the sender's debit in replay, a contract call lowers the total by exactly its fee |
| `NativeFlows.SendsStayNonNegative` | BlockchainComponent/lqd_contract_engine.go:576-589 | Applied sends leave no balance negative |
| `FlowLaws.SendsSettle` | BlockchainComponent/lqd_contract_engine.go:576-589 | Sends go through if and only if each sender is covered when its turn comes, by sums over the sends before; each account then gains what is sent to it and loses what it sends |
| `FlowLaws.ExecuteSettles` | BlockchainComponent/lqd_contract_engine.go:1734-1762 | A contract transaction succeeds if and only if its run does and its sends are covered; every account then gains its claims and what is sent to it, loses what it sends, and the called contract gets the unclaimed value |
| `FlowLaws.ActEffects` | BlockchainComponent/lqd_contract_engine.go:756-815 | A claim is credited to the running contract exactly within the escrow; a pull is owed by the caller to the contract and a payment by the contract |
| `FlowLaws.ActsCompose` | BlockchainComponent/lqd_contract_engine.go:1790-1834 | Acts run in sequence, each on what the one before left, up to the first that fails |
| `FlowLaws.CallEnters` | BlockchainComponent/lqd_contract_engine.go:1790-1834 | A call is entered if and only if fewer than 16 are active and its target is not; refused calls change nothing; a failed one leaves its claims and sends |
| `FlowLaws.BystandersLoseNothing` | BlockchainComponent/lqd_contract_engine.go:1734-1834 | However contracts call each other, an account that neither signed nor was entered loses nothing and gains exactly what is sent to it |
| `TxBufferObject.TxBuffer.PushCall` | BlockchainComponent/lqd_contract_engine.go:623-633 | Enters a frame exactly when the depth allows it and the contract is not active |
| `TxBufferObject.TxBuffer.PopCall` | BlockchainComponent/lqd_contract_engine.go:635-641 | Leaves a frame and lowers the depth, never below zero |
| `TxBufferObject.TxBuffer.ReceiveNative` | BlockchainComponent/lqd_contract_engine.go:756-769 | Moves a claim from escrow to the contract's credit, or refuses |
| `TxBufferObject.TxBuffer.Queue` | BlockchainComponent/lqd_contract_engine.go:775-815 | Queues a transfer with a positive amount and both ends named, or refuses |
| `TxBufferObject.TxBuffer.NativeCreditsWithRemainder` | BlockchainComponent/lqd_contract_engine.go:528-540 | Credits plus the unclaimed escrow for the entry contract |
| `TxBufferObject.TxBuffer.PreflightNativeFlows` | BlockchainComponent/lqd_contract_engine.go:542-574 | The lazily filled table decides as the preflight function does |
| `TxBufferObject.TxBuffer.CommitNativeFlows` | BlockchainComponent/lqd_contract_engine.go:576-589 | Credits in any order and sends in queue order reach the balances of the apply function |
| `HardenedVm.CompiledIsWellFormed` | BlockchainComponent/lqd_contract_engine.go:1059-1112 | Every accepted program has 1 to 1024 instructions, the operands they read, and jumps to its own instructions |
| `HardenedVm.ConsumeMeters` | BlockchainComponent/lqd_contract_engine.go:839-844 | Below 2^64 the meter adds exactly what is consumed, or stops a machine that would pass its limit |
| `HardenedVm.CompiledProgramsAreSafe` | BlockchainComponent/lqd_contract_engine.go:1114-1191 | For every gas limit, a compiled program never reads a missing operand or leaves [0, n]; every run ends, and a success of s steps has s <= 100000 and 50 s (plus 10000 a call) <= gas used <= gas limit |
| `HardenedVm.SelfJumpFails` | BlockchainComponent/lqd_contract_engine.go:1125-1129 | A program that jumps to itself fails by steps or gas instead of running on |
| `VmText.DisassemblyCompiles` | BlockchainComponent/lqd_contract_engine.go:1059-1112 | Every compiled program prints to source text that compiles to it again |
| `VmText.NumeralsAreRead` | BlockchainComponent/lqd_contract_engine.go:1103-1110 | Decimal numerals with or without a sign are read as their value |
| `VmEffects.InstructionEffects` | BlockchainComponent/lqd_contract_engine.go:1131-1175 | What each instruction does to the variables, the place and the gas: literals, sums, differences that must not be negative, opposite comparisons, jumps on the flag, calls and reverts |
| `VmEffects.MultiplyMultiplies` | BlockchainComponent/lqd_contract_engine.go:1114-1191 | A loop of additions ends exactly when its 5n + 6 steps and 850n + 1300 gas are within the limits, and then outputs n times m, for every n and m |
| `Interpreter.CompileGoSubset` | BlockchainComponent/lqd_contract_engine.go:1059-1112 | The loops over lines and jumps compute the compile function |
| `Interpreter.Context.Compute` | BlockchainComponent/lqd_contract_engine.go:1132-1161 | The reading and writing instructions do what the machine's step function says |
| `Interpreter.Context.Dispatch` | BlockchainComponent/lqd_contract_engine.go:1131-1175 | One instruction on the context does what the machine's step function says |
| `Interpreter.Context.ExecuteBytecode` | BlockchainComponent/lqd_contract_engine.go:1114-1191 | The bytecode loop needs no operand check for compiled programs, terminates, and has the machine's outcome, steps and gas |
| `ConstantProduct.ProductNeverDrops` | BlockchainComponent/protocol_arb.go:412-420 | A swap never lowers the product of the reserves |
| `ConstantProduct.OutIsLargest` | BlockchainComponent/protocol_arb.go:412-420 | The output is the largest amount that keeps the product with 99.7% of the input counted |
| `ConstantProduct.SplittingNeverPays` | BlockchainComponent/protocol_arb.go:412-420 | Splitting a trade of a + b on reserves x, y yields at most one swap's output if and only if x > 0, a = 0 or 997 b y < 1000 a + 997 b |
| `ConstantProduct.RoundTripNeverGains` | BlockchainComponent/protocol_arb.go:412-420 | Swapping the output straight back returns at most the input |
| `ArbModel.OptimiseInput` | BlockchainComponent/protocol_arb.go:309-331 | The doubling loop returns the simulation at the first doubling of the start, none beyond the capital cap, after which one more would not raise the profit, or at the sixth; never a lower profit than the start |
| `ArbModel.ArbSucceedsExactly` | BlockchainComponent/protocol_arb.go:335-407 | An arbitrage succeeds if and only if the cycle returns the input and the profit floor, the treasury can pay, and no pool it takes from is empty |
| `ArbModel.ArbIsSafe` | BlockchainComponent/protocol_arb.go:335-407 | A triangular arbitrage over distinct pairs lowers no product, conserves each token across treasury and pools, touches no other account, spends exactly its input out of the treasury, grows it by at least the floor on success and changes nothing on failure |
| `ArbModel.EpochIsSafe` | BlockchainComponent/protocol_arb.go:142-156 | Over a whole epoch of prepared paths at most three succeed and the market stays sound: no product falls, every token is conserved, no other account is touched |
| `ArbModel.EpochSpendsWithinCap` | BlockchainComponent/protocol_arb.go:119-156 | Paths sized within the capital cap pay at most three tenths of the treasury's opening balance into the pools in one epoch, less under a lower policy |
| `ProtocolArbObject.ProtocolArb.ExecuteArb` | BlockchainComponent/protocol_arb.go:335-407 | Debit, refund, batch write and credit reach the state of the arbitrage function |
| `ProtocolArbObject.ProtocolArb.ExecutePreparedPaths` | BlockchainComponent/protocol_arb.go:142-156 | The loop over prepared paths reaches the state and count of the epoch function |
| `PoolRebalance.Level` | BlockchainComponent/blockchain_struct.go:2252-2276 | The two-pointer loop terminates, keeps the sum, moves every balance towards the target only, and leaves none below it |
| `PoolRouterObject.PoolRouter.Richest` | BlockchainComponent/blockchain_struct.go:2166-2177 | In any map order the scan ends at a pool that holds at least as much as any other |
| `PoolRouterObject.PoolRouter.Allocate` | BlockchainComponent/blockchain_struct.go:2196-2222 | All unallocated liquidity moves into one of the richest pools and nothing else changes |
| `PoolRouterObject.PoolRouter.RebalancePoolsEqual` | BlockchainComponent/blockchain_struct.go:2191-2281 | Pools plus unallocated liquidity are conserved, and each of n pools ends between floor(total/n) and floor(total/n) + n - 1 |
| `PoolRouterObject.PoolRouter.ReducePoolLiquidity` | BlockchainComponent/blockchain_struct.go:2161-2189 | The sum falls by exactly the smaller of amount and sum, no pool rises, no pool that lost something was poorer than one that did not, and all that lost but one are empty |
| `Delegation.AvoidingKeepsAcyclic` | BlockchainComponent/governance_transactions.go:97-119 | A delegation the guard accepts keeps the graph acyclic |
| `Delegation.UndelegateKeepsAcyclic` | BlockchainComponent/governance_transactions.go:120-122 | Removing a delegation keeps the graph acyclic |
| `Delegation.GuardIsExact` | BlockchainComponent/governance_transactions.go:104-117 | In an acyclic graph the guard accepts if and only if the delegatee's chain ends within 63 hops and no cycle would arise |
| `Delegation.PowerReachesTheSink` | BlockchainComponent/governance.go:94-106 | An owner's power ends at an account that delegates no further if and only if its chain has at most 64 hops, and that is where every longer walk ends |
| `Delegation.SnapshotConserves` | BlockchainComponent/governance.go:85-108 | The snapshot conserves total power |
| `Delegation.SnapshotAt` | BlockchainComponent/governance.go:93-107 | An account's snapshot power is the sum of the power whose chains lead to it |
| `GovernanceModel.RunKeepsGood` | BlockchainComponent/governance_transactions.go:97-181 | Over every run delegation stays acyclic, tallies equal the recorded votes, and of the decided proposals exactly those whose final tallies pass are timelocked |
| `GovernanceModel.TalliesWithinSnapshot` | BlockchainComponent/governance_transactions.go:142-163 | In every reachable state a proposal's tallies add up to at most its snapshot power |
| `GovernanceModel.ProposalsOnlyGrow` | BlockchainComponent/governance_transactions.go:97-181 | Over every run a proposal keeps its snapshot, its deadline and every ballot cast, and once decided it never changes again |
| `GovernanceModel.VoteCounts` | BlockchainComponent/governance_transactions.go:142-163 | A vote counts if and only if the proposal is open, the period lasts and the voter has snapshot power and has not voted; it adds that power to the ballots of its choice alone |
| `GovernanceModel.BallotsDecide` | BlockchainComponent/governance_transactions.go:164-181 | In every reachable state a proposal can be queued exactly once its period is over, and is timelocked if its ballots meet quorum and approval and rejected if not |
| `GovernanceModel.UnanimityDecides` | BlockchainComponent/governance_transactions.go:164-181 | When all snapshot power is cast one way the proposal is carried exactly if that way is for it |
| `GovernanceObject.Governance.DelegateTo` | BlockchainComponent/governance_transactions.go:97-119 | The chain walk enters exactly the delegations the guard allows |
| `GovernanceObject.Governance.Withdraw` | BlockchainComponent/governance_transactions.go:120-122 | Removes the actor's delegation only |
| `GovernanceObject.Governance.FindDestination` | BlockchainComponent/governance.go:94-106 | The walk of at most 64 hops that never visits an account twice ends where the model says |
| `GovernanceObject.Governance.CreateProposal` | BlockchainComponent/governance_transactions.go:128-141 | A proposer with snapshot power opens a proposal on the snapshot of that moment, or is refused |
| `GovernanceObject.Governance.PowerSnapshot` | BlockchainComponent/governance.go:85-108 | The walk of every owner, in any map order, fills the snapshot of the model |
| `GovernanceObject.Governance.CastVote` | BlockchainComponent/governance_transactions.go:142-163 | A vote is counted exactly once, with the voter's snapshot power, while the proposal is open |
| `GovernanceObject.Governance.QueueProposal` | BlockchainComponent/governance_transactions.go:164-181 | After the voting period the proposal is timelocked exactly when its tallies pass |

## Left out

- Floating point outside block rewards: validator powers and governance power are integers and a quorum is strictly more than two thirds; `math.Nextafter` and the rounding of these floats are not modelled. In block rewards overflow and subnormal numbers are out of range, and how weights come from stakes and prices (lp_reward_tiers.go) is not modelled.
- Text details: case folding, trimming, byte lengths of non-ASCII text and JSON; hash collisions do not occur in the model.
- Cross-round BFT agreement: a later prevote certificate overwrites `LockedHash` and local prevoting does not consult the lock (consensus_bft.go:556-559), so only same-round statements are made.
- PoolModel.StepConsistency: assumes positive lower prices, which the pool contract checks before it adds a position (contract/advanced_pool.go:340-343); `feeBPS` and prices are otherwise arbitrary.
- RewardSupply.RewardsAreFunded: the size condition is sufficient; whether larger slices overpay depends on every rounding, as `AcceptedBlockCreates` states exactly.
- BlockExecution.MinedBlockReplays: covers transfers, system and reward entries; bridge, oracle, governance and contract transactions inside a block, VRF fields and wall-clock fields are not part of it.
- BlockExecution.AcceptedBlockSupply: the parent-root check, uptime recovery, the liquidity-engine epoch and fee reconciliation of a replayed block (block_replay.go:234-238, 319-323) are not part of it.
- BlockExecution.ChainSupply: leaves out the same parts of each block.
- Chain.ChainObject.ReplayIncomingBlock: leaves out the same parts.
- Chain.ChainObject.CalculateBlockRewards: weights and validator eligibility are given.
- Emission.ProjectSupply: assumes a chain height at least 2,000,000,000 below 2^64.
- CustodyModel.StepKeepsSolvency: does not cover `RecordProtocolRevenue` and `ReconcileDEXProtocolFees`, which record revenue without moving coins into escrow, nor the trimming of the revenue ledger to 100000 entries; the trades of an auction execution are one gain taken from the pools.
- Ecvrf.ProofsVerify: the group is the integers modulo the curve's prime order, and point encoding, SHA-256 and the nonce are parameters; the RFC 6979 candidate loop is one such nonce in [1, q - 1].
- Ecvrf.TwoAnswersFixGamma: states special soundness of the verification equation; full uniqueness needs a random-oracle argument about the challenge hash.
- BatchOrder.ClearingIsOrderIndependent: with repeated ids the first live order wins, so it is stated for distinct ids.
- BatchModel.SideAllotments: the last order can exceed its own amount and a limit check can drop a side, so no per-order cap and no exact balance between the sides is claimed (batch_auction.go:110-131).
- ContractStore.SessionsRefineSnapshots: `ListContractAddresses` does not hide deleted parent entries and is not modelled; database errors are not modelled.
- NativeFlows.CallsKeep: contract code is any tree of claims, sends, calls and failures; gas halving, deployment and buffered storage are not part of it. `Context.balanceOf`, which bypasses the buffer, is not modelled.
- VmEffects.MultiplyMultiplies: assumes that formatted numbers are read back, as decimal `big.Int` text is.
- ContractStore.SavedIsLoaded: for addresses without a colon, as canonical hex addresses are; with one, two contracts could share a storage key.
- CustodyLaws.FeesAreBound: assumes that one commitment hash hides one fee.
- BatchLaws.ClearExhausts: stated for distinct order ids; with repeated ids the first live order of each counts.
- Interpreter.Context.ExecuteBytecode: what calls answer and what lies below the frame's own writes are parameters.
- BftNodeObject.BftNode.AddConsensusVote: the randomness and hash fields of a certificate are not modelled.
- Custody.ProtocolCustody.ExecuteAuction: the executed path is one given gain.
- GovernanceObject.Governance.CreateProposal: validation of the proposed actions and the description fields are not modelled.
- ArbModel.EpochIsSafe: prepared paths are given; path discovery (protocol_arb.go:160-277) is not modelled.
- Delegation.SnapshotConserves: building the validator power set (consensus_bft.go:323-391) is not modelled; its powers are given.
- GovernanceModel.RunKeepsGood: execution, veto and guardian actions after the queue decision are not modelled.
- StableSwap, bridge and vault bookkeeping, liquidity scoring, networking, storage engines, HTTP, wallets, locks and goroutine scheduling.
