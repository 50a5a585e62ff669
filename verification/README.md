# Verified models of the SPV repository's core

A Dafny project that models the parts of the repository whose correctness spans many functions, and
proves what they keep on every input, run or price path. `dafny verify dfyconfig.toml` checks all of it.

* **The indexer** (`indexer/src`). `Chain` is the chain and how it may move: blocks are appended, or a
  reorganisation drops at most `CONFIRMATIONS` blocks, never genesis, and lands on a chain at least as
  long; timestamps increase and log keys are unique. `IndexerProtocol` is the step system: every RPC
  answer, row pushed and database write is a step, and the chain may move, and the process may fail or
  crash, between any two. `Store`, `Rpc` and `Indexer` are the classes; each execution of the indexer
  object is recorded as a run of the step system. `Api` and `NetFlow` are the query layer, `Balances`
  the meaning of a net flow.
* **The recursion tree** (`evm/noir/build-recursion-tree.py`). `Commitment` computes a commitment as the
  host does and as the circuits do, `RecursionTree` is the builder, `TreeSoundness` what an accepted
  root means. The proof system is a parameter: an accepted proof has a satisfying witness. The hash is a
  parameter too and is not taken to be injective: binding says "the same batch, or the two trees hash
  different bytes to one commitment at this node".
* **The ABI canonicaliser** (`tools/check-client-abis.py`). `AbiText` is the code, `AbiTypes` the type
  trees with their two spellings, `AbiNorm`, `AbiDeclared` and `AbiAgreement` the agreement, which
  follows the sections "Function Selector and Argument Encoding" and "Handling tuple types" of the
  Solidity Contract ABI Specification.
* **Position accounting** (`sims/overlay_vs_yb.js`, `analysis/rover/replay.py`, `analysis/lev_sim4.py`,
  `analysis/lev_sim5.py`). The float code is modelled in reals with the square roots of prices as
  inputs; the replay is exact integer arithmetic with floors. Formulas that are products or quotients
  of several quantities are function-valued parameters (`Rules`, `Params`, `MulDiv`): the theorems rest
  on what is stated of them (`ValidRules`, `Valid`, `Floors`), and the `Shipped...IsValid` lemmas show
  that the repository's own formulas meet it.
* **The planner and the conflict resolver** (`tools/batch-plan.py`, `tools/merge-resolve.py`).

Where the code does not meet what its comments say:

* `api.ts:108-111` calls an answer `partial` when the window is not covered. The flag is in fact raised
  exactly when nothing is final or no stored row predates the cutoff (`Api.PartialExactly`). It is always
  raised on a window that is not covered; on a covered one it agrees with coverage exactly when something
  is final and a stored row predates the cutoff (`Api.PartialAgainstCoverage`), and a run of the indexer
  exists in which it does not (`Api.PartialCanBeRaisedOnACoveredWindow`).
* `overlay_vs_yb.js:144-147,234-260` treats a resize as a change of frame. It is value-neutral exactly
  when the distributed wealth is not negative and the price is below the upper bound of the range or
  nothing goes in range (`OverlayLedger.NeutralResize`), and a walk is self-financing at every move exactly
  when every resize on it is (`OverlayLedger.ConservesExactly`). The simulation's own formulas have price
  paths on which wealth is lost (`OverlayLeaks.ThrottleAtTheBoundLoses`) and on which it is created
  (`OverlayLeaks.RepackBelowCreates`).
* `batch-plan.py:183-189` calls the greedy cover near-optimal. With distinct tags it is optimal. With a
  repeated tag an item can be dropped without being covered (`BatchPlan.SharedTagIsLost`).
* `merge-resolve.py` can be run again on its output. That changes nothing if no kept side has a line that
  opens a hunk (`MergeResolve.ResolveTwice`); otherwise that line can be lost
  (`MergeResolve.SecondPassLosesALine`). The condition is sufficient and not necessary: a kept side that
  opens a hunk may happen to spell, with the lines after it, a hunk that is written back as it is. What is
  left as it is, exactly, is a file all of whose hunks are undecided and spelled with the output's own
  markers (`MergeResolve.UnchangedExactly`).

## Model

| member | source | states |
|---|---|---|
| Chain.Final | indexer/src/indexer.ts:213-213 | the block the indexer treats as final exists on the chain |
| Chain.FinalIsStable | indexer/README.md:113-122 | however the chain moves within the assumed depth, a final block and everything below it stay the same, and the final height does not drop |
| Passes.LogsInExact | indexer/src/indexer.ts:136-174 | one filtered call returns exactly the matching logs of its block range |
| Passes.PassListExact | indexer/src/indexer.ts:87-96 | which passes are made: two per set token when there is a protocol address, two for the channels |
| Passes.PassesCoverWatched | indexer/src/indexer.ts:136-174 | the passes together return a log if and only if it is one that is to be indexed |
| Scan.CanonicalUnique | indexer/src/db.ts:81-81 | a stored row is the row of the one log its key names |
| Scan.ScannedExact | indexer/src/indexer.ts:107-179 | a scan stores every watched log of its range and nothing else |
| Scan.ExactIsScanned | indexer/src/indexer.ts:107-179 | a table is the result of a scan if and only if it holds exactly the watched logs of the range |
| Scan.ScannedStable | indexer/src/indexer.ts:107-179 | a scan depends only on the blocks it covers |
| Scan.RescanIsIdempotent | indexer/src/db.ts:96-113 | upserting an overlapping scan gives the scan of the joined range |
| IndexerProtocol.BufferIsScanned | indexer/src/indexer.ts:107-178 | when every pass has been drained, the buffered rows are the scan of the chunk, although the chain moved between the calls |
| IndexerProtocol.UpsertedExact | indexer/src/db.ts:140-146 | a batch upsert is a merge that keeps the last row of each key |
| IndexerProtocol.MoveKeepsInv | indexer/README.md:113-122 | appending blocks or a bounded reorganisation keeps the invariant, in the middle of a scan too |
| IndexerProtocol.BackfillKeepsInv | indexer/src/indexer.ts:210-228 | learning the head in a backfill keeps the invariant, also when the final head is short of the start block and becomes the cursor |
| IndexerProtocol.PollKeepsInv | indexer/src/indexer.ts:238-250 | learning the head in a poll keeps the invariant, with or without a cursor |
| IndexerProtocol.FetchKeepsInv | indexer/src/indexer.ts:136-170 | an answered pass keeps the invariant: what is queued is on the chain and nothing already seen is lost |
| IndexerProtocol.PushKeepsInv | indexer/src/indexer.ts:77-134 | turning a queued log into a row keeps the invariant, including the timestamp cache |
| IndexerProtocol.CommitKeepsInv | indexer/src/indexer.ts:177-178 | committing a chunk keeps the invariant and adds exactly the chunk's scan |
| IndexerProtocol.CursorKeepsInv | indexer/src/indexer.ts:229-232 | writing the cursor after a commit keeps the invariant |
| IndexerProtocol.RunInv | indexer/src/indexer.ts:77-258 | every state of every run, under any interleaving of chain moves, failures, crashes and indexer steps, satisfies the invariant |
| IndexerProtocol.ReachableStore | indexer/src/indexer.ts:77-258 | in every reachable state each row is a watched log of the current canonical chain, each watched log from START_BLOCK to the cursor is stored, and each cached timestamp is the canonical one |
| IndexerProtocol.Finishes | indexer/src/indexer.ts:210-258 | from any state of any run that is in the middle of a span, the indexer left alone reaches the end of the span and writes it as the cursor |
| IndexerProtocol.BackfillCompletes | indexer/src/indexer.ts:210-235 | on any chain there is a run from an empty database that ends with the scan from START_BLOCK to the final block |
| IndexerProtocol.RunLosesNothing | indexer/src/indexer.ts:77-258 | over any run the cursor never decreases and no stored row is changed or dropped |
| Indexer.ChunksPartition | indexer/src/indexer.ts:226-233 | for every chunk size of at least one the chunk ranges are consecutive, non-empty, within the size, and cover the span |
| Indexer.ChunkingIsInvisible | indexer/src/indexer.ts:226-255 | storing the chunks one after another is storing one scan of the whole span |
| Indexer.Indexer.constructor | indexer/src/indexer.ts:51-56 | a fresh object over a surviving database continues the run as a restart |
| Indexer.Indexer.Call | indexer/src/indexer.ts:60-75 | a retried call lets the chain move and is recorded as steps of the run |
| Indexer.Indexer.PushLog | indexer/src/indexer.ts:113-134 | one log becomes one buffered row with its canonical timestamp, or the call failed |
| Indexer.Indexer.RunPass | indexer/src/indexer.ts:137-150 | one pass: fetch, then push every returned log |
| Indexer.Indexer.IndexRange | indexer/src/indexer.ts:107-179 | a chunk that succeeds adds exactly its scan of the canonical chain; one that fails adds nothing |
| Indexer.Indexer.ScanSpan | indexer/src/indexer.ts:226-255 | after the chunk loop, aborted or not, the table has gained exactly the scan from the start to the cursor |
| Indexer.Indexer.Backfill | indexer/src/indexer.ts:210-235 | a backfill leaves the rows and cursor of one unchunked scan up to where it got, and reaches the final head when it succeeds |
| Indexer.Indexer.Poll | indexer/src/indexer.ts:238-258 | the same for a poll, which also bounds the timestamp cache |
| Rpc.Node.CallWithRetry | indexer/src/indexer.ts:60-75 | the call succeeds if and only if one of five attempts gets through, and stops at the first that does |
| Rpc.EvolvesTransitively | indexer/README.md:113-122 | several chain moves in a row are one move |
| Store.Db.UpsertEvents | indexer/src/db.ts:140-146 | the table becomes the old one with the batch merged over it; the cursor stays |
| Store.Db.GetCursor | indexer/src/db.ts:154-157 | the stored cursor, or none |
| Store.Db.SetCursor | indexer/src/db.ts:159-161 | the cursor is replaced and the rows stay |
| Store.Db.Window | indexer/src/db.ts:121-132 | a window query lists each selected row of the block window once |
| Store.Db.LowestBlock | indexer/src/db.ts:133-136 | the least block number among the rows at or after a time, none if there is no such row |
| NetFlow.SumSeqIsSumSet | indexer/src/api.ts:56-63 | the sums do not depend on the order a query returns its rows in |
| NetFlow.WindowSum | indexer/src/api.ts:53-93 | inside the covered range the stored rows of a window sum to the chain's own flow over it |
| NetFlow.FlowsAddUp | indexer/src/api.ts:53-93 | flows over adjacent windows add up |
| NetFlow.FlowSinceIsWindow | indexer/src/api.ts:112-138 | when the window start separates blocks by the cutoff as far as watched logs can tell, the window carries the flow since the cutoff |
| Api.PartialExactly | indexer/src/api.ts:125-131 | the flag is raised if and only if nothing is final or no stored row predates the cutoff |
| Api.CompleteWindowIsExact | indexer/src/api.ts:112-138 | an unflagged answer is the flow of exactly the watched logs of the canonical chain at or below the cursor and at or after the cutoff |
| Api.EveryRunAnswersExactly | indexer/src/api.ts:112-138 | the same in every state of every run, also between a row commit and the cursor write |
| Api.PartialAgainstCoverage | indexer/src/api.ts:108-131 | the flag is raised on every window that is not covered, and agrees with coverage if and only if the window is not covered, or something is final and a stored row predates the cutoff |
| Api.PartialCanBeRaisedOnACoveredWindow | indexer/src/api.ts:125-131 | a run of the indexer ends in a state in which the window is covered and the flag is raised all the same |
| Api.FoldTransfers | indexer/src/api.ts:56-63 | the two maps hold each token's in and out sums |
| Api.FoldChannels | indexer/src/api.ts:85-92 | the sats opened and closed |
| Api.ComputeNetFlow | indexer/src/api.ts:40-106 | every reported sum is the sum over the rows of the window |
| Api.SumsReportChain | indexer/src/api.ts:40-106 | on an unflagged window every reported sum is the chain's flow since the cutoff |
| Api.HandleFlow | indexer/src/api.ts:156-162 | the endpoint end to end: exact when unflagged, and flagged exactly when stated |
| Balances.NetFlowIsBalanceChange | indexer/src/api.ts:53-63 | replaying transfers from any balances, in minus out of a token over any span is the change of the protocol set's total |
| Balances.InternalTransfersCancel | indexer/src/indexer.ts:138-149 | a transfer between protocol addresses is returned by both passes, its row and no other is stored under its key, and it weighs the same in and out |
| Balances.ReportedNetIsBalanceChange | indexer/src/api.ts:53-82 | the net of an unflagged answer is the change of the protocol's balance over the reported blocks |
| Bytes.DecodeEncode | evm/noir/build-recursion-tree.py:116-118 | reading a number's big-endian bytes gives it back |
| Bytes.EncodeDecode | evm/noir/build-recursion-tree.py:116-118 | writing the number read from bytes gives the bytes back, and it fits |
| Bytes.FieldsOfEncode | evm/noir/build-recursion-tree.py:116-118 | `fields_of` inverts 32-byte encoding |
| Bytes.EncodeFieldsOf | evm/noir/build-recursion-tree.py:116-118 | re-encoding what `fields_of` read gives the file back if and only if it is a whole number of words |
| Bytes.EncodeInjective | evm/noir/build-recursion-tree.py:339-342 | different word lists have different payloads |
| Commitment.LeafBytes | evm/noir/build-recursion-tree.py:156-164 | the circuit's byte buffer is the host's concatenation of the sixteen signals |
| Commitment.NodeBytes | evm/noir/build-recursion-tree.py:196-202 | the circuit's byte buffer is the host's concatenation of two commitments |
| Commitment.Horner | evm/noir/build-recursion-tree.py:166-169 | the field accumulation is the big-endian digest modulo the field |
| Commitment.LeafCheck | evm/noir/build-recursion-tree.py:145-171 | the leaf circuit accepts a commitment if and only if it is the host's |
| Commitment.NodeCheck | evm/noir/build-recursion-tree.py:185-209 | the node circuit accepts a commitment if and only if it is the host's |
| RecursionTree.PaddedIsLeast | evm/noir/build-recursion-tree.py:264-264 | the padded size is the least power of two at or above the request |
| RecursionTree.DepthOfPow2 | evm/noir/build-recursion-tree.py:319-319 | the depth is the exponent of the padded size |
| RecursionTree.FoldOnce | evm/noir/build-recursion-tree.py:336-360 | folding one level of pairs does not change the recursively defined root |
| RecursionTree.FoldLeaves | evm/noir/build-recursion-tree.py:336-340 | nor does folding the withdrawals into leaf commitments |
| RecursionTree.FoldLevel | evm/noir/build-recursion-tree.py:335-358 | the pair loop yields exactly the commitments of the level above, half as many |
| RecursionTree.FoldTree | evm/noir/build-recursion-tree.py:317-365 | the level loop ends with one node, the recursively defined root, after log2(n) levels and n - 1 proofs, under the key that pins every level below |
| RecursionTree.DistinctBySize | evm/noir/build-recursion-tree.py:313-315 | counting the set of signals decides distinctness |
| RecursionTree.CheckBatch | evm/noir/build-recursion-tree.py:277-315 | which exit a bad batch takes: the missing indices, gaps in the numbering included, or the first of the wrong shape, or a repeat; none is taken only by a full batch of distinct members of the right shape |
| RecursionTree.Build | evm/noir/build-recursion-tree.py:254-365 | the whole run from numbered witness files: the refusal the padded batch deserves, or its tree |
| TreeSoundness.AcceptedRootIsABatch | evm/noir/build-recursion-tree.py:132-210 | at every depth an accepted root proof comes with 2^d withdrawals accepted under the pinned key whose signals, in order, hash to it |
| TreeSoundness.BatchHasARootProof | evm/noir/build-recursion-tree.py:320-360 | conversely any 2^d accepted withdrawals have an accepted proof of their root |
| TreeSoundness.RootBinds | evm/noir/build-recursion-tree.py:132-210 | two equal-size batches with the same root are equal, or at one and the same node their trees hash different payloads to one commitment |
| TreeSoundness.SettlementIsUnique | evm/noir/build-recursion-tree.py:132-210 | two accepted proofs of one root each open to an accepted batch with that root, and the batches are equal or their trees collide at a node |
| AbiText.SplitArgs | tools/check-client-abis.py:18-35 | the depth-counting loop splits at top-level commas only |
| AbiText.ClosingParen | tools/check-client-abis.py:44-50 | the scan finds where the opening group closes, if it does |
| AbiDeclared.SplitJoins | tools/check-client-abis.py:18-35 | splitting a joined list of declared arguments gives the arguments back, however they nest |
| AbiDeclared.TypeOfSpelled | tools/check-client-abis.py:37-65 | `type_of` of a declared argument is its type's text, names and white space dropped, structs expanded |
| AbiNorm.NormIsCanonical | tools/check-client-abis.py:67-72 | normalising a type's text renames `uint` and `int` in it and nothing else |
| AbiNorm.CanonicalTwice | tools/check-client-abis.py:67-72 | the canonical form is its own canonical form |
| AbiNorm.ArtifactIsCanonical | tools/check-client-abis.py:74-91 | `ty` of a compiled type tree is the text of its canonical type |
| AbiNorm.ArtifactRoute | tools/check-client-abis.py:93-94 | normalising that text changes nothing |
| AbiAgreement.RoutesAgree | tools/check-client-abis.py:37-94 | for every argument both routes give one string, the canonical text of its type |
| AbiAgreement.SignaturesAgree | tools/check-client-abis.py:18-94 | so do the whole signatures |
| AbiAgreement.MatchMeansSameTypes | tools/check-client-abis.py:18-94 | a declared signature matches a compiled one if and only if the name and the canonical argument types are the same |
| OverlayRules.UnitEthSign | sims/overlay_vs_yb.js:115-127 | the ETH leg is never negative and vanishes exactly at or above the upper bound |
| OverlayRules.FeeNonNeg | sims/overlay_vs_yb.js:211-221 | fees on a sound position are not negative |
| OverlayRules.ThrottleIsAFraction | sims/overlay_vs_yb.js:239-244 | theta stays in [0, 1] |
| OverlayRules.ShippedIsValid | sims/overlay_vs_yb.js:100-127 | the simulation's formulas meet everything the walk's theorems assume |
| OverlayLedger.RepricedLedger | sims/overlay_vs_yb.js:198-204 | re-pricing changes wealth by the ETH held times the price move |
| OverlayLedger.NeutralResize | sims/overlay_vs_yb.js:245-260 | a repack or throttle is value-neutral if and only if distributed wealth is not negative and the price is below the upper bound or nothing goes in range; a repack always is below it |
| OverlayLeaks.ThrottleAtTheBoundLoses | sims/overlay_vs_yb.js:189-260 | a price path of the simulation, for every throttle constant k and variance v with k v >= 1, on which a throttle at the upper bound loses wealth |
| OverlayLeaks.RepackBelowCreates | sims/overlay_vs_yb.js:189-260 | a price path, for every k and variance, on which a repack far below the range creates 1.25 |
| OverlayLedger.ResizedLedger | sims/overlay_vs_yb.js:247-260 | a resize changes nothing but that leak and books nothing |
| OverlayLedger.HedgedLedger | sims/overlay_vs_yb.js:276-294 | reseat and rebalance cost exactly the gas and slippage they book |
| OverlayLedger.StepLedger | sims/overlay_vs_yb.js:189-295 | one move that does not liquidate changes wealth, net of the books, by the ETH held times the price move plus the leak of its resize |
| OverlayLedger.WalkLedger | sims/overlay_vs_yb.js:189-295 | on every path without a liquidation, final wealth is the deposit plus held ETH times price moves plus fees and staking minus carry, gas and slippage, plus the leaks |
| OverlayLedger.ConservesStep | sims/overlay_vs_yb.js:189-295 | while nothing has leaked, a move keeps wealth equal to the deposit plus held ETH times price moves plus the books if and only if its resize is neutral |
| OverlayLedger.ConservesExactly | sims/overlay_vs_yb.js:189-295 | so a walk does at every move if and only if every resize on it has distributed wealth that is not negative and a price below the upper bound, or nothing in range |
| OverlayBounds.WalkSane | sims/overlay_vs_yb.js:163-295 | on every path theta is in [0, 1] and depth, fee average, buffer, debt and entry equity are not negative |
| OverlayBounds.HedgedTwoX | sims/overlay_vs_yb.js:267-294 | constant-2x debt is below 0.86 of collateral after a step and below 0.78125 of it right after a rebalance |
| OverlayBounds.TwoXStaysHealthy | sims/overlay_vs_yb.js:189-295 | so it is along every unliquidated walk |
| OverlayBounds.HedgedOverlay | sims/overlay_vs_yb.js:279-292 | an overlay rebalance on a step that re-bases its entry equity leaves debt over collateral at exactly t / (1 + t), at most 3/7 |
| OverlayLvr.LvrClosedForm | sims/overlay_vs_yb.js:198-201 | the loss of a step in closed form, inside, entering, leaving or jumping over the band |
| OverlayLvr.LvrInside | sims/overlay_vs_yb.js:198-201 | inside the band it is L (s1 - s0)^2 / s0 |
| OverlayLvr.LvrSign | sims/overlay_vs_yb.js:198-201 | it is never negative, and positive exactly when there is depth and the clamped price moved |
| OverlayLvr.LvrGrows | sims/overlay_vs_yb.js:187-203 | the running total never decreases along any path |
| OverlayWalk.Walk | sims/overlay_vs_yb.js:148-295 | the loop ends, on every path, within the walk-wide bounds, with wealth accounted for by the ledger and a running loss that is the total of its moves and not negative |
| OverlayShipped.ShippedWalk | sims/overlay_vs_yb.js:100-295 | the walk-wide bounds and the ledger for the simulation's own formulas |
| Replay.MulDivFloors | analysis/rover/replay.py:20-33 | the replay's integer quotient is within one below the exact one |
| Replay.AmountsAreShares | analysis/rover/replay.py:20-23 | in all three price regions the amounts are floored shares of the exact per-unit amounts |
| Replay.ValueBracketed | analysis/rover/replay.py:20-33 | a position's integer value is at most its exact worth and at least that less 2 + r |
| Replay.RecentreBound | analysis/rover/replay.py:30-47 | re-depositing V and reading it back gives at most V + V (2 + r) / per and at least V - (c0 + c1 r) - r - 2, and nothing when the unit is worthless |
| Replay.ReplayPreserves | analysis/rover/replay.py:20-47 | that bound for the integer arithmetic the replay computes with |
| ReplayRun.RangeInForce | analysis/rover/replay.py:41-48 | whatever the prices, the range in force is that of the last multiple of the cadence |
| ReplayRun.FeesAreInRangeDays | analysis/rover/replay.py:40-43 | fees are credited for exactly the days inside the range in force, once each |
| ReplayRun.EveryRecentreBounded | analysis/rover/replay.py:41-48 | the re-centring bound holds on every multiple of the cadence of any run, and other days leave the position alone |
| ReplayRun.Loop | analysis/rover/replay.py:40-48 | the loop over a window, with its fees and in-range days in closed form |
| ReplayRun.Run | analysis/rover/replay.py:35-54 | what a window reports, with fees and in-range days in closed form |
| Leverage.DeleverBounds | analysis/lev_sim4.py:31-31 | a delever closes between nothing and everything |
| Leverage.OpenBounds | analysis/lev_sim4.py:32-32 | an open is positive and never passes the target |
| Leverage.DebtFractionBounds | analysis/lev_sim4.py:20-20 | the debt fraction is in [0, 1) and times the leverage it is the leverage less one |
| LevSim4.MovedAccounts | analysis/lev_sim4.py:28-32 | a day opens, delevers or liquidates, never more than is open, and accounts for the change |
| LevSim4.StepFunded | analysis/lev_sim4.py:26-54 | one day keeps the self-funding identity |
| LevSim4.SelfFunding | analysis/lev_sim4.py:26-54 | on every price path the pool is its initial balance plus the debt part of the open notional, nothing is short, `brick`, `sqz` and `req` stay 0, the pool's minimum is its initial balance, and cover is at least 1 |
| LevSim4.PostedNet | analysis/lev_sim4.py:45-55 | posting a day changes its year's net and the total by the day's net and no other year's |
| LevSim4.BooksBalance | analysis/lev_sim4.py:45-57 | each year's net is the sum of its days' earnings and the total the sum of all days' |
| LevSim4.ShippedIsValid | analysis/lev_sim4.py:17-25 | the simulation's own terms satisfy what the theorems assume |
| LevSim4.ShippedFundsItself | analysis/lev_sim4.py:17-54 | the identity for every call with leverage of at least one and an initial pool that is not negative |
| LevSim4.Run | analysis/lev_sim4.py:17-57 | a run ends self-funded and its net is what its days earned |
| LevSim5.Alive | analysis/lev_sim5.py:15-25 | alive on a day if and only if every breach up to it has been followed by a new high |
| LevSim5.ReserveBounds | analysis/lev_sim5.py:27-44 | on every path, alive sequence and drain, 0 <= reserve <= peak debt <= debt of the target |
| LevSim5.LeastReserve | analysis/lev_sim5.py:39-42 | a reserve covers every day's delevering if and only if it is at least the reported one |
| LevSim5.NoDrainNoReserve | analysis/lev_sim5.py:27-44 | with no drain the pool is always the debt of what is open and the reserve is 0 |
| LevSim5.FullDrain | analysis/lev_sim5.py:27-44 | with a full drain the reserve is the worst single day's need |
| LevSim5.ReserveMonotone | analysis/lev_sim5.py:27-44 | a harder drain never needs a smaller reserve, and leaves notional and peak debt alone |
| LevSim5.ShippedIsValid | analysis/lev_sim5.py:27-37 | for every drain in [0, 1] the simulation's terms are valid, and the debt of the target is E (L - 1) |
| LevSim5.ShippedDrainsMore | analysis/lev_sim5.py:37-37 | a larger drain intensity is a harder drain |
| LevSim5.ShippedReserve | analysis/lev_sim5.py:27-44 | for every call and drains ext <= ext' in [0, 1]: 0 <= reserve(ext) <= reserve(ext') <= peak debt <= E (L - 1), 0 at ext = 0 and the worst day's need at ext' = 1 |
| LevSim5.Trace | analysis/lev_sim5.py:27-44 | the loop reports the least sufficient reserve, within the debt |
| BatchPlan.BySuitesSorts | tools/batch-plan.py:174-174 | sorting by suites is a descending permutation |
| BatchPlan.GreedySound | tools/batch-plan.py:190-199 | for every list, tags repeated or not: every item's tag is taken, members' suites are in their leader's, and no later leader is contained in an earlier one |
| BatchPlan.LeadersIncomparable | tools/batch-plan.py:190-199 | no leader's suites are contained in another's |
| BatchPlan.EveryItemRunsOnce | tools/batch-plan.py:190-199 | with distinct tags each item is in exactly one run |
| BatchPlan.GreedyCovers | tools/batch-plan.py:190-199 | and its suites are contained in that of some leader |
| BatchPlan.GreedyIsOptimal | tools/batch-plan.py:183-199 | no choice of leaders among the items that contains every item's suites has fewer runs |
| BatchPlan.SharedTagIsLost | tools/batch-plan.py:190-199 | for any list with a repeated tag, suites for which an item is covered by no run |
| BatchPlan.SafeExactly | tools/batch-plan.py:190-199 | a gate's tags guarantee that every item is covered, whatever suites it touches, if and only if they are distinct |
| BatchPlan.PlanGate | tools/batch-plan.py:167-201 | the loop of one gate: the plan, its run count with the cargo run, and each buildable item once |
| MergeText.JoinSplit | tools/merge-resolve.py:105-105 | splitting a text into lines loses nothing |
| MergeText.SplitJoin | tools/merge-resolve.py:131-131 | nor does joining lines |
| MergeText.NormIsWords | tools/merge-resolve.py:48-49 | `norm` is the words of a text, one space apart |
| MergeText.CommentGoes | tools/merge-resolve.py:45-59 | a line comment or closed block comment after slash-free text vanishes and the rest is treated alike |
| MergeParse.ParseExactly | tools/merge-resolve.py:67-86 | the parser returns a list of items if and only if the lines spell it, hunks that break off included |
| MergeParse.ReadWritten | tools/merge-resolve.py:67-86 | items written out are read back if and only if they can be told apart |
| MergeParse.SplitHunks | tools/merge-resolve.py:67-86 | the index-driven loop |
| MergeParse.Side | tools/merge-resolve.py:76-84 | one side's loop stops at the first marker or the end |
| MergeResolve.DecideExactly | tools/merge-resolve.py:89-101 | a side is discarded only if the base has it, an empty side is resolved by asking the base, and a hunk is left if and only if ours is new and theirs is empty or new |
| MergeResolve.OutputIsWritten | tools/merge-resolve.py:109-131 | the output is the kept lines and undecided hunks, written out in order |
| MergeResolve.NewWorkSurvives | tools/merge-resolve.py:104-131 | over a whole file, a hunk side the base does not have stands whole in the output |
| MergeResolve.PlainLinesSurvive | tools/merge-resolve.py:112-115 | every line outside a hunk is in the output, in order |
| MergeResolve.TallyBalances | tools/merge-resolve.py:110-130 | every hunk is counted once, and the unresolved ones are those left in the output |
| MergeResolve.ReparseExactly | tools/merge-resolve.py:104-131 | the output is read back as what was kept if and only if no kept side has a line that opens a hunk |
| MergeResolve.ResolveTwice | tools/merge-resolve.py:104-131 | then resolving the output text again with the same base and label changes nothing and resolves nothing |
| MergeResolve.UnchangedExactly | tools/merge-resolve.py:104-131 | a file is left as it is if and only if every hunk is undecided and spelled with the markers the output uses |
| MergeResolve.KeptMarkerIsLost | tools/merge-resolve.py:104-131 | a kept line that opens a hunk is written by the first pass and read by the second as an empty hunk that loses it, with the counts of both passes |
| MergeResolve.SecondPassLosesALine | tools/merge-resolve.py:45-131 | for the resolver on texts: any line that opens a hunk and is new to the base is lost by the second pass |
| MergeResolve.ASecondPassCanLoseALine | tools/merge-resolve.py:45-131 | a text and a base for which that happens |
| MergeResolve.ResolveItems | tools/merge-resolve.py:112-130 | the loop over a file's items, with its counts balanced and plain lines kept |
| MergeResolve.Resolve | tools/merge-resolve.py:104-131 | the resolver on a text; it refuses exactly when the path has no base version |

## Left out

- HTTP serving, CORS, JSON-RPC transport, back-off timing, timers, logging and the SQLite engine: the database is a map and a cursor, a node's answers are an endless input tape, the clock is a parameter.
- Decoding of event data and topics, lower-casing of addresses, and the stored `decimals` column: logs are decoded records with lower-case addresses.
- Scaling of sums to floating-point token units: the sums are the integers before scaling.
- Negative `START_BLOCK` or `CONFIRMATIONS`, and a chunk size below one (the chunk loop would not advance).
- `deleteRange`: nothing calls it.
- Running `nargo`, `bb` and `cast`, and writing fixtures and Solidity text: external tools; the hash and the proof system are parameters.
- The `key_hash` witness of the circuits: it is part of the inner verifier.
- The return-type comparison, artifact index, regular-expression scans and ghost filtering of the ABI check; Unicode word and space characters.
- Logarithms, cube roots, rolling variance and fractional powers of the overlay simulation: the band, the variance and the reseat decision are inputs of a tick. Its HODL policy, its reporting counters and the `ethOnly` claim.
- The CSV driver of the replay, whose own `range` shadows the built-in it calls, and the float root behind a day's range: the range and the fee credit of a day are inputs.
- The surplus track (`S`, `minS`) of lev_sim4, which nothing else reads, and the console tables of both leverage simulations.
- The item and section parsing of the batch planner, its loop over gates and its printed lines; comment-only and no-build items only enter as filters.
- Unicode white space in the conflict resolver, reading the base from git, and its command line.
- Other tools, the contracts, the node, the web client and scripts: not part of this model.
- LevSim4.SelfFunding: leverage is at least one and the initial pool is not negative, because below either the debt part of a notional or the pool would be negative.
- OverlayLedger.WalkLedger: covers walks without a liquidation, because a liquidation pays an incentive that the simulation books nowhere.
- TreeSoundness.RootBinds: ends in equality or a collision of the two trees at one node instead of equality, because a hash into a fixed-size field is not injective.
