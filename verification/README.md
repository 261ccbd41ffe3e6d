# YonaCode ledger node: a verified model

The project models the deterministic core of a proof-of-work ledger node and proves what its
parts promise each other:

* **Money.** The emission schedule and its closed-form supply (`Emission`, `FloorSum`,
  `FloorSumValues`, `EmissionTable`); the block executor with its write-back cache, conservation gate and
  six-block maturity (`Ledger`, `LedgerNode`, `LedgerMoney`, `LedgerRuns`, `LedgerGate`,
  `LedgerHistory`, `LedgerNonces`); the block template (`LedgerTemplate`).
* **Chains.** The LWMA and ASERT difficulty rules (`Difficulty`, `Asert`); header evaluation
  with sliding windows against a reference that reloads them (`HeaderChain`,
  `HeaderEvaluation`, `HeaderWindows`, `HeaderHash`); fork choice and finality over runs (`ForkChoice`).
* **The pool of transactions.** Six maps kept in step by a class (`Mempool`, `MempoolStale`,
  `MempoolEviction`, `MempoolNode`) and the priority merge that fills a block (`Packing`,
  `PackingNode`), what its priorities say about fees and which fees get in (`PackingFees`,
  `Admission`).
* **Bytes and work.** Varints, message slicers and builders, the TXSQ batch (`Varint`, `Wire`,
  `WireBuild`, `Batch`, `Endian`); the Yona hash (`Words`, `Yona`, `YonaHash`); nonce search,
  the pool's share check and the packed header (`PowSearch`).
* **Meanings.** What the shared definitions say, in the terms of the transaction, the header or
  the byte, without naming them again: `LedgerRules` and `LedgerDryRun` for accepted blocks and
  templates, `DifficultyFormula` and `AsertMeaning` for retargets, `HeaderRules` and `ForkRules`
  for verdicts, `MempoolEffects`, `PackingFull` and `AdmissionRules` for the pool, `Formats`,
  `YonaSpec` and `PowMeaning` for bytes and work.
* **Concurrency.** The parallel signature check as a state machine over atomic steps
  (`SigCheck`).

`Machine`, `Arith`, `Sequences` and `Wrappers` hold machine integers, facts about floors,
reversal and sums of sequences, and option types. `dafny verify dfyconfig.toml` checks everything.

## Assumptions

* U256 is a natural number below 2^256, `u64` one below 2^64; saturation, wrap-around and
  truncation are written out where the code has them.
* Signing hash, Ed25519, header hash, BLAKE3 key derivation and the state-tree root are
  parameters. The root is one function of the written accounts in both modes. Where needed,
  stored header hashes are not all zero, and candidate and stored headers do not collide.
  `HeaderHash` instantiates the header hash and work check with the node's own.
* The header database holds a complete, hash-linked chain whose weights are parent weight plus
  difficulty; clock readings are parameters.
* Sorting, the binary heap and map iteration are library behaviour: the model lets a heap pop
  return any element no other beats, and iterates maps and parallel ranges in any order.

## Where the code does less than its comments say

* The conservation gate is described as a law of conservation. It compares saturating
  counters, so it passes also for a block with a coinbase fee once the volume reaches 2^64 - 1
  (`LedgerRuns.GateExact`); `LedgerGate.GateIsBlind` reaches such a block from the empty ledger,
  encoded in less than the 36 MiB a node reads of a block response.
* A template is promised to be a valid block. It is one if and only if the miner address has 32
  bytes or no candidate is acceptable in the state at hand (`LedgerTemplate.TemplateValidIff`).
* ASERT is monotone for all practical anchors but not between 2^256 / 126701 and 2^240
  (`Asert.AsertMonotoneIff`).
* The mempool keeps a refused transaction in `pendingTxs`, so pending and queued hashes coincide
  exactly when no refused hash is left (`MempoolEviction.RunStrands`, `RefusalHappens`).
* The block packer compares fees as doubles. It packs by the best fee exactly for fees up to 2^53
  (`PackingFees.HeapByFeeIff`, `MergesByFeeIff`). The validator lets no larger fee in on a ledger
  without coinbase fees (`PackingFees.AdmittedFeesAreSmall`). The exchange endpoint
  (6_user_interface/rpc_server.go:4039-4048) re-admits transactions the validator refused for a
  nonce gap, a verdict given before the balance check. There its own 64-bit running total has to
  hold the bound: it does for batches whose exact cost fits in 64 bits (`Admission.AffordableIff`),
  and beyond that any fee passes (`Admission.WrappedCostPasses`), those of the failing pool
  included (`PackingFees.BlurredPoolEnters`).
* A worker difficulty of 2^63 or more turns the pool's share target negative
  (`PowSearch.NetworkBlockIsShare`).
* TXSQ writes count and lengths as 32-bit numbers (`Batch.BatchRoundTrip`).

## Model

| member | source | states |
|---|---|---|
| Emission.RewardPositiveUntilEnd | 11_light_mining/miner_engine.go:480-548 | A block pays something exactly up to height 105694901 |
| FloorSum.Reciprocity | 0_shared_lib/src/reward_logic.rs:249-273 | Lattice reciprocity: the sum of floor((a i + b) / m) for a, b < m is n·y minus the floor sum with slope and modulus exchanged, counted row by row |
| FloorSum.FastFloorSum | 0_shared_lib/src/reward_logic.rs:249-273 | The logarithmic floor-sum loop returns the plain sum of the floors, for every modulus, slope, offset and length |
| FloorSumValues.LadderIsSum | 0_shared_lib/src/reward_logic.rs:249-273 | A chain of reduction levels, checked level by level, adds up to the floor sum of its top level; used to evaluate the three sloped segments |
| FloorSumValues.LongTailLadder | 11_light_mining/miner_engine.go:480-548 | The exact floor sum of the last sloped segment, 102751441 blocks long and cut off before its period ends |
| Emission.ExpectedSupply | 0_shared_lib/src/reward_logic.rs:127-245 | The closed-form supply function equals the plain sum of all block rewards, for every height |
| Emission.SlopedSupply | 0_shared_lib/src/reward_logic.rs:127-245 | The part of that function after year 5: three floor sums equal the sums of the rewards |
| Emission.SupplyAtEnd | 0_shared_lib/src/reward_logic.rs:522-558 | The supply after years 6 and 7 and at the end of the schedule, to the last VNT |
| Emission.SupplyGrows | 0_shared_lib/src/reward_logic.rs:492-520 | The supply never falls and grows strictly up to the end of the schedule |
| Emission.SupplyCap | 11_light_mining/miner_engine.go:480-548 | For every height the sum of all rewards is at most 2·10^15 VNT, with equality exactly from height 105694901 on |
| EmissionTable.RewardTable | 0_shared_lib/src/reward_logic.rs:42-113 | The reward of every block in plain numbers: eight flat stretches, and on each of the three slopes the largest loss whose product with the length does not exceed the decline times the offset |
| EmissionTable.SlopesDecline | 0_shared_lib/src/reward_logic.rs:70-109 | From height 2102500 to the last block but one no block pays more than the one before it, across both joints of the slopes |
| EmissionTable.SupplyMilestones | 0_shared_lib/src/reward_logic.rs:127-245 | The supply as a number at each of thirteen heights where the rule changes, from 10^12 at the first block over 312500009344000 at 841059 to 2·10^15 at 105694901 |
| LedgerNode.Prefetch | 0_shared_lib/src/lib.rs:848-885 | Loads exactly the miner and every well-formed sender and receiver, each as the database shows it, so the cache shows what the database shows |
| LedgerNode.LoadRecentHashes | 0_shared_lib/src/lib.rs:904-912 | The loop over the last 100 heights collects exactly the stored hashes of that window |
| LedgerNode.JudgeFromCache | 0_shared_lib/src/lib.rs:937-1116 | The verdict read off the write-back cache is the verdict on the state as earlier transactions left it |
| LedgerNode.ApplyToCache | 0_shared_lib/src/lib.rs:1104-1155 | The cache writes of one transaction show the same accounts as its effect on the state |
| LedgerNode.FinishFromCache | 0_shared_lib/src/lib.rs:1192-1304 | Reward scheduling, conservation gate and payout from the cache give the block result of the specification |
| LedgerNode.StateManager.ExecuteBlockInternal | 0_shared_lib/src/lib.rs:759-1372 | The cached loop of both modes returns exactly the block function, errors and failing index included |
| LedgerNode.StateManager.ExecuteBlockTransactions | 0_shared_lib/src/lib.rs:727-757 | A real run commits writes, version and the closed-form supply; a dry or failed run changes nothing |
| LedgerNode.StateManager.AcceptBlock | 0_shared_lib/src/lib.rs:681-723 | Accepting a block moves the state to the committed execution and records its hash, or leaves it untouched; accepted means the stored parent is named and every transfer after the first transaction carries a 64-byte signature its sender verifies |
| LedgerRules.ExecutedIff | 0_shared_lib/src/lib.rs:937-1127 | A transaction is executed if and only if it meets the written-out conditions: address lengths, verified 64-byte signature (real mode), one of the last 100 block hashes from height 15 on, the nonce, one of three fees, and a balance of amount, fee and wallet fee |
| LedgerRules.RefusalNamesFirstFailure | 0_shared_lib/src/lib.rs:937-1116 | A refusal gives the reason of the first of twelve checks that fails, in the order of the executor |
| LedgerRules.AcceptedIff | 0_shared_lib/src/lib.rs:759-1256 | A block runs for real if and only if it names the stored parent, every transaction meets the conditions on the accounts the earlier ones left, and the gate passes |
| LedgerRules.AcceptedIsSigned | 0_shared_lib/src/lib.rs:971-981 | Every transfer of an accepted block moves money between 32-byte addresses and is signed by its sender |
| LedgerRules.TransferDoes | 0_shared_lib/src/lib.rs:1104-1155 | An executed transfer takes amount, fee and wallet fee from the sender and raises its nonce, gives the receiver the amount, and changes no other account, waiting list or coin |
| LedgerRules.CoinbaseDoes | 0_shared_lib/src/lib.rs:993-1155 | An executed coinbase changes no account |
| LedgerDryRun.DryRunStep | 0_shared_lib/src/lib.rs:993-1190 | In a dry run each candidate that meets the conditions in its turn is kept and executed, and any other leaves no trace |
| LedgerDryRun.TemplateStarts | 0_shared_lib/src/lib.rs:2663-2680 | The first transaction of a template for a 32-byte miner address pays nothing, costs nothing and names the miner |
| LedgerDryRun.DryRunPassesGate | 0_shared_lib/src/lib.rs:1246-1256 | Behind a coinbase without fee a dry run passes the saturating gate whatever the candidates |
| LedgerDryRun.TemplateBuildsIff | 0_shared_lib/src/lib.rs:2635-2708 | Above genesis a template is built if and only if the parent hash is the stored one |
| LedgerDryRun.ExecutionReports | 0_shared_lib/src/lib.rs:1306-1372 | An execution reports the root of its own writes at its height, the supply of its height, and the signing hashes of what it kept, which for real is the whole block |
| LedgerTemplate.BuildTemplate | 0_shared_lib/src/lib.rs:2635-2708 | The template holds the survivors, hashes and root of the dry run of coinbase plus candidates |
| LedgerTemplate.SurvivorsReplay | 0_shared_lib/src/lib.rs:937-1190 | The survivors of a dry run, executed alone in either mode, retrace its progress step by step |
| LedgerTemplate.NothingKept | 0_shared_lib/src/lib.rs:993-1190 | A dry run keeps nothing exactly when each transaction is refused in the untouched state |
| LedgerTemplate.TemplateReplays | 0_shared_lib/src/lib.rs:2675-2697 | Template soundness: with a 32-byte miner address and valid signatures the survivors are all accepted for real with the same writes, hashes and root, and a second dry run drops nothing |
| LedgerTemplate.TemplateValidIff | 0_shared_lib/src/lib.rs:2635-2708 | The template is a valid block if and only if the miner address has 32 bytes or no transaction of the trial list is acceptable in the state it is built on: otherwise the dry run drops its own coinbase and the first survivor lands at index 0 |
| LedgerMoney.SpendIsExact | 0_shared_lib/src/lib.rs:1104-1127 | What an accepted transfer takes from its sender is amount, fee and wallet fee exactly; no saturating operation saturates |
| LedgerMoney.TransferIsExact | 0_shared_lib/src/lib.rs:1118-1155 | Debit, nonce step and credit of an accepted transfer are exact for a ledger whose total fits in 64 bits |
| LedgerMoney.TransferTotal | 0_shared_lib/src/lib.rs:1118-1190 | Executing a transfer takes exactly its fees out of the accounts, also when sender and receiver are one account |
| LedgerMoney.MatureKeepsWorth | 0_shared_lib/src/lib.rs:1285-1300 | Maturing moves rewards from waiting to spendable and leaves their sum unchanged |
| LedgerMoney.BlockInvariant | 0_shared_lib/src/lib.rs:993-1190 | After every transaction of a block: accounts plus fees are the starting total, and the clamped audit counters are the clamped exact tallies |
| LedgerRuns.GateExact | 0_shared_lib/src/lib.rs:1246-1256 | The conservation gate passes exactly when the block has no coinbase fee, or when its volume reaches 2^64 - 1 and both counters saturate |
| LedgerGate.GateIsBlind | 0_shared_lib/src/lib.rs:1246-1256 | The second case is reached from the empty ledger by a block a node can receive: after 106 empty blocks, a block with coinbase fee 1 and 185 400 to 190 000 self-transfers of 995 000 GO is accepted, the money then exceeds the rewards, and the encoded body is below the 36 MiB of 5_node_p2p/network_manager.go:1343 |
| LedgerRuns.PayoutIsExact | 0_shared_lib/src/lib.rs:1285-1300 | The end-of-block payout of every touched account is exact |
| LedgerRuns.BlockConserves | 0_shared_lib/src/lib.rs:1192-1304 | An accepted block adds at least its reward to the sum over all accounts, and exactly its reward if and only if its coinbase carries no fee |
| LedgerRuns.RunConserves | 0_shared_lib/src/lib.rs:1059-1304 | After any run of accepted blocks without coinbase fees from the empty ledger, spendable plus waiting money over all accounts is the sum of block rewards, at most 2·10^15 |
| LedgerRuns.RunNeverSaturates | 0_shared_lib/src/lib.rs:1104-1304 | In any accepted run, coinbase fees or not, no transfer cost, credit or payout of a block saturates while the money before it is below 2^64 - 1, and no reward while the money after it is |
| LedgerRuns.RunConservesIff | 0_shared_lib/src/lib.rs:1059-1304 | The supply equation holds after every block of an accepted run if and only if no coinbase carries a fee |
| LedgerRuns.VisibleVolumeMeansNoFee | 0_shared_lib/src/lib.rs:1246-1256 | In an accepted block whose volume is below 2^64 - 1 the coinbase carries no fee |
| LedgerHistory.MatureTwice | 0_shared_lib/src/state_manager.rs:1270-1301 | Maturing at an early height and again later equals maturing once at the later height |
| LedgerHistory.WaitingAfterBlock | 0_shared_lib/src/lib.rs:1192-1304 | For every accepted block, whatever the money: what is not due stays waiting, and an account the block touches is stored with nothing due left; the due rewards alone are added to its balance, as a sum that wraps at 2^64 by an addition that saturates |
| LedgerHistory.AccountAfterBlock | 0_shared_lib/src/lib.rs:1229-1304 | With less than 2^64 - 1 VNT in the ledger, a block changes an account by what it received and what fell due, minus what it spent |
| LedgerHistory.RipePays | 0_shared_lib/src/lib.rs:1285-1300 | The payout is the 64-bit wrapping sum of exactly the due rewards |
| LedgerHistory.WaitingInRun | 0_shared_lib/src/lib.rs:1229-1304 | In every accepted run, what an account shows as waiting is exactly the rewards scheduled for it that are not due at the tip |
| LedgerHistory.MaturityInRun | 0_shared_lib/src/lib.rs:1229-1304 | In every accepted run each scheduled reward has either been paid, once, or is still waiting; none was paid before its height and none waits past it |
| LedgerHistory.ScheduledSixAhead | 0_shared_lib/src/lib.rs:1229-1235 | Every reward is scheduled six blocks ahead and paid only by blocks that have reached its height (its amount is `RewardMeaning`) |
| LedgerHistory.AccountInRun | 0_shared_lib/src/lib.rs:1229-1304 | Over a run whose totals stay below 2^64 - 1, with or without coinbase fees, spendable balance is every reward scheduled at least six blocks ago, counted once, plus received minus spent; the rest is exactly the waiting list |
| LedgerHistory.StoredAfterTouch | 0_shared_lib/src/lib.rs:1277-1304 | In every accepted run, an account the last block touches is stored as it is shown and holds no reward that is due; exactly the due rewards were added to its balance, as a wrapping sum by a saturating addition |
| LedgerHistory.BalanceInRun | 0_shared_lib/src/lib.rs:1639-1651 | Over a run whose totals stay below 2^64 - 1, spendable plus waiting counts every scheduled reward, due or not |
| LedgerHistory.QueriesInRun | 0_shared_lib/src/lib.rs:1427-1443 | At the tip of such a run the two balance queries report the due rewards and all rewards respectively, the second while the money at the tip fits in 64 bits |
| LedgerNonces.NoncesInBlock | 0_shared_lib/src/lib.rs:1063-1127 | Within a block the transfers of a sender carry consecutive nonces from its account nonce on |
| LedgerNonces.NoncesInRun | 0_shared_lib/src/lib.rs:1063-1127 | Over any accepted run from the empty ledger, the k-th executed transfer of a sender carries nonce k (modulo 2^64) |
| Difficulty.CalculateNextDifficulty | 0_shared_lib/src/difficulty_logic.rs:28-88 | The LWMA loop equals the weighted-average rule with its saturations, signed gaps and clamps |
| Difficulty.WithinQuarter | 0_shared_lib/src/difficulty_logic.rs:28-88 | For every history the result is at least the minimum and within a quarter of the last difficulty unless lifted to the minimum |
| Difficulty.LongerGapsNeverRaise | 0_shared_lib/src/difficulty_logic.rs:28-88 | Pointwise longer gaps never raise the next difficulty |
| Difficulty.OnlyTheWindowMatters | 0_shared_lib/src/difficulty_logic.rs:34-60 | Older entries than 121 timestamps and 120 difficulties never change the result |
| Difficulty.FixedPointIff | 0_shared_lib/src/difficulty_logic.rs:28-88 | Constant difficulty d with 75-second gaps is a fixed point exactly when d is at least the minimum and d·544500 fits in 256 bits, or d is the largest number |
| Difficulty.GrowthBound | 0_shared_lib/src/difficulty_logic.rs:28-88 | After k retargets from a valid start the difficulty lies between (3/4)^k and (5/4)^k of it (or at the minimum) |
| DifficultyFormula.GapMeaning | 0_shared_lib/src/difficulty_logic.rs:48-53 | The gap between two block times is their signed 64-bit difference, the plain one below 2^63 |
| DifficultyFormula.WindowFormula | 0_shared_lib/src/difficulty_logic.rs:28-88 | On every full window the result is 75 times the sum of difficulty times position over the sum of gap (at least 1, at most 750) times position, then within a quarter of the last difficulty and at least 1200000000; when the product leaves 256 bits, the upper limit (`ShortHistory` for fewer entries) |
| DifficultyFormula.EvenSpacing | 0_shared_lib/src/difficulty_logic.rs:28-88 | Constant difficulty d and constant gap g give d·75/g within a quarter and above the minimum, where gaps below 1 count as 1 and above 750 as 750 |
| AsertMeaning.FactorMeaning | 0_shared_lib/src/difficulty_logic.rs:121-135 | The factor is the second-order polynomial for 2^(r/172800) in sixteen fraction bits, cut down by less than two units; the time balance it is taken at is `ScheduleMeaning` |
| AsertMeaning.AheadDoubles | 0_shared_lib/src/difficulty_logic.rs:137-153 | Each whole half-life ahead of schedule doubles the anchor exactly, up to the 256-bit limit |
| AsertMeaning.BehindHalves | 0_shared_lib/src/difficulty_logic.rs:154-172 | Each whole half-life behind schedule halves it, rounded down, not below the minimum |
| AsertMeaning.AheadBetween | 0_shared_lib/src/difficulty_logic.rs:137-153 | Between two half-lives ahead: anchor times factor, sixteen bits dropped, then the doublings, or the limit when that does not fit |
| Asert.ShiftMeaning | 0_shared_lib/src/difficulty_logic.rs:137-153 | The bit-length guard of the left shift holds exactly when the shifted value fits in 256 bits |
| Asert.AdjustedMonotone | 0_shared_lib/src/difficulty_logic.rs:92-174 | Across the zero point, every half-life boundary and the saturation the rule never falls as the time balance grows, for anchors in range |
| Asert.NotMonotoneBetween | 0_shared_lib/src/difficulty_logic.rs:92-174 | For every other anchor the last second of the first half-life gives the maximum and the next second gives less |
| Asert.AsertMonotoneIff | 0_shared_lib/src/difficulty_logic.rs:92-174 | The rule is monotone if and only if the anchor times 126701 fits in 256 bits or the anchor is at least 2^240 |
| Asert.AsertMonotone | 0_shared_lib/src/difficulty_logic.rs:92-174 | On the node's inputs, with an anchor below 2^239 and target times within 64 bits, the result never falls as target time minus actual time grows |
| HeaderEvaluation.ByHeightSorts | 0_shared_lib/src/lib.rs:185-186 | Sorting the candidate by height keeps its headers and makes heights ascend |
| HeaderEvaluation.LoadWindow | 0_shared_lib/src/lib.rs:258-274 | Loading the window from a complete chain gives the times and difficulties of the last ancestors in order |
| HeaderEvaluation.SlideWindows | 0_shared_lib/src/lib.rs:471-491 | Pushing a time and a difficulty and draining the excess keeps the last 121 and 120 entries |
| HeaderEvaluation.WindowsPush | 0_shared_lib/src/lib.rs:471-491 | Pushing a header and draining both windows keeps them equal to the last ancestors |
| HeaderEvaluation.WindowsExpect | 0_shared_lib/src/lib.rs:407-410 | The sliding windows, in both of their lengths, give the difficulty and median time that reloading the last 121 ancestors gives |
| HeaderEvaluation.MatchedBackward | 0_shared_lib/src/lib.rs:318-332 | If a linked header is stored on the main chain, so is its predecessor in the candidate |
| HeaderEvaluation.CheckMeans | 0_shared_lib/src/lib.rs:407-469 | The check of an unstored header against the windows passes exactly when the header is valid after its ancestors; the history-length guards never fire |
| HeaderEvaluation.WalkEnds | 0_shared_lib/src/lib.rs:496-548 | A completed walk compares exactly fork point, deep flag and accumulated weights of the reference judgement |
| HeaderEvaluation.EvaluateHeaderChain | 0_shared_lib/src/lib.rs:162-549 | For every candidate above height 0 whose parent is canonical, the one-pass evaluator returns the reference judgement: window reloaded per header, fork point by definition, weight as fork weight plus later difficulties, times-ten rule below finality. A candidate from height 0 is answered 0 exactly when it is a genesis chain of its own; an unknown parent is answered 2 and a damaged one 4 |
| HeaderRules.SortSorts | 0_shared_lib/src/lib.rs:453-456 | The sort behind the median keeps the times and makes them ascend |
| HeaderRules.AfterMedianIff | 0_shared_lib/src/lib.rs:446-462 | A time is after the median exactly when more than half of the last eleven block times are before it |
| HeaderRules.FitIff | 0_shared_lib/src/lib.rs:407-469 | A header that is not stored is valid exactly when it has the difficulty of the last 121 blocks, enough work, a time after more than half of the last eleven and at most 300 seconds ahead |
| HeaderRules.UnsoundIsInvalid | 0_shared_lib/src/lib.rs:294-469 | A candidate with a broken link or an unstored header that is not fit is answered 2 |
| HeaderRules.VerdictMeaning | 0_shared_lib/src/lib.rs:496-549 | A sound candidate is answered 0 at the fork exactly when its new headers carry more work, by the sums of difficulties, than the blocks above the fork; reaching down to finality, when they carry ten times as much, 1 between one and ten times and 2 below |
| HeaderRules.FromGenesisIff | 0_shared_lib/src/lib.rs:192-215 | A candidate from height 0 is a genesis chain exactly when its first header has the pinned hash, if one is pinned, and each header is linked and stored or fit after the ones before it |
| HeaderWindows.StoredHeadersArePrefix | 0_shared_lib/src/lib.rs:318-367 | The candidate headers that match the stored chain form a prefix |
| HeaderWindows.ForkPointIsLastCommon | 0_shared_lib/src/lib.rs:334-347 | The fork point of a candidate not rejected is the last common block: a header is stored exactly when its height is at most the fork point |
| HeaderWindows.CheckNewBlock | 0_shared_lib/src/lib.rs:552-680 | Block processing accepts a header on the tip exactly when it is valid after the whole chain, and reports side chains and orphans separately |
| HeaderWindows.WalkParents | 0_shared_lib/src/lib.rs:1846-1881 | Following parent hashes up to 121 times collects the same window, newest first |
| HeaderWindows.PowGate | 0_shared_lib/src/lib.rs:1800-1943 | The PoW gate on a header with a canonical parent answers success exactly when its difficulty is the expected one and its work is right; it never reports a busy database |
| HeaderWindows.MinerExpects | 6_user_interface/cli_app.go:1220-1269 | The miner's own history gives the same next difficulty as the evaluator and block processing |
| HeaderHash.NodeWork | 0_shared_lib/src/genz_pow.rs:41-77 | The work check of the header rules, on the node's own hash, compares it with the target of the header's difficulty |
| HeaderHash.PackedOnce | 0_shared_lib/src/genz_pow.rs:189-217 | Two headers of 64-bit height have the same 112 hashed bytes exactly when their packed fields agree |
| HeaderHash.HashMeaning | 0_shared_lib/src/genz_pow.rs:189-217 | The header hash is that of 112 bytes: height, parent, time, root and difficulty at fixed places, by the node hash from height 38500 on |
| HeaderHash.NoCollisionFollows | 0_shared_lib/src/lib.rs:318-322 | Headers whose hashed bytes do not collide do not collide as headers |
| HeaderHash.NodeSetting | 0_shared_lib/src/lib.rs:294-332 | The setting in which the evaluator is proved holds of the node's own hash |
| ForkChoice.AppendKeepsChain | 0_shared_lib/src/lib.rs:692-719 | A linked valid segment stored with weights computed from its parent keeps the chain linked and its weights exact |
| ForkChoice.StepKeepsChain | 0_shared_lib/src/lib.rs:552-724 | Extending the tip, adopting a judged candidate and moving finality each keep a complete hash-linked chain with exact weights |
| ForkChoice.AdoptionIsHeavier | 0_shared_lib/src/lib.rs:517-547 | A candidate judged heavier carries more work than the local segment above the fork; a deep one at least ten times as much, barring saturation |
| ForkChoice.WorkGrows | 0_shared_lib/src/lib.rs:496-549 | Tip work strictly increases whenever the tip changes |
| ForkChoice.FinalityHolds | 0_shared_lib/src/lib.rs:517-541 | A block at or below finality is displaced only by a segment of at least ten times the local work |
| ForkRules.AdoptsIff | 0_shared_lib/src/lib.rs:496-549 | A node adopts a sound candidate if and only if its new headers carry more work than the blocks they replace, or ten times as much when those reach down to finality |
| ForkRules.UnsoundIsRefused | 0_shared_lib/src/lib.rs:294-469 | Nothing unsound is ever adopted |
| ForkRules.AdoptedChain | 0_shared_lib/src/lib.rs:692-719 | After an adoption the chain is the old one up to the fork and the new headers with the weights they add up to |
| ForkRules.FinalityLags | 0_shared_lib/src/lib.rs:692-719 | After every change of tip the final height is five below the tip; a recorded one is at least that deep and only rises |
| ForkChoice.RunKeepsChain | 0_shared_lib/src/lib.rs:496-549 | Every node of a run holds a sound chain |
| ForkChoice.RunGrows | 0_shared_lib/src/lib.rs:496-549 | Over any run, tip work grows by at least one per change of tip |
| ForkChoice.RunFinality | 0_shared_lib/src/lib.rs:517-541 | Over any run, a block that stays at or below finality keeps its place unless some adoption carried ten times the work it replaced |
| Mempool.InsertSorts | 5_node_p2p/mempool.go:1232-1248 | Inserting at the found place keeps the queue strictly nonce-sorted and adds exactly this transaction and its cost |
| Mempool.AddAgrees | 5_node_p2p/mempool.go:1204-1263 | Adding keeps the maps in agreement: queues strictly sorted under their sender, `txItems` exactly the queued hashes, all of them pending |
| Mempool.AddExact | 5_node_p2p/mempool.go:1250-1251 | Adding keeps the recorded spend equal to the cost of the queue while that fits in 64 bits |
| Mempool.RemoveAgrees | 5_node_p2p/mempool.go:608-736 | Taking out one hash keeps the maps in agreement |
| Mempool.RemoveExact | 5_node_p2p/mempool.go:702-731 | Taking out one hash keeps the recorded spend equal to the cost of the queue |
| Mempool.RemoveAllIsFilter | 5_node_p2p/mempool.go:676-731 | Removing hashes one by one leaves what filtering every map and queue once leaves |
| MempoolStale.StaleQueues | 5_node_p2p/mempool.go:1070-1148 | Removing a sender's stale hashes changes its queue alone and keeps exactly the current transactions |
| MempoolStale.StaleGone | 5_node_p2p/mempool.go:1052-1166 | After stale removal a queue holds exactly its transactions from the ledger nonce on, other queues are untouched |
| MempoolEffects.AddEffect | 5_node_p2p/mempool.go:1204-1263 | A new transaction with a free nonce joins its queue in nonce order, reserves amount, fee and wallet fee on 64 bits, projects the next nonce, and changes no entry of any other sender or hash (`RefusedEffect` for the others) |
| MempoolEffects.RemoveEffect | 5_node_p2p/mempool.go:608-736 | Removing hashes takes exactly them out of the hash maps and the queues and leaves every projected nonce |
| MempoolEffects.RemoveRefunds | 5_node_p2p/mempool.go:702-731 | Removing a hash gives its cost back to its sender alone, never below zero |
| MempoolEffects.StaleEffect | 5_node_p2p/mempool.go:1052-1166 | Stale removal keeps what the ledger has not passed and forgets the projected nonce exactly when something went |
| MempoolEffects.RankedMeaning | 5_node_p2p/mempool.go:265-282 | The cutting order holds each sender once, longer queues first and equal ones by the first differing letter |
| MempoolEffects.CutMeaning | 5_node_p2p/mempool.go:284-303 | Each sender in turn loses a fifth, at least one, at most what is left of 5000 |
| MempoolEviction.CutTotal | 5_node_p2p/mempool.go:284-308 | The hashes cut and the slots still needed always add up to 5000 |
| MempoolEviction.EvictionCutsTails | 5_node_p2p/mempool.go:261-312 | Eviction removes at most 5000 transactions and leaves each queue as a prefix, shorter by the counted tail |
| MempoolEviction.LargestFirst | 5_node_p2p/mempool.go:276-303 | Nobody is cut before every sender ahead in the order has lost its full fifth |
| MempoolEviction.RunAgrees | 5_node_p2p/mempool.go:1204-1263 | Over any run of add, remove, stale removal, eviction and projected-nonce resets the maps agree |
| MempoolEviction.RunExact | 5_node_p2p/mempool.go:1250-1251 | Up to any point of a run, the recorded spend of a sender is always the exact cost of its queue if and only if that cost always fitted in 64 bits |
| MempoolEviction.RefusedStaysNoted | 5_node_p2p/mempool.go:1209-1240 | A transaction refused for its nonce stays in `pendingTxs` unqueued, so offering it again reports success and changes nothing |
| MempoolEviction.AddStrands | 5_node_p2p/mempool.go:1204-1263 | Adding to a pool whose pending and queued hashes coincide keeps them so exactly when the transaction is not refused |
| MempoolEviction.RunStrands | 5_node_p2p/mempool.go:1204-1263 | In every run the pending hashes outside the queues are exactly those refused and not named by a removal since; `pendingTxs` and `txItems` hold the same hashes if and only if there are none |
| MempoolEviction.RefusalHappens | 5_node_p2p/mempool.go:1232-1240 | Two adds with one sender and one nonce, from the empty pool, refuse the second and leave it pending |
| MempoolNode.FindPlace | 5_node_p2p/mempool.go:1232-1241 | The scan finds the sorted place, or that the nonce is taken |
| MempoolNode.TxPool.AddValidatedTx | 5_node_p2p/mempool.go:1204-1263 | The in-place method equals the value operation and returns its verdict |
| MempoolNode.TxPool.RemoveTransactions | 5_node_p2p/mempool.go:608-736 | Gathering, filtering touched queues once and settling each hash equals removing the hashes one by one, repeated and unknown hashes included |
| MempoolNode.TxPool.RemoveStaleNonceTxsBatch | 5_node_p2p/mempool.go:1052-1166 | The batch equals removing each listed sender's stale transactions in turn, and returns how many went |
| MempoolNode.TxPool.PerformCapacityEviction | 5_node_p2p/mempool.go:261-312 | Eviction orders senders by queue length and address and removes exactly the computed tails |
| MempoolNode.TxPool.ClearProjectedNonce | 5_node_p2p/mempool.go:1169-1173 | Forgets one sender's projected nonce and changes nothing else |
| MempoolNode.TxPool.GetPendingSpend | 5_node_p2p/mempool.go:325-330 | The reported spend is the cost of the queue whenever the record is exact |
| MempoolNode.TxPool.GetNextNonce | 5_node_p2p/mempool.go:333-350 | The next nonce is the first one from the ledger nonce on that is not queued (modulo 2^64) |
| Packing.PackingFits | 5_node_p2p/mempool.go:545-578 | The packed block never exceeds the byte limit, nor the count limit (a limit of zero or less still admits one) |
| Packing.SenderRun | 5_node_p2p/mempool.go:580-591 | The transactions popped from a sender are a slice of its queue from the start position on, with consecutive nonces |
| Packing.NonceOrder | 5_node_p2p/mempool.go:545-591 | A sender's packed transactions come from that slice in increasing nonce order |
| Packing.Consecutive | 5_node_p2p/mempool.go:545-591 | When none of its transactions is refused for size, a sender's packed transactions are the slice itself, up to an undecodable last one |
| PackingFull.NothingLeftOut | 5_node_p2p/mempool.go:545-591 | A block below both limits leaves out only transactions their queue does not reach without a gap or an undecodable one, and those larger than the room left |
| PackingFull.LastMayFill | 5_node_p2p/mempool.go:545-578 | Before its last transaction a packed block was below both limits, so the merge never goes on when full |
| Packing.NoRepeats | 5_node_p2p/mempool.go:545-578 | No transaction is packed twice |
| Packing.PopsBounded | 5_node_p2p/mempool.go:545-578 | The merge ends: it pops each queue position at most once |
| PackingFees.PriorityMonotone | 5_node_p2p/mempool.go:1226 | Converting fees to doubles never reverses their order |
| PackingFees.PopsNearBest | 5_node_p2p/mempool.go:486-491 | For fees of any size, a pop is at most one rounding step of doubles below the best head |
| PackingFees.SmallHeadsPopBest | 5_node_p2p/mempool.go:545-550 | A pop takes the highest fee among the queue heads, the oldest of equals, whenever no head exceeds 2^53 |
| PackingFees.HeapByFeeIff | 5_node_p2p/mempool.go:486-491 | Every heap with fees up to n pops only the highest fee, the oldest of equals, if and only if n is at most 2^53 |
| PackingFees.MergesByFeeIff | 5_node_p2p/mempool.go:509-578 | Over every run of the merge from every pool with fees up to n each pop takes the best fee, if and only if n is at most 2^53 |
| PackingFees.PriorityBlurs | 5_node_p2p/mempool.go:486-491 | At 2^53 and 2^53 + 1 two fees share a priority, and the lower, older one goes first |
| PackingFees.AdmittedFeesAreSmall | 0_shared_lib/src/bin/scl_server.rs:1195-1207 | On a ledger without coinbase fees, a fee approved by the validator, or in an exchange batch whose exact cost fits in 64 bits, is at most 2·10^15, below 2^53 |
| PackingFees.AdmittedPoolsPackBest | 5_node_p2p/mempool.go:509-578 | A pool all of whose fees were so admitted is packed by the best fee in every run of the merge |
| Admission.PrefetchWallets | 0_shared_lib/src/bin/scl_server.rs:1050-1077 | Loads balance, nonce and newness of every well-formed sender and receiver as the ledger shows them |
| Admission.JudgeFromWallets | 0_shared_lib/src/bin/scl_server.rs:1095-1233 | The verdict read off the prefetched triples, and the triples after crediting the receiver and debiting the sender, follow the specification; sender and receiver may be one wallet |
| Admission.ValidateTransactionBatch | 0_shared_lib/src/bin/scl_server.rs:975-1240 | The two-phase loop over prefetched wallets gives each transaction the verdict on the ledger as the approved part of the batch left it |
| AdmissionRules.ApprovedIff | 0_shared_lib/src/bin/scl_server.rs:1092-1222 | A transaction is approved if and only if it is signed by a 32-byte sender, names one of the last blocks from height 15 on, has the expected nonce and is covered with the wallet fee of a receiver new to ledger and batch |
| AdmissionRules.RefusalCode | 0_shared_lib/src/bin/scl_server.rs:1092-1222 | A refusal carries the code of the first of eight checks that fails |
| AdmissionRules.BatchStep | 0_shared_lib/src/bin/scl_server.rs:1092-1240 | The batch starts from the ledger; an approved transaction pays, raises its nonce and marks its receiver for the later ones and moves no other wallet, a refused one leaves no trace |
| Admission.AdmitTotal | 0_shared_lib/src/bin/scl_server.rs:1195-1222 | An approved transaction is covered, and the money in the validator's cache never grows |
| Admission.ApprovedWithinTotal | 0_shared_lib/src/bin/scl_server.rs:1195-1207 | What an approved transaction costs is at most all the money in the ledger |
| Admission.ApprovedWithinSupply | 0_shared_lib/src/bin/scl_server.rs:1195-1207 | On a ledger reached without coinbase fees it is at most the supply cap |
| Admission.CheckBatch | 6_user_interface/rpc_server.go:3816-3838 | The exchange endpoint accepts a signed batch exactly when no 64-bit running total exceeds the spendable balance |
| Admission.AffordableIff | 6_user_interface/rpc_server.go:3816-3838 | A batch that passes costs no more than the balance if and only if its exact cost fits in 64 bits, and then covers every fee in it |
| Admission.WrappedCostPasses | 6_user_interface/rpc_server.go:3816-3838 | Beyond that the check proves nothing: an amount and a fee that add up to 2^64 pass it against any balance, and ahead of the ledger nonce the verdict is a nonce gap, which the endpoint admits, whatever the fee |
| PackingFees.BlurredPoolEnters | 6_user_interface/rpc_server.go:4039-4048 | The two transactions of the failing pool, with fees 2^53 + 1 and 2^53, are ones the endpoint admits |
| PackingNode.GetSenderNoncesBatch | 5_node_p2p/mempool.go:1180-1200 | Each sender gets its first queued nonce, or the projected one; read from the same pool, every queue starts at its first transaction |
| PackingNode.PackedBlock | 5_node_p2p/mempool.go:509-578 | Every block so returned keeps both limits, repeats nothing, and holds each sender's queued transactions in increasing nonce order from the ledger nonce on |
| PackingNode.GetPartitionedTransactions | 5_node_p2p/mempool.go:509-578 | The method returns the block of some run of the merge, stopped only because the heap is empty or the last transaction taken filled the block |
| Varint.DecodeVarint | 5_node_p2p/network_manager.go:2316-2326 | The decoder returns the value modulo 2^64 and length of the first varint, or 0 bytes when none ends |
| Varint.EncodeVarintBytes | 5_node_p2p/network_manager.go:2591-2601 | The encoder on its ten-byte buffer writes the base-128 digits, for every 64-bit value |
| Varint.VarintRoundTrip | 5_node_p2p/network_manager.go:2591-2601 | Decoding what was encoded gives every 64-bit value back |
| Varint.VarintCanonical | 5_node_p2p/network_manager.go:2316-2326 | Encoding what was decoded gives the bytes back exactly when the varint has no superfluous zero byte at its end |
| Formats.EncodeDigits | 5_node_p2p/network_manager.go:2591-2601 | An encoding holds the base-128 digits, lowest first, 128 added to all but the last byte, and no superfluous byte |
| Wire.SkipField | 5_node_p2p/network_manager.go:2328-2346 | Skipping a payload of any of the four wire types takes exactly its bytes |
| Wire.ExtractHeaderBytesFromBlockBytes | 5_node_p2p/network_manager.go:2459-2492 | On the bytes of every well-formed block: the content of the first header field, or not found |
| Wire.ExtractHeightFromHeaderBytes | 5_node_p2p/network_manager.go:2494-2521 | On every well-formed header: the value of the first height field, or not found |
| Wire.ExtractTransactionsFromBlockBytes | 5_node_p2p/network_manager.go:2523-2589 | On every well-formed block: all transactions of the first body field, in order, or not found |
| Wire.CollectTransactions | 5_node_p2p/network_manager.go:2549-2577 | The inner loop collects exactly the transaction fields of a body, in order |
| Wire.HasBodyAndTransactions | 5_node_p2p/network_manager.go:2402-2457 | True exactly when the first body field of a well-formed block holds a transaction |
| Wire.ExtractBlockFromResponseBytes | 5_node_p2p/network_manager.go:2348-2400 | On every well-formed response: the last block field, and the last found flag or, without one, whether the block is non-empty |
| WireBuild.BuildHeaderOnlyResponseBytes | 5_node_p2p/network_manager.go:2603-2619 | The bytes written are those of a response holding a block that holds the header, and found = true |
| WireBuild.PackBlockResponse | 5_node_p2p/block_sync.go:60-72 | The hand-packed response is the serialized message with block and found, or found = false alone |
| WireBuild.ResponseRoundTrip | 5_node_p2p/block_sync.go:60-72 | The packed response is well formed and slices back to the block, found |
| WireBuild.NotFoundRoundTrip | 5_node_p2p/block_sync.go:70-72 | The negative response is well formed and reads as not found |
| WireBuild.HeaderOnlyRoundTrip | 5_node_p2p/network_manager.go:2603-2619 | A header-only response slices back to its block, and that block to exactly the header |
| WireBuild.WriteBlockTxn | 5_node_p2p/block_sync.go:99-126 | The stream is one field-1 record per requested index in range, in request order |
| WireBuild.RecordsRoundTrip | 5_node_p2p/block_sync.go:99-126 | Reading the records of such a stream gives the transactions back in order |
| Batch.PackSequentialBatch | 5_node_p2p/network_manager.go:2193-2235 | The packed bytes are the 64-byte header and length-prefixed transactions; nil exactly for an empty batch or a bad address |
| Batch.UnpackSequentialBatch | 5_node_p2p/network_manager.go:2238-2271 | The loop equals the recursive unpacking, truncated batches included |
| Batch.UnpackTransactions | 5_node_p2p/network_manager.go:2274-2286 | A readable batch gives its transactions, anything else is one transaction |
| Formats.BatchLayout | 5_node_p2p/network_manager.go:2193-2235 | The letters TXSQ, the address, three 64-bit numbers and the count at fixed places of the first 64 bytes, then the transactions |
| Formats.UnpackMeaning | 5_node_p2p/network_manager.go:2238-2271 | Unpacking reads whole transactions from the front until it has the announced number or the rest is truncated, on any bytes |
| Formats.EndsOfRecords | 5_node_p2p/network_manager.go:2348-2400 | The first and last record the slicers return are the ends of the list of records with that number |
| Formats.RequestedAppend | 5_node_p2p/block_sync.go:99-126 | Requests for several indexes are answered one after another, in request order; with one index, its transaction or nothing (`RequestedOne`) |
| Batch.BatchRoundTrip | 5_node_p2p/network_manager.go:2193-2271 | Unpacking a packed batch gives it back if and only if its count and every length fit in 32 bits |
| Words.XorTwice | 0_shared_lib/src/crypto_primitives.rs:38-49 | Exclusive or with the same word twice changes nothing |
| Words.Turns | 0_shared_lib/src/crypto_primitives.rs:38-49 | Rotations right and left by the same distance undo each other |
| Yona.GUndone | 0_shared_lib/src/crypto_primitives.rs:38-49 | The G step is undone by its inverse and undoes it, for every four words and two message words |
| Yona.StepsUndone | 0_shared_lib/src/crypto_primitives.rs:51-62 | A round of eight G steps on overlapping lanes is a bijection on the state |
| Yona.PermuteBijective | 0_shared_lib/src/crypto_primitives.rs:64-73 | The message permutation moves every word exactly once |
| Yona.MixUndone | 0_shared_lib/src/crypto_primitives.rs:90-102 | Any number of rounds with the permuted message is undone by its inverse, both ways |
| Yona.SevenRoundsBijective | 0_shared_lib/src/crypto_primitives.rs:90-102 | For every message block no two states mix to one, and every state is reached |
| YonaHashing.YonaG | 0_shared_lib/src/crypto_primitives.rs:38-49 | The eight in-place assignments on the state array equal the G step on its four cells |
| YonaHashing.YonaRound | 0_shared_lib/src/crypto_primitives.rs:51-62 | The in-place round equals the eight lane steps in order |
| YonaHashing.YonaCompress | 0_shared_lib/src/crypto_primitives.rs:76-110 | The unrolled compression equals seven rounds between state set-up and output |
| YonaHashing.YonaHash | 0_shared_lib/src/crypto_primitives.rs:142-180 | The general loop equals the chain over 64-byte blocks with its start, end and root flags |
| YonaHashing.YonaHash112 | 0_shared_lib/src/crypto_primitives.rs:183-200 | The two-block fast path returns the general hash on every 112-byte input |
| YonaHashing.CalculateHash | 0_shared_lib/src/crypto_primitives.rs:202-212 | The dispatch by height and length is the general hash from height 38500 on: the fast path is unobservable |
| YonaSpec.XorBit | yona_hash/README.md:13-32 | Exclusive or of words, bit by bit |
| YonaSpec.RightBit | yona_hash/README.md:13-32 | Rotation right moves every bit by the given number of places around the word |
| YonaSpec.Constants | yona_hash/README.md:7-9 | The mask spells YONA and the initial key is the fraction bits of the square roots of the first eight primes |
| YonaSpec.GEquations | yona_hash/README.md:13-32 | G satisfies the eight published equations with shifts 17, 13, 9 and 5 |
| YonaSpec.RoundMeaning | yona_hash/README.md:36-39 | A round is four columns and then the four diagonals of the mixed columns |
| YonaSpec.CompressMeaning | 0_shared_lib/src/crypto_primitives.rs:76-110 | What is mixed, word by word, and how the two halves and the key make the output (the rounds between are `RoundsMeaning`) |
| YonaSpec.HashIsChain | 0_shared_lib/src/crypto_primitives.rs:142-180 | The hash of any data is the last key of the chain over its 64-byte blocks, with little-endian words, zero padding, block length and flags 1 for the first and 10 for the last block |
| YonaSpec.ChainExists | 0_shared_lib/src/crypto_primitives.rs:142-180 | Every input has such a chain |
| YonaSpec.BlockRoundTrip | 0_shared_lib/src/crypto_primitives.rs:113-139 | The words of a block hold exactly its bytes |
| Words.WordRoundTrip | 0_shared_lib/src/crypto_primitives.rs:113-139 | Words and their four little-endian bytes convert back and forth without loss |
| PowSearch.VerifyPowRaw | 0_shared_lib/src/genz_pow.rs:41-77 | The check accepts exactly hashes that read below the target of the padded difficulty |
| PowMeaning.TargetMeaning | 0_shared_lib/src/genz_pow.rs:168-174 | The target is the largest number whose product with the difficulty fits in 256 bits, and the largest number itself for difficulty 0 and 1 |
| PowMeaning.PowOkIff | 0_shared_lib/src/genz_pow.rs:41-77 | The check accepts a 32-byte header hash exactly when (hash + 1) times difficulty fits in 256 bits, hash read little-endian from the 40 bytes of header hash and nonce |
| PowMeaning.HarderCovers | 0_shared_lib/src/genz_pow.rs:41-77 | Work against a difficulty is work against every smaller one |
| PowMeaning.MaterialOnce | 0_shared_lib/src/genz_pow.rs:63-66 | Two searches hash the same 40 bytes exactly when header hash and nonce agree |
| PowMeaning.NoncesMeaning | 0_shared_lib/src/genz_pow.rs:82-102 | The nonces of a search are start + i modulo 2^64 and never repeat |
| PowSearch.FastRejectIsSound | 0_shared_lib/src/genz_pow.rs:103-124 | A hash whose top 64 bits exceed those of the target is above the target |
| PowSearch.FindNonce | 0_shared_lib/src/genz_pow.rs:82-157 | A returned nonce lies in the searched range and passes the check; no result means every nonce of the range fails it |
| PowSearch.PoolTarget | 9_mining_pool/pool.go:284-298 | The pool's big-endian target equals the node's little-endian one |
| PowSearch.VerifyShare | 9_mining_pool/pool.go:257-282 | The pool's network verdict is the node's check, and a share is a hash below the share target |
| PowMeaning.ShareMeaning | 9_mining_pool/pool.go:257-282 | A hash is a share for worker difficulty w exactly when (hash + 1) times w fits in 256 bits, and never from w = 2^63 on |
| PowSearch.ShareCoversNetwork | 9_mining_pool/pool.go:270-277 | For a worker difficulty no higher than the network's, the share target covers the network target exactly below 2^63; from there on it is negative |
| PowSearch.NetworkBlockIsShare | 9_mining_pool/pool.go:257-282 | Every network block is a pool share if and only if the worker difficulty is below 2^63 |
| PowSearch.PackHeaderV112 | 0_shared_lib/src/genz_pow.rs:189-217 | The buffer copies give the five fields at their places, each byte string cut or padded to 32 |
| PowSearch.PackedAgrees | 0_shared_lib/src/genz_pow.rs:189-217 | Two headers pack to the same 112 bytes exactly when their fields agree at fixed width |
| SigCheck.Covered | 5_node_p2p/sync_engine.go:3140-3163 | Every transaction lies in the range of some worker, for any number of processors |
| SigCheck.StepSound | 5_node_p2p/sync_engine.go:3163-3178 | Every atomic step of every worker keeps what is known: checked prefixes are good, a lowered flag has a witness |
| SigCheck.EveryRunIsExact | 5_node_p2p/sync_engine.go:3146-3187 | In every finished interleaving the shared flag says exactly whether all signatures verify |
| SigCheck.RunsEnd | 5_node_p2p/sync_engine.go:3146-3187 | No interleaving is longer than the work there is at the start |
| SigCheck.NeverStuck | 5_node_p2p/sync_engine.go:3146-3187 | Until all workers are done some step is possible |
| SigCheck.AnswerExists | 5_node_p2p/sync_engine.go:3129-3187 | For every block and any positive number of processors some schedule finishes, so there is an answer |
| SigCheck.AnswerIsExact | 5_node_p2p/sync_engine.go:3129-3187 | The call answers true exactly when every transaction but the first verifies |

## Left out

- HeaderEvaluation.EvaluateHeaderChain: accumulated weights are unbounded, so the panic of an overflowing 256-bit addition is not modelled.
- LedgerNode.StateManager.AcceptBlock: keeps accounts, version and block hash; the accumulated weight and the finality height that the same lines record are followed in `ForkChoice`.
- PackingNode.PackedBlock: the fee order and the consecutive case are stated on runs of the merge, by `PackingFees.SmallHeadsPopBest` and `Packing.Consecutive`.
- Admission.ValidateTransactionBatch: undecodable transactions (status 101) are left out, the form checks run one after another, and the reload of a wallet missing from the prefetched ones is not modelled, because none is.
- Admission.WrappedCostPasses: the expected nonce is a parameter; that it runs ahead of the ledger when a transaction of the sender is pending is `MempoolNode.TxPool.GetNextNonce`.
- LedgerGate.GateIsBlind: the encoded size counts the body; the header adds a few hundred bytes, for which 4096 are kept free.
- HeaderWindows.PowGate: does not model the finality shortcut, the early raw-header path or the environment-variable bypass before the difficulty check.
- ForkChoice.RunFinality: finality is the recorded height at each step; a commit after a shorter heavier chain may record a lower one, so the claim is for blocks that stay at or below it.
- ForkChoice.StepKeepsChain: adoption replaces the suffix after the fork point; the reorganisation code in `consensus/reorg.rs` is not part of this model.
- LedgerTemplate.BuildTemplate: stops before the Merkle root and the weight of the header.
- Mempool.AddAgrees: no claim is made about `totalBytes`, receivers, timestamps of arrival or persistence.
- MempoolNode.TxPool.RemoveTransactions: the fallbacks that decode stored bytes are not modelled, because a pending hash always has a recorded sender and queued hashes are always indexed.
- Wire.ExtractTransactionsFromBlockBytes: like all slicers, claims nothing on malformed bytes, on lengths of 2^31 or more, or on messages with group wire types.
- WireBuild.WriteBlockTxn: streams, deadlines and the lookup of the block are left out.
- PowSearch.FindNonce: the hash-rate counter and the test bypass are left out, and candidates are tried one after another in any order.
- SigCheck.AnswerIsExact: a block without a body is the empty block.
- Receipts, transaction index, supply audit storage and Merkle proofs: bookkeeping without effect on balances.
- Fee tier selection by weight, the floating-point value of the reward and nano weights: only easy members.
- `Purge`, `ResetNanoWeights`, reservation of nonces and the persistence workers of the mempool.
- libp2p streams, gossip, HTTP and WebSocket servers, GPU mining, wallet and user interface, snapshot sync, ban scoring: input and output.
- BLAKE3, Ed25519, the Jellyfish tree and RocksDB: library code.
