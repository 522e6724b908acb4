# Verified model of the trading worker

This project models the parts of the trading system whose correctness is an argument about more than one
function: the trade planner, the address and amount codecs, the sharded holder sync, the execution-run queue,
and the RPC client, merge, cache and account-picking rules around them. Each module states what one component
does and proves what its callers rely on. `dafny verify dfyconfig.toml` checks all of it.

| module | component |
|---|---|
| `PlannerTypes`, `Cycling`, `CyclingShares`, `Pools`, `Planner`, `Overdraw`, `Directives` | Trade planner and the directives that feed it (Rust) |
| `Radix`, `Base58`, `Decimal`, `TokenAmount` | Base58 in both copies, address normalization, amount printing |
| `Tables`, `HolderStage`, `HolderDelta`, `HolderDrift`, `HolderAggregate`, `HolderSync` | Sharded holder sync, deltas, aggregates |
| `QueueModel`, `QueueDrain`, `ExecutionQueue` | Execution runs, versioned plans, consumer |
| `RpcSlots`, `RpcPool` | Request slots per endpoint, rotation, failover |
| `SignalMerge`, `WalletCache`, `AccountPicker` | Transaction detail merge, balance cache, account choice |
| `JsText`, `TextSort`, `Wrappers`, `Reals` | Trimming, joining, deduplicating and sorting texts; shared types and arithmetic |

## How it is modelled

- Code that changes state keeps that form. The holder tables (`HolderSync.HolderDb`), the queue's tables
  (`ExecutionQueue.Database`), the rotation counters (`RpcPool.RoundRobin`) and the balance cache
  (`WalletCache.Cache`) are classes whose methods change fields step by step; the planner's loops, the base58
  passes, the failover loop, the merge and the account scan are methods with loops. Each is proved against a
  function or predicate, and the laws are lemmas about those.
- A database table is a map keyed by its primary or unique key. An operation that runs under the queue's mutex
  is one step; a history is any sequence of steps.
- The RPC limiter is a state machine over clock ticks, calls and chain links, so that every interleaving of
  concurrent callers is a run of it.
- What the outside decides is a parameter: account pools, planner answers seen by the queue, executor
  outcomes, wallets that cannot be loaded, RPC answers, wallet balances, the clock.
- Floating-point amounts are reals. The thresholds 10⁻⁶ and 10⁻¹² and all constants are those of the code.
- The sort built into JavaScript is modelled as an insertion sort; the orders are total, so there is only one result.

## Where the code does not do what one might expect

These are kept as they are in the code, with the exact condition proved.

- An all-ones text of length n decodes to n + 1 zero bytes, so base58 round trips hold exactly with a nonzero
  byte or a character other than `1`. The address of 32 ones is rejected; 31 ones are accepted, and the first
  copy turns them into 32 ones (`Base58.AllOnesAddressRejected`, `Base58.NormalizersAgree`).
- Net-position slices are checked one by one against the untouched pool and can overdraw an account together; when
  is proved for any pool (`Overdraw.NetOverdrawsExactly`, `Overdraw.NetOverdrawExample`). Cycling starts from the
  untouched pool again, so a plan can overdraw although its slices fit: exactly when is proved from the volume
  cycled for any pool (`Overdraw.PlanSpends`), from the inputs alone up to half of 10⁻⁶ for any pool
  (`Overdraw.PlanOverdrawPredicted`) and to the unit for one account (`Overdraw.OneAccountPlanOverdraws`), with an
  input in `Overdraw.PlanOverdrawExample`. Cycling by itself never overdraws.
- A new holder-sync run does not clear the live table, so until it is finalized its progress shows the balances left
  over on top of what it stages (`HolderDrift.LeftOverShowsInFull`): after a complete second run, twice the balance
  (`HolderDelta.SecondRunCountsTwice` at one input). A delta call that is cut off between staging and merging loses
  its deltas until the run is finalized, since its retry sees nothing to merge (`HolderDrift.RetryMergesNothing`,
  `HolderDrift.LostDeltasStayLost`).
- The aggregate computed from the stage counts a wallet imported both as managed and as watch twice
  (`HolderAggregate.PreviewCount`, at one input `HolderAggregate.PreviewCountsTwice`).
- Pools of RPC endpoints share a rotation counter when their joined keys are equal, which takes an endpoint that
  contains `|`; rotation is then not fair to each pool (`RpcPool.OwnCallsExactly`, `RpcPool.SharedCounterStarves`).
- Merging an already merged record again loses an empty wallet text of a preferred record
  (`SignalMerge.RemergeExactly`, `SignalMerge.EmptyTextIsLost`).
- `normalizeTimestampMs` turns a missing trade time into 0, so the comparator's branches for missing times are
  never taken, and an account that never traded sorts as if it had traded at time 0
  (`AccountPicker.NeverTradedOrder`).
- For a positive amount the account scan's test for some balance of the pair never decides, since the test for a
  sufficient balance is the stronger one (`AccountPicker.PaysExactly`).

## Model

| member | source | states |
|---|---|---|
| Cycling.GreedyIsComplete | rust-backend/src/planner.rs:557-652 | A greedy run can only finish if the smaller of the two pool totals is at least (gap − 10⁻⁶)/2, and can only get stuck if it is not |
| Cycling.BuildVolumeCyclingIntents | rust-backend/src/planner.rs:521-655 | Whenever the task-count guardrail does not cut the run short, success is equivalent to that total condition; the guardrail cannot fire when twice the pair bound fits `max_micro_tasks`; each side of the result lies in [gap − 10⁻⁶, gap]/2 and no account is overdrawn |
| Cycling.OutcomeMeans | rust-backend/src/planner.rs:521-655 | The same four promises for every outcome the loop can have |
| Cycling.CycleLoop | rust-backend/src/planner.rs:553-652 | The loop over a mutable copy of the balances: it ends finished, stuck or at the guardrail, and its intents are exactly the rendering of the unique greedy run |
| Cycling.ChoosePair | rust-backend/src/planner.rs:561-625 | One pass: an entry holding both assets cycles with itself before any hedge; no pair exactly when one side has no holder; the exits on a non-positive amount are dead code |
| Cycling.GreedyRunUnique | rust-backend/src/planner.rs:557-652 | Pool, gap and hint leave one run: two ended greedy runs are equal |
| Cycling.RunConserves | rust-backend/src/planner.rs:543-652 | Conservation per side and per account id: what is still held plus what the intents spent is what was held |
| Cycling.RunUsesVolume | rust-backend/src/planner.rs:602-649 | On either side the intents total exactly half of the volume used up |
| Cycling.RunStaysInRange | rust-backend/src/planner.rs:543-652 | Along every run balances stay non-negative and the volume left stays between zero and the gap |
| Cycling.NeverOverdraws | rust-backend/src/planner.rs:543-652 | Per account id, cycling buys spend at most its initial quote and sells at most its initial base |
| Cycling.IntentsComeInPairs | rust-backend/src/planner.rs:569-648 | Intents 2k and 2k+1 are a buy and a sell of one positive amount within the hint: a self pair on one pool entry or a hedge pair on two, with the buy naming its partner, and ids that count from one |
| Cycling.RunLength | rust-backend/src/planner.rs:553-652 | At most ⌊gap/(2·hint)⌋ + 1 + (initially positive balances) pairs, strictly fewer while the run goes on |
| Cycling.PassCount | rust-backend/src/planner.rs:577-649 | Pairs are at most the full-hint pairs, plus the balances emptied, plus one for the pair that finishes the gap |
| Planner.SliceTargetVolume | rust-backend/src/planner.rs:482-508 | Slicing succeeds exactly when the target is within max_micro_tasks full slices; the slices then sum to the target, all but the last are full, and they are within the limit |
| Planner.SlicingUnique | rust-backend/src/planner.rs:482-508 | A target has one slicing |
| Planner.LargestSlice | rust-backend/src/planner.rs:482-508 | The first slice is the largest and is min(target, hint) |
| Planner.SelectAccount | rust-backend/src/planner.rs:510-519 | The first account of the pool that can fund the amount, none only if no account can |
| Planner.BuildNetIntents | rust-backend/src/planner.rs:378-416 | One net-position intent per slice on the first account that can fund it from the untouched pool; failure exactly if some slice has no such account |
| Planner.NetIntents | rust-backend/src/planner.rs:378-416 | Every net intent carries its slice, its side, no partner, an account that could fund that slice, and an id that names side and account and counts on |
| Planner.PlanNetPosition | rust-backend/src/planner.rs:373-416 | The net position can be planned exactly when both targets fit the guardrail and one account can fund each side’s largest slice; the error says which of the two failed |
| Planner.PlanCycling | rust-backend/src/planner.rs:418-428 | The gap is handed to cycling only if positive; success is the total condition unless the guardrail fires |
| Planner.GeneratePlan | rust-backend/src/planner.rs:356-431 | Refused exactly for a negative target, targets that do not fit together or an asset without symbol or mint; a provider’s error is passed on; a target no slicing carries is unsupported and one no account covers has insufficient liquidity. On the provider’s own pool: success implies feasibility, and feasibility implies success unless the guardrail cuts cycling short; every net intent is on the first usable account that covers it, and with distinct ids cycling spends on no account more than its balance |
| Planner.FeasibleOnProvider | rust-backend/src/planner.rs:356-431 | Feasibility read off the provider’s pool: a usable account exists, each target fits the guardrail and one usable account covers its largest slice, and what usable accounts hold together suffices for the gap up to 10⁻⁶ |
| Planner.PlanOnProvider | rust-backend/src/planner.rs:356-431 | A plan’s net intents are on the first usable accounts of the provider’s pool with enough quote for a buy or base for a sell; with distinct ids its cycling stays within each account’s balance and leaves unusable accounts alone |
| Planner.FunderOfProvider | rust-backend/src/planner.rs:467-519 | The first account that can fund an amount among the available ones is the first usable one of the provider’s pool that can |
| Pools.AvailableSelects | rust-backend/src/planner.rs:467-480 | The available accounts are those of the provider’s pool that are available and have a pair enabled, in its order, each once |
| Pools.AvailableDistinct | rust-backend/src/planner.rs:467-480 | So distinct account ids stay distinct |
| Pools.HeldByProviderEntry | rust-backend/src/planner.rs:543-551 | The working copy of cycling holds for each account of the provider’s pool its non-negative balance if it is usable, else nothing |
| Pools.AvailableCopy | rust-backend/src/planner.rs:543-551 | Filtering once more for the working copy changes nothing |
| Planner.PlanConserves | rust-backend/src/planner.rs:356-431 | Buys minus sells of a plan is target_buy − target_sell exactly, and all amounts total within [target_total − 10⁻⁶, target_total] |
| Planner.PlanUnique | rust-backend/src/planner.rs:356-431 | The planning rules leave no freedom: pool, targets and hint determine every intent |
| Planner.IntentIdsDistinct | rust-backend/src/planner.rs:378-428 | No two intents of a plan share a printed id, although cycling numbers its intents from one again |
| Planner.IdTextInjective | rust-backend/src/planner.rs:378-416 | Printed ids with the same tag are equal only for the same account and number |
| CyclingShares.CyclingTakesShares | rust-backend/src/planner.rs:543-652 | A greedy run takes from every entry exactly its share of the cycled volume, whatever the hint: entries are filled in pool order, first up to what they hold of both assets, then up to the rest of each |
| CyclingShares.FillStep | rust-backend/src/planner.rs:566-649 | Taking on from the first entry that is not used up changes only that entry’s share |
| CyclingShares.OneAccountCycles | rust-backend/src/planner.rs:553-652 | The volume a finished run cycles on a single account, in closed form: what it holds of both assets, or half the gap less what full slices leave within the tolerance |
| Overdraw.NetOverdrawsExactly | rust-backend/src/planner.rs:510-519 | For any pool: the slices of a target overdraw some account exactly if they overdraw the one that can fund the largest slice, which takes all full slices, and the last one unless an earlier account can fund that |
| Overdraw.SlicesTakeShares | rust-backend/src/planner.rs:378-416 | What the slices take from each entry: all full slices fall on one entry and the last one on one |
| Overdraw.NetPerAccount | rust-backend/src/planner.rs:378-416 | What the net intents of a side spend from each account is what the slices take from its entry |
| Overdraw.NetPositionMayOverdraw | rust-backend/src/planner.rs:510-519 | With one account: exactly the targets above its balance whose largest slice is within it |
| Overdraw.NetOverdrawExample | rust-backend/src/planner.rs:510-519 | Two accounts with 100 each: a target of 150 in slices of 60 takes all 150 from the first |
| Overdraw.PlanSpends | rust-backend/src/planner.rs:418-428 | What a whole plan spends from each account of any pool: the slices’ share and the share of the cycled volume, so it is overdrawn exactly if the two exceed what it holds |
| Overdraw.PlanOverdrawPredicted | rust-backend/src/planner.rs:418-428 | Known before planning: shares above the balance at the least cycled volume mean overdrawn, shares within it at the most mean not; the two volumes differ by half of 10⁻⁶ |
| Overdraw.PlanOverdrawsSide | rust-backend/src/planner.rs:418-428 | A side that asks for more than all accounts hold overdraws one of them |
| Overdraw.OneAccountPlanOverdraws | rust-backend/src/planner.rs:418-428 | A plan on one account overdraws a side if and only if target plus cycled volume exceed what it holds |
| Overdraw.PlanOverdrawExample | rust-backend/src/planner.rs:418-428 | Quote 10, base 10, target buy 10, total 30, hint 10: slice and cycling each fit, and together they buy 20 |
| Directives.ExternalDirectiveTarget | rust-backend/src/actor_runtime.rs:454-504 | Every directive for an external trade has the sign of its objective’s reaction and is worth at least one order of at least 10⁻⁶ |
| Directives.ExternalTargets | rust-backend/src/actor_runtime.rs:412-504 | On the stored settings: a directive exactly if the contract is the active one or none is set, the amount reaches the threshold, a run exists and the target is worth an order; the target is amount·absorb ratio for a sell under accumulation, −amount·follow-sell ratio for a buy under distribution, the amount for a loss cut and −amount·dump ratio for another buy under shakeout, else 0 |
| Directives.ExternalInput | rust-backend/src/actor_runtime.rs:619-636 | Its planning input is numerically valid, one-sided and leaves nothing to cycle |
| Directives.ExternalPlanIsOneSided | rust-backend/src/actor_runtime.rs:412-527 | A plan for it has only net-position intents on that side, totals abs(target_net_pos), each in (0, max(1, max_order_size)], and no cycling |
| Directives.SettingsInputValid | rust-backend/src/actor_runtime.rs:530-574 | A settings update makes a directive exactly if a run exists and volume target or position is not zero; its input is numerically valid, keeps the run’s assets and the larger order size, and is not executed at once |
| Directives.SettingsPlan | rust-backend/src/actor_runtime.rs:530-574 | A plan for one nets to the requested position exactly and reaches max(volume target, abs(position), one order) up to 10⁻⁶ |
| QueueModel.HistorySafe | rust-backend/src/main.rs:638-1038 | Over every history of orchestrate, replan and consume steps: tasks are pending without attempt or have exactly one matching attempt, completed runs have only executed tasks at their latest version; and from any moment to any later one versions never go back, nothing is deleted, finished and superseded tasks never change |
| QueueModel.HistoryValid | rust-backend/src/main.rs:638-1038 | Every queue reachable from the empty one satisfies the invariant |
| QueueModel.EvolvesAlong | rust-backend/src/main.rs:638-1038 | Evolution composes along a history of any length |
| QueueModel.StepSafe | rust-backend/src/main.rs:852-1038 | Each enabled operation keeps the invariant and only lets the queue evolve |
| QueueModel.Orchestrates | rust-backend/src/strategy.rs:187-247 | A confirmed trade request, with or without the timing replan, is a safe step |
| QueueModel.OrchestratedOutcome | rust-backend/src/strategy.rs:187-247 | A fully confirmed request makes a run with the confirmed plan as version 1, executing, or, delayed and planned anew, with the new plan as version 2, replanned; any other request changes nothing |
| QueueModel.StartedIsLatest | rust-backend/src/main.rs:531-562 | With a clock that does not run backwards the run just started is the user’s latest, and no other is |
| QueueModel.WrittenIsLatest | rust-backend/src/main.rs:531-562 | So is a run that was written after all others of its user |
| QueueModel.Directs | rust-backend/src/actor_runtime.rs:576-616 | A persisted directive is a safe step: version + 1 is always an unused plan |
| QueueModel.DirectedOutcome | rust-backend/src/actor_runtime.rs:576-616 | For the latest run an accepted directive becomes version + 1 with its tasks pending in order; for any other run nothing changes |
| QueueModel.NewPlan | rust-backend/src/main.rs:688-760 | Replacing a plan version no task has yet, then setting status and version, keeps the invariant and deletes nothing |
| QueueModel.RecordsBatch | rust-backend/src/main.rs:917-1007 | Recording any prefix of a batch with any outcomes keeps the invariant, so an early return does too |
| QueueModel.Records | rust-backend/src/main.rs:947-1006 | Recording one pending task’s outcome keeps one attempt per finished task |
| QueueModel.RecordedTasks | rust-backend/src/main.rs:947-1006 | Exactly the batch’s tasks change, each to its outcome; runs and all other tasks do not |
| QueueModel.SetsStatus | rust-backend/src/main.rs:1009-1035 | The status computed from the counts never marks a run completed with a task that is not executed |
| QueueModel.FinishedStatusFits | rust-backend/src/main.rs:1009-1035 | After a finished call the run is failed exactly if some task of its latest plan failed, executing exactly if none failed and some is pending, completed exactly if all are executed |
| QueueModel.Consumes | rust-backend/src/main.rs:852-1038 | A consume call, complete or cut off before some task, is a safe step |
| QueueModel.AttemptCount | rust-backend/src/main.rs:947-1006 | A pending task has no attempt row, any other task exactly one, with its own status |
| QueueModel.BatchUnique | rust-backend/src/main.rs:862-903 | Creation time and id order leave one batch a consume call can select |
| QueueModel.InsertsOnlyAdd | rust-backend/src/main.rs:703-735 | Storing a plan adds its tasks, pending and in order, and leaves all others alone |
| QueueModel.ReplacesPlan | rust-backend/src/main.rs:688-739 | Storing a version again leaves exactly the new tasks in it, all other tasks as they were, and the attempts of those only |
| QueueModel.BatchIsOldestFirst | rust-backend/src/main.rs:862-903 | No pending task left for later is older than one in the batch, nor of the same moment with a smaller id |
| QueueDrain.PlanIsConsumedInOrder | rust-backend/src/main.rs:862-1007 | After a plan is stored, consume calls in a row, of any limits and wherever they end, record its intents in the planner’s order, each once, with attempt rows in that order; complete calls record min(sum of limits, plan length) |
| QueueDrain.BatchIsNextPart | rust-backend/src/main.rs:862-903 | Whatever the limit, a call selects the next intents of the plan, as many as the limit allows |
| QueueDrain.CallsDrain | rust-backend/src/main.rs:862-1007 | Through any such calls exactly a first part of the plan is done |
| QueueDrain.RecordedAttempts | rust-backend/src/main.rs:947-1006 | Attempt rows are numbered in the order the tasks are recorded |
| QueueDrain.CallsAnswer | rust-backend/src/main.rs:917-1007 | Through any consume calls each recorded task is executed if the executor completed it in its call, else failed |
| QueueDrain.PlanOutcome | rust-backend/src/main.rs:852-1038 | Complete calls whose limits cover a stored plan leave the run completed if every task succeeded, and failed otherwise |
| ExecutionQueue.Database.constructor | rust-backend/src/main.rs:1101-1147 | A new database is the empty queue |
| ExecutionQueue.Database.CreateRunRow | rust-backend/src/main.rs:638-686 | A new run, planned, at version 1 |
| ExecutionQueue.Database.ReplacePlan | rust-backend/src/main.rs:688-739 | Deletes one plan version with its attempts and inserts the intents as pending tasks |
| ExecutionQueue.Database.UpdateRunStatus | rust-backend/src/main.rs:741-760 | Sets status and version of one run |
| ExecutionQueue.Database.RecordOutcome | rust-backend/src/main.rs:947-1006 | Task status and attempt row together |
| ExecutionQueue.Database.SelectPending | rust-backend/src/main.rs:862-903 | The first pending tasks of the plan by creation time and id, up to the limit |
| ExecutionQueue.Database.ProcessBatch | rust-backend/src/main.rs:917-1007 | Processes the longest prefix of the batch whose wallets can be loaded |
| ExecutionQueue.Database.PlanStatus | rust-backend/src/main.rs:1009-1035 | Failed exactly if some task of the plan failed, completed exactly if all are executed, else executing |
| ExecutionQueue.Database.Consume | rust-backend/src/main.rs:852-1038 | The new tables after a consume call, for the zero limit, a refusal, a wallet that cannot be loaded and a full batch; after a full batch the run’s status says how its latest plan stands |
| ExecutionQueue.Database.OrchestrateTrade | rust-backend/src/strategy.rs:103-247 | The tables after a trade request, for each way it may end |
| ExecutionQueue.Database.PersistDirective | rust-backend/src/actor_runtime.rs:576-616 | A new version exactly if the directive’s run is still the user’s latest and a plan exists; otherwise no change |
| HolderStage.PagedEqualsOneShot | src/backend/tokenHolders.ts:82-143 | After finalize the positive balances of a token are those the one-shot sync gives on the summed amounts, whatever was in either table before |
| HolderStage.FinalBalances | src/backend/tokenHolders.ts:359-406 | For any order, repetition or retry of shard staging, each wallet’s final positive balance is the sum over shards of its last staged amount, and every other positive balance becomes zero |
| HolderStage.StageHoldsLastWrites | src/backend/tokenHolders.ts:359-406 | The stage holds, per shard and wallet, exactly the last write |
| HolderStage.StagedSumIsShardSum | src/backend/tokenHolders.ts:359-406 | A wallet’s staged sum is the sum of its last amounts over the shards |
| HolderStage.RestagedSum | src/backend/tokenHolders.ts:359-406 | Restaging one shard moves a wallet’s staged sum by the difference in that shard |
| HolderStage.OverwrittenPositive | src/backend/tokenHolders.ts:577-624 | The positive rows after the two finalize updates are the positive sums |
| HolderStage.SyncedPositive | src/backend/tokenHolders.ts:82-143 | The positive rows after the one-shot sync are the positive amounts given |
| HolderStage.SyncedRow | src/backend/tokenHolders.ts:82-143 | The one-shot sync stores each given amount as it is and zeroes every other positive balance |
| HolderStage.OtherTokensUntouched | src/backend/tokenHolders.ts:533-661 | Neither sync touches a row of another token |
| HolderStage.DriverCursor | src/backend/services/tokenHolderSyncService.ts:470-640 | Through any interrupted shard attempts the completed shards hold exactly their complete attempt; only the current shard may be partial |
| HolderStage.DriverFinalBalances | src/backend/services/tokenHolderSyncService.ts:470-644 | The driver finalizes to the one-shot result of the complete attempts, whatever was interrupted before |
| HolderDelta.DriftIsBounded | src/backend/tokenHolders.ts:408-531 | After k delta applications a live balance is off its staged sum by at most k·10⁻¹² more than before |
| HolderDelta.DriftStep | src/backend/tokenHolders.ts:408-531 | One application adds at most 10⁻¹² of drift, and none to an exact balance whose change is zero or beyond the tolerance |
| HolderDelta.WholeUnitsTrackExactly | src/backend/tokenHolders.ts:408-531 | Exactly zero drift when all amounts are multiples of a unit above 10⁻¹² |
| HolderDelta.TracksExactlyFromEmpty | src/backend/tokenHolders.ts:408-531 | A fresh run tracks the stage in every such history if and only if no live balance is left over |
| HolderDelta.SecondRunCountsTwice | src/backend/tokenHolders.ts:408-531 | A concrete second run after a finished one shows twice the balance until it is finalized |
| HolderDrift.LeftOverShowsInFull | src/backend/tokenHolders.ts:408-531 | A run of positive whole-unit amounts that starts on an empty stage shows, after every history, the balance left over plus what it staged; so it tracks a wallet in a history exactly if that wallet had no balance |
| HolderDrift.LeftOverStays | src/backend/tokenHolders.ts:408-531 | Any surplus of a live balance over its staged sum is kept exactly through every such history |
| HolderDrift.CutLosesDelta | src/backend/tokenHolders.ts:445-512 | A call cut off after staging and before merging moves the drift by exactly the delta not merged |
| HolderDrift.RetryMergesNothing | src/backend/tokenHolders.ts:416-485 | Its retry finds its own rows staged, sees no difference and changes nothing |
| HolderDrift.LostDeltasStayLost | src/backend/tokenHolders.ts:408-531 | Through histories of complete and cut-off calls that do not lower a wallet’s amounts, its live balance lacks exactly the lost deltas |
| HolderDelta.AppliedLive | src/backend/tokenHolders.ts:483-530 | Exactly what one application leaves of a wallet’s live balance: as it was if nothing in the shard changed beyond 10⁻¹²; else zero where its staged rows sum to nothing, and elsewhere moved by its own difference, clamped at zero |
| HolderAggregate.AggregateBounds | src/backend/tokenHolders.ts:673-711 | Internal and watched holders are disjoint parts of the active ones, and outsiders = active − internal without clamping; likewise for the amounts |
| HolderAggregate.AggregateCounts | src/backend/tokenHolders.ts:20-38 | On the account rows: internal holders are the positive wallets with a managed row of the user, watched ones those with a watch row and no managed one, each with the sum of their balances |
| HolderAggregate.FinalCounts | src/backend/tokenHolders.ts:547-632 | The same after a finalize, on the positive sums of the staged rows |
| HolderAggregate.FinalAggregate | src/backend/tokenHolders.ts:547-632 | Right after finalize of non-negative rows the aggregate’s active count is the summary’s and its total is the sum of all staged rows |
| HolderAggregate.GroupedTotal | src/backend/tokenHolders.ts:580-603 | Grouping by wallet keeps the total |
| HolderAggregate.PreviewCount | src/backend/tokenHolders.ts:857-915 | The stage preview counts exactly the wallets imported both as managed and watch once too often |
| HolderAggregate.PreviewParts | src/backend/tokenHolders.ts:857-915 | The preview’s internal and watched parts: every positive wallet with a row of the kind, whether or not it has the other too |
| HolderAggregate.PreviewCountsTwice | src/backend/tokenHolders.ts:857-915 | One staged wallet imported both ways: preview active 2, aggregate active 1 |
| HolderAggregate.PreviewAgrees | src/backend/tokenHolders.ts:857-915 | With no such wallet and a positive wallet staged, the preview equals the aggregate computed after finalize, in all counts and sums |
| HolderSync.GroupSums | src/backend/tokenHolders.ts:580-603 | Per-wallet sums of a run’s staged rows, accumulated row by row |
| HolderSync.CollectDeltas | src/backend/tokenHolders.ts:416-441 | The differences beyond 10⁻¹² between what a shard held and will hold |
| HolderSync.HolderDb.constructor | src/backend/workerSchema.ts:255-324 | Empty tables |
| HolderSync.ResumesExactly | src/backend/tokenHolders.ts:292-336 | Of the states with a run, exactly running and failed ones with the cursor within the shards are taken up; a closed run never is |
| HolderSync.HolderDb.StartOrResume | src/backend/tokenHolders.ts:292-336 | A failed or running run with shards left is taken up where it stopped; anything else starts a fresh run and drops the token’s stage |
| HolderSync.HolderDb.StageShard | src/backend/tokenHolders.ts:359-406 | Replace-on-retry: one shard’s rows are exactly the new ones, all other rows stay |
| HolderSync.HolderDb.ApplyShardDelta | src/backend/tokenHolders.ts:408-531 | Stage and live table after one delta application |
| HolderSync.HolderDb.AddToLive | src/backend/tokenHolders.ts:483-531 | The live table after merging deltas and zeroing wallets whose staged sum is not positive; untouched without deltas |
| HolderSync.HolderDb.SyncBalances | src/backend/tokenHolders.ts:82-143 | The live table after the one-shot sync, and the number of rows it zeroes |
| HolderSync.HolderDb.RecomputeAggregate | src/backend/tokenHolders.ts:663-782 | The aggregate over the positive live rows |
| HolderSync.HolderDb.OverwriteLive | src/backend/tokenHolders.ts:577-624 | The upsert of positive sums followed by zeroing every other positive row |
| HolderSync.HolderDb.Finalize | src/backend/tokenHolders.ts:533-661 | All four tables and the summary after finalize; nothing changes without a run id |
| HolderSync.SummaryCounts | src/backend/tokenHolders.ts:547-661 | The summary counts the wallets kept, and the previously positive ones not kept |
| HolderSync.RunDropped | src/backend/tokenHolders.ts:625-661 | A closed run leaves no staged rows; every other run’s rows stay |
| Base58.ConvertRoundTrip | src/backend/workerCore.ts:149-200 | Base conversion there and back restores the digits if and only if one is not zero |
| Base58.DecodeEncode | src/backend/workerCore.ts:149-200 | decode(encode(b)) = b if and only if b has a nonzero byte |
| Base58.EncodeDecode | src/backend/workerCore.ts:149-200 | encode(decode(s)) = s if and only if s has a character other than 1 |
| Base58.DecodeAllOnes | src/backend/workerCore.ts:149-170 | n ones decode to n + 1 zero bytes |
| Base58.EncodersAgree | src/backend/workerShared.ts:485-505 | The two encoder copies agree on a byte string if and only if it has a nonzero byte |
| Base58.Ripple | src/backend/workerCore.ts:155-160 | One pass over the digits with the carry always below the multiplier, that is at most 57 decoding and 255 encoding |
| Base58.CarryPass | src/backend/workerCore.ts:154-163 | A pass with its growing tail multiplies the numeral and adds the carry |
| Base58.Decode | src/backend/workerCore.ts:149-170 | The in-place decoder computes the base conversion, or rejects a character that is not a base58 digit |
| Base58.AlphabetAt | src/backend/workerShared.ts:40-41 | The 58 digits: 1 to 9, then A to Z without I and O, then a to z without l |
| Base58.DecodesExactly | src/backend/workerCore.ts:149-170 | A text decodes if and only if each character is an ASCII digit or letter other than 0, I, O and l |
| Base58.DecodeOne | src/backend/workerCore.ts:149-170 | One character decodes to its digit, given by range; 1 decodes to two zero bytes |
| Base58.EncodedIsBase58 | src/backend/workerCore.ts:172-200 | Encoded texts consist of such characters |
| Base58.EncodeCore | src/backend/workerCore.ts:172-200 | The first encoder copy computes its specification |
| Base58.EncodeShared | src/backend/workerShared.ts:485-505 | The second encoder copy computes its specification |
| Base58.NormalizeCore | src/backend/workerCore.ts:553-566 | Trims, decodes, checks 32 bytes and encodes again |
| Base58.NormalizeShared | src/backend/workerShared.ts:785-800 | The second copy of the same check |
| Base58.NormalizesExactly | src/backend/workerCore.ts:553-566 | Refused as empty is exactly white space; accepted are exactly the encodings of 32 bytes that are not all zero, unchanged, and 31 ones, which become 32 |
| JsText.TrimLaw | src/backend/workerCore.ts:554-554 | Trimming cuts white space off both ends and nothing else |
| Base58.NormalizersAgree | src/backend/workerShared.ts:785-800 | Both copies accept the same addresses; an accepted address comes back as its trimmed input, except 31 ones |
| Base58.AllOnesAddressRejected | src/backend/workerCore.ts:553-566 | 32 zero bytes encode to 32 ones, which both copies then reject |
| Base58.NormalizeIdempotent | src/backend/workerCore.ts:553-566 | Normalizing twice equals normalizing once exactly unless the input is 31 ones |
| Radix.MulAddNumeral | src/backend/workerCore.ts:154-163 | A carry pass over the numeral of n gives the numeral of n·mul + carry |
| Radix.DigitsOfEval | src/backend/workerCore.ts:154-163 | A digit list without a zero at the top is the numeral of its value |
| TokenAmount.FormatIsLossless | src/backend/workerCore.ts:688-699 | The printed amount reads back, scaled by 10^decimals, to the raw amount; no trailing fraction zero and no bare point |
| TokenAmount.FormatPlain | src/backend/workerCore.ts:689-689 | With zero or negative decimals the text is the plain integer, read back exactly |
| TokenAmount.FormatInjective | src/backend/workerCore.ts:688-699 | For fixed decimals, positive or not, two amounts print alike only if equal |
| TokenAmount.FractionDigits | src/backend/workerCore.ts:694-698 | Padding then stripping zeros keeps the fraction’s value and leaves no zero at the end |
| Decimal.ShowInjective | src/backend/workerCore.ts:692-699 | Decimal printing of naturals is injective |
| JsText.DedupeStrings | src/backend/workerCore.ts:640-650 | The loop with its seen-set computes the deduplicated list |
| JsText.DedupedLaw | src/backend/workerCore.ts:640-650 | Exactly the non-empty trimmed texts, each once, by first appearance |
| JsText.JoinInjective | src/backend/workerCore.ts:839-839 | Separator-free lists have the same joined key only if equal |
| RpcSlots.SlotSpacing | src/backend/workerCore.ts:849-866 | Under any interleaving slots follow queue order and are at least the request interval apart |
| RpcSlots.SpacingIsTight | src/backend/workerCore.ts:849-866 | The distance is tight: of two callers at once the second is scheduled exactly one interval later |
| RpcSlots.WindowBound | src/backend/workerCore.ts:849-866 | Any window of T ms holds at most ⌊T/interval⌋ + 1 slots |
| RpcSlots.ReleasedAfterSlot | src/backend/workerCore.ts:854-863 | No caller is released before its slot |
| RpcSlots.CooldownRespected | src/backend/workerCore.ts:868-877 | A reservation queued behind a cooldown of c pushed at t is scheduled at or after t + c |
| RpcSlots.SlotIsEarliest | src/backend/workerCore.ts:849-877 | No slot is later than it must be: it is for the current time, exactly an interval after the slot before, or exactly at the end of a cooldown in front of it |
| RpcSlots.CooldownIsTight | src/backend/workerCore.ts:868-877 | A caller behind a served one and a cooldown pushed at once is scheduled exactly at the larger of interval and cooldown |
| RpcSlots.ServedOnce | src/backend/workerCore.ts:849-866 | Every resolved reservation had exactly one slot, not before its call |
| RpcSlots.RunKeepsInv | src/backend/workerCore.ts:849-877 | The chain invariant holds after every run of calls, ticks and link steps |
| RpcSlots.RateRespected | src/backend/workerCore.ts:821-833 | Helius gets at most one request in 334 ms and other providers one in 50; any second then holds at most one slot more than the provider’s 3 or 20 |
| RpcPool.RoundRobin.Rotate | src/backend/workerCore.ts:835-847 | The rotated pool, and counters that are those of the whole sequence of calls so far; pools of one endpoint keep none |
| RpcPool.RotationPermutes | src/backend/workerCore.ts:835-847 | Rotation only reorders |
| RpcPool.RotatedAt | src/backend/workerCore.ts:846-846 | Behind the leader the endpoints follow in the order of the pool, round its end: place i is endpoint (offset + i) mod n |
| RpcPool.FairRotation | src/backend/workerCore.ts:835-847 | Among the pool size consecutive offsets endpoint j leads exactly one |
| RpcPool.OffsetCountsCalls | src/backend/workerCore.ts:839-841 | Over any history of calls a pool’s offset counts the earlier calls with the same joined key |
| RpcPool.EachEndpointLeadsOnce | src/backend/workerCore.ts:835-847 | Over any the pool size consecutive uses of a pool’s counter, other calls in between, each endpoint leads exactly once |
| RpcPool.OwnCallsExactly | src/backend/workerCore.ts:839-841 | A pool’s counter counts exactly its own calls if and only if no other pool with the same joined key was used |
| RpcPool.SeparatorFreeCalls | src/backend/workerCore.ts:839-841 | So it does for endpoints without the separator |
| RpcPool.SharedCounterStarves | src/backend/workerCore.ts:835-847 | Two pools that share a key, called in turns: one of them is led by the same endpoint every time |
| RpcPool.RoundRobin.constructor | src/backend/workerCore.ts:50-50 | No counters and no calls |
| RpcPool.SolanaRpc | src/backend/workerCore.ts:879-952 | The requests made are exactly the reachable attempts up to the first success in (endpoint, attempt) order, whose value is returned; with no success all were made and refused; at most 3·the pool size requests |
| RpcPool.EndpointRequests | src/backend/workerCore.ts:887-952 | A call without success asks each endpoint once, again only after a retryable failure, three times at most |
| SignalMerge.MergeStoredSignalTransactionDetails | src/backend/workerCore.ts:1339-1439 | The loop over the entries, absent ones skipped, computes the field-wise merge |
| SignalMerge.MergeStarts | src/backend/workerCore.ts:1342-1354 | A merge starts from a pending webhook record of unknown origin without any value |
| SignalMerge.PresentParts | src/backend/workerCore.ts:1356-1357 | Absent entries leave no trace and the others keep their order |
| SignalMerge.MergeOne | src/backend/workerCore.ts:1356-1436 | One entry’s effect on all eleven fields |
| SignalMerge.FieldClosedForm | src/backend/workerCore.ts:1367-1412 | The last overriding value wins; with none, the value held, or else the first filling value |
| SignalMerge.WalletClosedForm | src/backend/workerCore.ts:1368-1412 | A wallet field is the last non-empty value of a preferred record, else the first value of any other, and null exactly if there is neither |
| SignalMerge.NumberClosedForm | src/backend/workerCore.ts:1389-1412 | A number is the last one a preferred record gives, else the first any gives, and null exactly if none does |
| SignalMerge.NodeNumberWins | src/backend/workerCore.ts:1358-1412 | The last number of a reconciled or RPC-detailed record wins; with none of those the first number given stands |
| SignalMerge.OverwritesExactly | src/backend/workerCore.ts:1358-1412 | What is held is overwritten exactly by such a record, a wallet only with a non-empty text |
| SignalMerge.ActionClosedForm | src/backend/workerCore.ts:1383-1412 | The action follows the same rule |
| SignalMerge.TokenClosedForm | src/backend/workerCore.ts:1367-1367 | The token address is the first one any record gives, null if none does |
| SignalMerge.FailedIsAbsorbing | src/backend/workerCore.ts:1414-1426 | The status is FAILED if and only if some entry is |
| SignalMerge.LastStatusStands | src/backend/workerCore.ts:1414-1426 | Otherwise the last status given stands, PENDING if none |
| SignalMerge.DetailClosedForm | src/backend/workerCore.ts:1428-1436 | The first known origin, or payload+rpc as soon as a later one given differs, even `unknown` |
| SignalMerge.SourceClosedForm | src/backend/workerCore.ts:1363-1365 | rpc_reconcile if and only if some entry is |
| SignalMerge.RemergeExactly | src/backend/workerCore.ts:1339-1439 | Merging a merged record with later entries equals merging the whole list exactly when no empty wallet text is dropped for good |
| SignalMerge.RemergeOfAddresses | src/backend/workerCore.ts:1339-1439 | So it always does for entries whose wallet fields are absent or non-empty |
| SignalMerge.EmptyTextIsLost | src/backend/workerCore.ts:1368-1372 | An input with an empty wallet text for which it does not |
| WalletCache.CacheRefinesLookup | src/backend/workerCore.ts:701-741 | For separator-free fields the cache answers as a lookup by address and unordered token list: the last value written since the last invalidation of the address, less than 30 000 ms ago |
| WalletCache.MissesUntilRewritten | src/backend/workerCore.ts:734-741 | After an invalidation every read for the address misses until that query is written again |
| WalletCache.KeysAgree | src/backend/workerCore.ts:701-710 | Two keys are equal exactly for equal address and equal tokens in any order |
| WalletCache.PrefixIsAddress | src/backend/workerCore.ts:734-741 | A key starts with an address and the separator exactly if it is a key of that address |
| WalletCache.Cache.Read | src/backend/workerCore.ts:712-722 | Expired entries miss and are deleted |
| WalletCache.Cache.Write | src/backend/workerCore.ts:724-732 | The entry expires 30 000 ms after the write |
| WalletCache.Cache.Invalidate | src/backend/workerCore.ts:734-741 | The scan deletes exactly the keys with the prefix |
| TextSort.SortedEqual | src/backend/workerCore.ts:705-708 | Two lists sort alike exactly if they hold the same strings equally often |
| AccountPicker.GetAvailableAccount | src/backend/userStore.ts:1256-1325 | An account is returned exactly if the request is tradable and some account has rested, may trade the pair and can pay; the one returned does, and of all that do its last trade is the earliest, then its creation, then its id |
| AccountPicker.EligibleExactly | src/backend/userStore.ts:1296-1316 | For a positive amount the scan’s tests pass exactly if the cooldown is over, the capability is blank or names the pair, SOL is at least 0.01, and the balance pays: the first entry of the base mint for a sell, USDC for a buy against it, any of the quote mint for another buy |
| AccountPicker.PaysExactly | src/backend/userStore.ts:183-233 | The balance tests on the wallet’s fields; the test for some balance of the pair never decides |
| AccountPicker.FirstEntryCounts | src/backend/userStore.ts:196-211 | The balance of a mint is that of its first entry, zero without one |
| AccountPicker.SecondsOrMilliseconds | src/backend/time.ts:9-11 | From September 2001 on a moment in seconds and in milliseconds is the same time |
| AccountPicker.PickIsUnique | src/backend/userStore.ts:163-180 | Unique ids leave one such account |
| AccountPicker.CompareIsTotalOrder | src/backend/userStore.ts:163-180 | The comparator is a total order: antisymmetric, transitive and zero only on equal keys |
| AccountPicker.NeverTradedOrder | src/backend/time.ts:9-11 | An account that never traded comes before a traded one exactly if the trade’s time is positive, or 0 with the account the older one; the comparator itself would put a missing time first |
| AccountPicker.Sorted | src/backend/userStore.ts:455-468 | The candidate order is a permutation sorted by the comparator |
| AccountPicker.CooldownDropsASuffix | src/backend/userStore.ts:1296-1300 | In the sorted order, behind a candidate that is cooling down all are |
| AccountPicker.NotPickedSince | src/backend/userStore.ts:163-180 | From a pick on, every account not picked since is less recently used than the picked one |
| AccountPicker.ConsecutivePicksDistinct | src/backend/userStore.ts:1256-1325 | With k always eligible accounts and a later time logged after each pick, any k consecutive picks are distinct |

## Left out

- Floating-point rounding, NaN and infinities: amounts are reals.
- Planner: the notes of an intent, the texts of errors, symbol normalization, and loading the account pool from the database.
- Directives: parsing and lower-casing of objective names, event ids, reasons and log entries; the objective is a value.
- Actor loops: channels, lagging subscribers and the per-run progress counters, which no other state depends on.
- Queue: attempt signatures, error texts and times; storage failures inside an operation; per-user permissions; a status text other than executed or failed from an executor.
- Queue: plans are arbitrary intent lists, so the laws hold for every planner; the planner's own laws are not repeated there.
- Holder tables: sources, first and last seen times, wallet snapshot columns, shard cursors over program ids and owner prefixes, and writing in chunks of 100.
- `HolderDrift.LostDeltasStayLost`: amounts that go down after a call was cut off are not covered, since the clamp at zero may then hide part of the loss.
- `Overdraw.PlanOverdrawPredicted`: for several accounts the volume cycled is known beforehand only up to half of 10⁻⁶, because where the loop stops within its tolerance depends on how the hint divides the balances; from the volume itself `Overdraw.PlanSpends` is exact.
- Holder driver: the provider-specific full sync, and the fallback to the one-shot sync when a finalized run shows no active holder.
- Holder pages, their change tokens and the outside-holder queries: a checksum match proves no equality.
- RPC: provider detection from the URL, parsing of Retry-After, classification of error texts, and the cooldowns a failing request pushes; a cooldown is any call in `RpcSlots`.
- RPC timers: a timer that fires early is not modelled; a wait ends at or after its slot.
- Second copy of the detail merge (src/backend/workerShared.ts:1015): it merges two records, the later one always winning.
- `WalletCache.CacheRefinesLookup`: assumes a clock that does not run backwards and fields without `|` and, for networks, `:`.
- Token market cache: the same read and write with a different key.
- `AccountPicker.ConsecutivePicksDistinct`: the pool of accounts is fixed and all stay eligible, as the fairness argument needs.
- Account picking: the default token pair read from the settings, and the row fields an answer carries besides the account.
- Account lists with balances and buy-capacity summaries: counters over one pass.
- HTTP, Solana and Jupiter calls, cryptography, sessions, routing and the user interface.
