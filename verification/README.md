# Validator stake decisions, modelled and proved

The system observes Solana validators again and again, keeps what it saw in database
tables, and turns it into stake targets.  This project models the parts of it that
compute something and proves what they promise for every input, every run of snapshots
and every interleaving.

## The parts

| module | what it models |
|---|---|
| `Score`, `AlgoSet` | scaling and weighing the score components, and choosing the best validators with ties |
| `Rounding`, `VemndePool`, `PowerOrder`, `StakeTargets`, `Allocation` | the capped pool of veMNDE votes with its redistribution loop, and the split of the stake into targets |
| `Superminority` | the accumulation that finds the superminority, and the flags made from it |
| `UptimeLog`, `UptimeHistory` | the interval table that every performance snapshot extends, truncates or adds to, and what it means over whole runs |
| `ChangeLog`, `CommissionReport` | the deduplicating logs of commissions and versions, and the report of commission changes |
| `CloseEpoch`, `EpochRuns` | the epoch record, the observed commissions and the uptimes of a closed epoch; runs of snapshots and closings |
| `EpochRanks` | the ranks of validators within an epoch |
| `QueryText` | the builders of INSERT and UPDATE statements with numbered placeholders |
| `ChunkedUpsert`, `JitoStore`, `ValidatorStore` | storing snapshots in chunks of updates followed by inserts |
| `CollectionGate` | the check that decides whether to collect, over runs of check, collect and store |
| `ScoreLoader` | the concurrent loader with its semaphore, its tasks and its channel |
| `SelfStake` | the self stake that is fetched page by page, with the bonds added |
| `Sequences`, `Products`, `Wrappers` | filtering, summing, stable sorting; multiplication of reals; optional and failing results |

Code that changes things step by step is a class or a method with the same loop and
branches, proved against a specification function or relation; the theorems are lemmas
about that specification.  A table is a sequence of rows.  A sort of the source is
`StableSort`; `StableSortUnique` shows that it is the only result a stable sort can have.
Iteration over a hash map is a choice of an arbitrary remaining key, so every result is
proved for every order.  A query that leaves a choice open among equally new rows is a
relation, and the choice disappears for snapshots in the order of time.

## What the proofs brought to light

Each of these is stated with the exact condition under which the promise holds, with an
input that shows where it does not, or with both.

* **Targets do not add up to the stake.**  `scripts/scoring.R:263` divides the powers by
  a total that includes the overflow, and line 269 takes the overflow out of the budget
  once more.  With overflow share `o` the targets miss
  `TOTAL_STAKE * STAKE_CONTROL_VEMNDE * o * (1 - o)`.  `StakeTargets.WholeStakeTargeted`
  and, from the votes on and with the rounding and the cap of the script,
  `Allocation.ScriptTargetsWholeStake` say exactly when nothing is missed: all votes fit
  under the cap, none counts, or they control nothing.  `Allocation.StakeLost` is an
  input that loses 200000 of 4000000.
* **Rounding in the loop does not change how much is left over.**  The pool leaves over
  exactly the votes that do not fit under the cap, as it would without rounding
  (`VemndePool.PoolWaterLevel`), although it shares them out unevenly.
* **Rounding undoes the descending order of the powers**, but only between validators with
  equal capped votes.  Of four voters with 104, 5, 5 and 5 votes and a cap of 100 the
  second to last ends one above the one before it (`PowerOrder.RoundingLosesOrder`).
  `PowerOrder.PoolOrder` says when the order survives.
* **The superminority flag can mark more validators than the superminority has.**
  `glossary.md:97` calls it the lowest number of validators with more than a third; all
  validators that tie with the last one are flagged.  `Superminority.FlagsMarkSmallestSet`
  and, on the stakes alone, `Superminority.FlagsSmallestUnlessTied` give the condition,
  `Superminority.TiesFlagTooMany` an input.
* **A Jito entry can get lost.**  The existing rows are selected by the key of the file and
  the epoch of the snapshot, the update matches the vote account and the epoch that the
  entry itself carries (`store/src/validators_jito.rs:127-194`), and a key with a row is
  never inserted.  `JitoStore.EntryOfEpochArrives` gives the condition and
  `JitoStore.LostCommission` the inputs.  Two entries of one vote account can even give the
  table two rows with one key (`ChunkedUpsert.StoredUnique`, `JitoStore.TwoRows`).  The
  collector files every entry under its vote account and with one epoch
  (`collect/src/validators_jito.rs:296-311`), and then storing is a plain map upsert.
* **Closing an epoch without a duration fails** when a validator of it has down rows: the
  statement divides by zero (`CloseEpoch.Database.UpdateUptimes`).  One snapshot in the
  epoch and no record of the epoch before are enough (`CloseEpoch.OneSnapshotFails`).  The
  record is there by then, so the epoch can never be closed again
  (`CloseEpoch.FailedCloseIsFinal`).
* **The coordinates are swapped twice** (`store/src/dto.rs:144-145` and the parameter order
  in `store/src/validators.rs:142-143` and `264-265`), so they do arrive in their own
  columns (`ValidatorStore.CoordinatesArrive`).

## Model

| member | source | states |
|---|---|---|
| Score.NormalizeKeepsOrder | scripts/scoring.R:5-7 | min-max scaling keeps the order in both directions, gives values between 0 and 1, and reaches 0 and 1 exactly at the lowest and highest value |
| Score.NormalizeIsLinear | scripts/scoring.R:5-7 | a scaled value times the range is the distance from the lowest value |
| Score.NormalizeIgnoresUnits | scripts/scoring.R:5-7 | changing the unit and the origin of a component does not change its scaled column, nor whether it is undefined |
| Score.ScoreMonotone | scripts/scoring.R:86-91 | a validator at least as good in every component scores at least as much |
| Score.ScoreInRange | scripts/scoring.R:86-91 | scores lie between 0 and 1 |
| Score.ComponentsCount | scripts/scoring.R:86-91 | each component counts with its own weight: what it gains, times its part of the weights, is what the score gains |
| Score.ScoreAll | scripts/scoring.R:78-91 | every validator has the weighted score of its scaled components, between 0 and 1; less concentration, fewer skipped slots and more credits never score less; undefined exactly when a component is the same for all |
| AlgoSet.LowestScore | scripts/scoring.R:146 | the lowest score of a list, none for the empty list |
| AlgoSet.MarkAlgoSet | scripts/scoring.R:142-151 | the frame is the ranked candidates in the order of their scores, and a candidate is in the set exactly when it is eligible and fewer than N eligible candidates score more |
| AlgoSet.OrderedByScore | scripts/scoring.R:143-144 | sorting by competition rank is sorting by descending score |
| AlgoSet.RankIsPosition | scripts/scoring.R:143-144 | the rank of a candidate is the position, from one, of the first in the frame with its score |
| AlgoSet.FrameHasCandidates | scripts/scoring.R:143-144 | the frame holds every candidate as often as it came, with its account, score and eligibility |
| AlgoSet.MarksSelectBest | scripts/scoring.R:145-151 | comparing with the lowest score of the head marks exactly the candidates with fewer than N better eligible ones |
| AlgoSet.LeftOutScoreLess | scripts/scoring.R:145-151 | every eligible candidate left out scores strictly less than every one in the set |
| AlgoSet.SetIsLargeEnough | scripts/scoring.R:145-151 | the set has at least N members or all eligible candidates |
| AlgoSet.OnlyTiesExceed | scripts/scoring.R:145-151 | without the members that tie with a given one, fewer than N remain above it, so only ties with the lowest score exceed N |
| Rounding.IntegersAreGrid | scripts/scoring.R:228-251 | every monotone rounding to integers that fixes the integers meets what the pool lemmas assume of a rounding |
| Rounding.HalfEvenIsNearestRounding | scripts/scoring.R:251 | rounding halves to even is a rounding to integers and is never off by more than one half |
| Rounding.HalvesGoToEven | scripts/scoring.R:251 | a half goes to the even neighbour |
| Rounding.ExactIsRounding | scripts/scoring.R:251 | not rounding at all also meets what the pool lemmas assume; only then a common factor exists |
| VemndePool.PowerCapValid | scripts/scoring.R:232 | the cap of a scoring run is a rounded value that is not negative |
| VemndePool.DistributeVotes | scripts/scoring.R:227-258 | the imperative computation gives the pool of the specification, in the order of capped votes; no power exceeds the cap share of all eligible rounded votes and the strategy votes by more than one half, and if some voter does, the first power is at most one half below it |
| VemndePool.FrameHasVoters | scripts/scoring.R:227-239 | the frame has one ballot for each voter: its account, its rounded votes if it is eligible, and of them what the cap allows |
| VemndePool.PourOverflow | scripts/scoring.R:241-258 | the loop with its break, its moving weights and its capped increases equals the recursive pouring |
| VemndePool.MovingWeightsSum | scripts/scoring.R:245-247 | the masked weights sum to the power of the validators not yet processed |
| VemndePool.TruncatedIsPoolState | scripts/scoring.R:233-239 | capping and sorting give descending powers between 0 and the cap and an overflow that is not negative, all of them rounded values |
| VemndePool.PourKeeps | scripts/scoring.R:242-258 | from any step on and for any rounding, power plus overflow is conserved, powers stay within 0 and the cap and never fall, nobody without power gets any, and the overflow stays non-negative |
| VemndePool.PoolConserves | scripts/scoring.R:227-258 | over the whole pool powers and overflow add up to the valid votes, for any votes and any rounding, within the same bounds |
| VemndePool.LastPositiveAtCap | scripts/scoring.R:247-257 | if overflow is left, the last validator with power sits exactly at the cap |
| VemndePool.ShareReachesAverage | scripts/scoring.R:251 | the largest weight ends, with its share, at or above the even share of all |
| VemndePool.Overfull | scripts/scoring.R:242-258 | more votes than fit, any rounding: from any step on everybody with power is filled to the cap and the rest is left over |
| VemndePool.Underfull | scripts/scoring.R:242-258 | no more votes than fit, rounding to integers: nothing is left over |
| VemndePool.Leftover | scripts/scoring.R:242-258 | with rounding to integers or none, what is left over is exactly what does not fit |
| VemndePool.PoolNearLevel | scripts/scoring.R:227-258 | with rounding to nearest, the validators at the cap gain nothing, and if none of the others reaches it, each of them ends within one half per validator processed of the level that would spend the overflow on them evenly |
| VemndePool.PoolLeftover | scripts/scoring.R:227-258 | for any rounding: more votes than fit put everybody with power at the cap and leave exactly the rest over; and leftover overflow puts the last validator with power at the cap |
| VemndePool.WaterLevel | scripts/scoring.R:242-258 | without rounding some factor of at least one scales every capped vote unless the cap stops it; with rounding there is no common factor (RoundingLosesOrder), see PourNearLevel |
| VemndePool.PoolWaterLevel | scripts/scoring.R:227-258 | from the votes on, with any rounding to integers or none: the overflow left is exactly what does not fit under the cap of the validators with power, and if any is left they are all at the cap; without rounding moreover one factor |
| VemndePool.RoomIsCapPerValidator | scripts/scoring.R:232-233 | what fits is the cap times the number of validators with power |
| VemndePool.CutAtCap | scripts/scoring.R:232-239 | if any votes were cut, the first power is the cap |
| PowerOrder.PourNearlyDescending | scripts/scoring.R:242-258 | with rounding to nearest integers a validator ends at most one above its predecessor, and not above it unless their capped votes were equal |
| PowerOrder.PoolOrder | scripts/scoring.R:227-258 | the descending order of the powers survives without rounding, and with any rounding when there are more votes than fit; with rounding to nearest integers it survives if and only if no two neighbours with equal capped votes come out of order |
| PowerOrder.RoundingLosesOrder | scripts/scoring.R:232-258 | four voters with 104, 5, 5 and 5 votes and a cap of 100 end with 100, 6, 7 and 6 |
| StakeTargets.SplitStake | scripts/scoring.R:260-278 | the step-by-step split gives the budgets and targets of the specification, and the budgets add up to the total stake |
| StakeTargets.BudgetsSum | scripts/scoring.R:269-273 | the three budgets are the whole stake in every branch |
| StakeTargets.PowerSharesSum | scripts/scoring.R:261-267 | the scaled powers add up to one less the overflow share |
| StakeTargets.MsolSharesSum | scripts/scoring.R:199-205 | the mSOL shares add up to one when any vote is valid, and to nothing otherwise |
| StakeTargets.RoundedColumnSum | scripts/scoring.R:275-277 | rounding the parts of a budget errs by at most one half per validator |
| StakeTargets.UnroundedTotal | scripts/scoring.R:260-278 | without rounding the sum of the targets is the stake less exactly T * cv * o * (1 - o) |
| StakeTargets.TargetsSum | scripts/scoring.R:260-278 | with a rounding to nearest the targets sum to the stake less that shortfall, within three halves per validator |
| StakeTargets.WholeStakeTargeted | scripts/scoring.R:260-278 | nothing falls short exactly when there is no stake, no veMNDE control, no power, or no overflow |
| StakeTargets.TargetBounds | scripts/scoring.R:260-278 | no target is negative, and a validator without power, valid mSOL votes and score in the set gets none |
| StakeTargets.TargetIsSum | scripts/scoring.R:260-278 | a target is, each rounded once, the part of all valid veMNDE votes in what they control less the overflow, the part of the scores in what is left for them, and the part of the valid mSOL votes in what those control |
| StakeTargets.MsolOnlyTarget | scripts/scoring.R:271-278 | with only mSOL votes a target is the part of the valid mSOL votes in the stake times their control, exactly or within one half |
| StakeTargets.ScoreOnlyTarget | scripts/scoring.R:270-278 | with only a score a target is the part of the scores in what is left for them, exactly or within one half |
| StakeTargets.ScoreStakeIs | scripts/scoring.R:269-273 | what is left for the scores is what neither kind of votes controls, the overflow part of the veMNDE control, and the mSOL control if there are no mSOL votes |
| StakeTargets.ScoresShareAll | scripts/scoring.R:277 | the parts of all scores in a stake make up the stake |
| StakeTargets.ScoresInProportion | scripts/scoring.R:277 | without rounding, validators with nothing but a score are targeted in proportion to their scores |
| Allocation.RunOverflowShare | scripts/scoring.R:227-267 | the overflow share of a run is the part of all valid votes that was left over, which is the part that does not fit under the cap, and 1 when nobody has power |
| Allocation.RunTotal | scripts/scoring.R:227-278 | from the votes on, with rounding halves to even, the targets sum to the stake less the shortfall within three halves per validator |
| Allocation.RunTargetsWholeStake | scripts/scoring.R:227-278 | from the votes on: without rounding the targets sum to the stake if and only if no stake is controlled by votes, no vote counted, or all votes fit under the cap; with rounding to nearest that condition makes them sum to it within three halves per validator |
| Allocation.RunShortfall | scripts/scoring.R:227-278 | for any rounding to integers or none, the shortfall is zero exactly under that condition |
| Allocation.ScriptTargetsWholeStake | scripts/scoring.R:227-278 | the same for a run of the script with its own cap and rounding halves to even: the targets sum to the stake less a shortfall, within three halves per validator, and the shortfall is zero exactly under that condition |
| Allocation.StakeLost | scripts/scoring.R:227-278 | one validator over its cap makes 200000 of 4000000 disappear |
| Allocation.OnlyClaimsGetStake | scripts/scoring.R:148-278 | from the marked candidates and both kinds of votes: no target is negative, and a validator outside the algo set without votes that count gets no stake |
| Allocation.InSetMeansSelected | scripts/scoring.R:142-151 | being in the algo set there means being eligible with fewer than N better eligible candidates |
| Allocation.ColumnsAre | scripts/scoring.R:199-277 | on the candidacy and both kinds of votes of a validator: its power lies between its capped eligible votes and the cap, its mSOL votes count if eligible, and its score if it is in the set |
| Superminority.MinimumSuperminorityStake | collect/src/solana_service.rs:164-186 | the loop returns the least stake of the greedy prefix, and 0 without validators |
| Superminority.FlagValidators | collect/src/validators.rs:220-261 | every validator is flagged exactly when it needs no more stake to be in, and otherwise the stake to become superminority is exactly what it lacks |
| Superminority.GreedyIsBest | collect/src/solana_service.rs:172-183 | any set of at most m validators holds at most what the m largest hold |
| Superminority.NoSmallerSet | collect/src/solana_service.rs:164-186 | no set with fewer validators than the accumulated prefix holds more than a third of the stake |
| Superminority.SizeIsReached | collect/src/solana_service.rs:164-186 | a set with exactly that many validators does |
| Superminority.FlagsStraddleAThird | collect/src/validators.rs:259-261 | validators strictly above the returned stake hold at most a third together, the flagged ones hold more |
| Superminority.FlagsMarkSmallestSet | collect/src/validators.rs:259-261 | the flagged set is as small as the superminority exactly when it would lose its third without one validator of the returned stake |
| Superminority.FlagsSmallestUnlessTied | collect/src/validators.rs:259-261 | it is so exactly when no stake of a validator has at most a third above it while it and everything above hold more than a third even without one validator of that stake |
| Superminority.TiesFlagTooMany | collect/src/validators.rs:259-261 | of four equal validators two suffice and four are flagged |
| UptimeLog.UptimeTable.NewestRows | store/src/uptime.rs:48-63 | one row of each validator in the table, with the greatest end among its rows |
| UptimeLog.UptimeTable.Extensions | store/src/uptime.rs:64-88 | which validators are extended, and the new end of exactly the newest rows that are in reach |
| UptimeLog.UptimeTable.OpenIntervals | store/src/uptime.rs:107-137 | every validator of the snapshot that is not excepted gets one new interval, nobody else changes |
| UptimeLog.UptimeTable.StoreUptime | store/src/uptime.rs:29-141 | storing records one sighting for each validator of the snapshot and leaves all other logs alone |
| UptimeLog.UpdatedLog | store/src/uptime.rs:64-105 | the update by id continues the newest interval of a validator that was seen and no other row |
| UptimeHistory.LogInvariant | store/src/uptime.rs:71-85 | over all runs the intervals of a validator never overlap, and the last one carries the last sighting and ends one minute after it |
| UptimeHistory.NewestIsLast | store/src/uptime.rs:48-60 | the row with the greatest end is unique |
| UptimeHistory.RecordedIsLog | store/src/uptime.rs:64-136 | a sighting has exactly one possible outcome on the log of a history |
| UptimeHistory.RecordedAgain | store/src/uptime.rs:64-136 | recording the latest sighting again changes nothing |
| UptimeHistory.TruthSpeaks | store/src/uptime.rs:40-45 | at most one sighting speaks for an instant: up to the next one if that comes within six minutes, for one minute otherwise |
| UptimeHistory.LookupStep | store/src/uptime.rs:71-85 | one more sighting changes what the log says only from the previous sighting on |
| UptimeHistory.LogDecodes | store/src/uptime.rs:40-136 | at every instant the log gives back the status and epoch of the sighting that speaks for it, and nothing if none does |
| UptimeHistory.CoveredOnce | store/src/uptime.rs:71-85 | no instant lies in two rows |
| UptimeHistory.TotalTime | store/src/uptime.rs:71-85 | if no two sightings are six minutes apart, up time and down time add up to the time from the first sighting to a minute after the last |
| UptimeHistory.SpanIsObserved | store/src/uptime.rs:40-136 | for every history, the rows with some status and epoch cover exactly the time for which the sightings with that status and epoch speak, gaps included |
| UptimeHistory.RowsFromHistory | store/src/uptime.rs:40-136 | every row starts at a sighting of its epoch and ends less than six minutes after one |
| UptimeHistory.DowntimeBound | store/src/uptime.rs:40-136 | the down time of an epoch is less than the time between its first and last snapshot plus six minutes |
| UptimeHistory.StoredEncodes | store/src/uptime.rs:29-141 | storing a snapshot takes the table of a run to the table of the longer run and to no other |
| UptimeHistory.StoredAgain | store/src/uptime.rs:29-141 | storing the latest snapshot again changes nobody's log |
| UptimeHistory.RunDecodes | store/src/uptime.rs:29-141 | after any run an instant lies in a row of a validator exactly when a sighting speaks for it, in one row only, with the status and epoch of that sighting |
| UptimeHistory.RunAnswers | store/src/uptime.rs:21-141 | on the snapshots themselves: if snapshot i is the last that lists a validator until an instant, one row covers the instant, with the delinquency and the epoch of that snapshot, when the validator is listed again in less than six minutes or the instant is within one minute; otherwise no row does |
| UptimeHistory.RunRecordsStatus | store/src/uptime.rs:21-27 | at the time of a snapshot each validator it lists has one row, which is down exactly if the snapshot calls it delinquent |
| UptimeHistory.LogIsCompact | store/src/uptime.rs:71-85 | rows in a row meet and differ in status or epoch, or lie at least five minutes apart |
| ChangeLog.ChangeTable.NewestRows | store/src/commissions.rs:34-46 | one row of each validator in the log, with the latest time |
| ChangeLog.ChangeTable.Skipped | store/src/commissions.rs:48-57 | exactly the validators whose newest row already has the epoch and value of the snapshot |
| ChangeLog.ChangeTable.Insert | store/src/commissions.rs:60-81 | every validator of the snapshot that is not skipped gets one new row, nobody else changes |
| ChangeLog.ChangeTable.Store | store/src/versions.rs:33-74 | storing records one sighting per validator of the snapshot, for any type of value |
| ChangeLog.LogInvariant | store/src/commissions.rs:34-81 | over all runs the log is in order, no two adjacent rows repeat an epoch and value, and the last row says what the last sighting said |
| ChangeLog.RecordedIsLog | store/src/commissions.rs:34-81 | a sighting has exactly one possible outcome on the log of a history |
| ChangeLog.LogIsLossless | store/src/versions.rs:33-74 | at every instant the log answers with the epoch and value of the latest sighting |
| ChangeLog.SightingIsLogged | store/src/commissions.rs:34-81 | the newest row at the time of a sighting carries its epoch and value |
| ChangeLog.LogKeepsValues | store/src/commissions.rs:52-56 | the log has, for every epoch, exactly the values the snapshots had |
| ChangeLog.StoredEncodes | store/src/commissions.rs:34-81 | storing a snapshot takes the table of a run to the table of the longer run and to no other |
| ChangeLog.RunIsLossless | store/src/versions.rs:33-74 | after any run the rows of a validator do not repeat themselves and answer for every instant as the sightings do |
| ChangeLog.RunRecordsValues | store/src/versions.rs:33-74 | on the snapshots themselves: at the time of a snapshot the newest row of every validator it lists has its value and epoch |
| ChangeLog.RunRowsFromSnapshots | store/src/commissions.rs:71-80 | every row is what some snapshot said, with its slot, epoch and time |
| CommissionReport.AccountChanges | api/src/handlers/reports_commission_changes.rs:37-59 | the loop over the sorted records of a validator lists its changes |
| CommissionReport.AllChanges | api/src/handlers/reports_commission_changes.rs:36-60 | the changes of all validators, whatever the order of the map |
| CommissionReport.Report | api/src/handlers/reports_commission_changes.rs:31-68 | the final list is in the order of epochs and slots, and restricted to one validator it is that validator's changes in their own order |
| CommissionReport.ReportChains | api/src/handlers/reports_commission_changes.rs:36-68 | the changes of a validator in the final list lead from its first commission to its last |
| CommissionReport.ChangesAreNeighbours | api/src/handlers/reports_commission_changes.rs:47-59 | the changes are exactly those between neighbouring records, in order, each with its account, both commissions, epoch and slot |
| CommissionReport.ChainLinks | api/src/handlers/reports_commission_changes.rs:48-59 | in such a chain from and to differ in each link, and each to is the next from |
| CommissionReport.LogHasAllChanges | store/src/commissions.rs:52-56 | leaving out repeated rows loses and invents no change |
| CommissionReport.LogReportsAllChanges | api/src/handlers/reports_commission_changes.rs:37-59 | nor does it when the rows are sorted together with other records that do not come between two sightings of one epoch |
| CommissionReport.LogOfWindow | store/src/utils.rs:436 | cutting a window of epochs out of the log is logging the window |
| CommissionReport.LoadedAre | store/src/utils.rs:428-445 | what is read is every logged row of the window as it was, and for every closed epoch of the window with an effective commission that commission at slot 432000 |
| CommissionReport.SameSort | api/src/handlers/reports_commission_changes.rs:37-45 | records with different epochs or slots are sorted into one sequence, in whatever order they were read |
| CommissionReport.ReportOfRun | store/src/utils.rs:423-472 | the list that is returned, read in any order from the log and the closed epochs of a window, is for a validator exactly the changes along all its sightings of the window with the effective commission at the end of every closed epoch |
| CloseEpoch.Database.CreateEpochRecord | store/src/close_epoch.rs:19-70 | without cluster info of the epoch it fails on a null, with a record of the epoch on its key, and otherwise adds the record and changes nothing else |
| CloseEpoch.RecordIs | store/src/close_epoch.rs:29-58 | a record ends at the last cluster info of its epoch and starts at the end of the record before, or without one at the first |
| CloseEpoch.Database.UpdateObservedCommission | store/src/close_epoch.rs:72-102 | each row of the epoch gets a maximum and a minimum that are attained by and bound all commissions logged in the epoch, advertised and effective, null if there are none; nothing else changes |
| CloseEpoch.ObservedOverSnapshots | store/src/close_epoch.rs:76-95 | when the log holds what the snapshots said, those columns are the extremes over all snapshots of the epoch and the advertised and effective commissions |
| CloseEpoch.Database.UpdateUptimes | store/src/close_epoch.rs:104-136 | in the rows of the epoch downtime is the summed length of the down rows, 0 without one, uptime the rest of the duration or 0, and the percentage times the duration is the uptime; nothing else changes; it fails and changes nothing exactly when the duration is zero and a validator has down rows |
| CloseEpoch.Database.UpdateFinalized | store/src/close_epoch.rs:172-244 | for any number of chunks, the rows of the epoch that are listed get their effective commission, other rows stay |
| CloseEpoch.Database.Close | store/src/close_epoch.rs:149-250 | the four statements in order: a record that cannot be made changes nothing; a failure of the uptimes leaves the record and the effective commissions; otherwise all of them are there |
| CloseEpoch.OneSnapshotFails | store/src/close_epoch.rs:108-114 | after one snapshot of an epoch with no record before it, closing the epoch fails if a validator of it was down |
| CloseEpoch.FailedCloseIsFinal | store/src/close_epoch.rs:161-247 | after such a failure every later attempt fails on the key of the record and changes nothing, whatever was collected meanwhile, so the uptimes and observed commissions of the epoch are never stored |
| CloseEpoch.DowntimeIsObserved | store/src/close_epoch.rs:110 | the down time of a validator in an epoch is exactly the time for which its down sightings of the epoch speak, and null exactly without one |
| CloseEpoch.ClosedUptime | store/src/close_epoch.rs:149-250 | after a successful close the three uptime columns account for exactly the time for which the down sightings of the epoch speak |
| CloseEpoch.ClosedCommissions | store/src/close_epoch.rs:149-250 | and the observed commissions are the extremes over all snapshots of the epoch, the advertised one, and the effective one stored just before |
| CloseEpoch.PctMatchesUptime | store/src/close_epoch.rs:112-114 | for a positive duration the percentage times the duration is the uptime, and the uptime lies between 0 and the duration |
| CloseEpoch.RecordCountsGrowth | store/src/close_epoch.rs:31-35 | the transactions of an epoch are the largest growth of the counter between any two of its snapshots |
| CloseEpoch.RecordCovers | store/src/close_epoch.rs:29-58 | every snapshot of the epoch lies within its record, also when the record starts at the end of the one before |
| CloseEpoch.ClosedEpochDowntime | store/src/close_epoch.rs:104-121 | when the same snapshots feed cluster info and uptimes, the down time of a closed epoch is less than its duration plus six minutes |
| EpochRuns.RunInv | store/src/close_epoch.rs:29-58 | in every run of snapshots and closings, in any order, every record of an epoch ends at a snapshot of that epoch |
| EpochRuns.ClosingIsClose | store/src/close_epoch.rs:149-250 | an attempt to close in such a run leaves the records that closing the epoch leaves |
| EpochRuns.RunDowntime | store/src/close_epoch.rs:29-121 | so in every run the record made next spans all snapshots of its epoch, and no validator is down for its duration and six minutes more |
| CloseEpoch.ObservedCommissions | store/src/close_epoch.rs:76-90 | the minimum and maximum over the deduplicated log are those over all snapshots of the epoch |
| EpochRanks.AddAccount | store/src/utils.rs:547-552 | one validator is pushed into the standings of each of its epochs |
| EpochRanks.CollectByEpoch | store/src/utils.rs:545-553 | the standings of every epoch list each validator of it once with its value |
| EpochRanks.FindEpoch | store/src/utils.rs:569-575 | the entry of the epoch is found |
| EpochRanks.RankCounts | store/src/utils.rs:556-576 | length less index plus ties is the number of validators that do at least as well |
| EpochRanks.RankBook.RankEpoch | store/src/utils.rs:555-577 | every validator of the epoch gets that rank, entries of other epochs are left alone |
| EpochRanks.RankBook.UpdateRanks | store/src/utils.rs:538-579 | every entry gets as rank the number of validators of its epoch whose value is at least its own, in any order of the maps, and nothing else changes |
| EpochRanks.RankOrder | store/src/utils.rs:559-576 | ties share a rank and a better value has a strictly smaller one |
| QueryText.PrintRow | store/src/utils.rs:56-63 | the loop prints one row of placeholders numbered after those used before |
| QueryText.InsertQueryCombiner.Add | store/src/utils.rs:54-68 | the statement and the parameters always print the rows added so far |
| QueryText.InsertQueryCombiner.Execute | store/src/utils.rs:70-79 | nothing is sent for no rows, otherwise the statement and its parameters |
| QueryText.UpdateQueryCombiner.Add | store/src/utils.rs:106-123 | the same with type casts |
| QueryText.UpdateQueryCombiner.Execute | store/src/utils.rs:125-140 | nothing is sent for no rows, otherwise the completed statement and its parameters |
| QueryText.ValuesRead | store/src/utils.rs:54-68 | an independent parser reads the printed list back as the rows of placeholders, each with its number and its cast |
| QueryText.CastsInPlace | store/src/utils.rs:114-116 | each placeholder has the cast that its row asks for at its place, and no other has one |
| QueryText.NumbersInOrder | store/src/utils.rs:61 | the placeholders are numbered from one in order, each used once |
| QueryText.BindRows | store/src/utils.rs:65-67 | putting the flat parameters in the place of the numbers gives back the rows |
| QueryText.StatementRoundTrip | store/src/utils.rs:106-123 | parsing and binding what was sent gives exactly the rows that were added |
| ChunkedUpsert.Table.UpdateExisting | store/src/validators_jito.rs:127-194 | for any chunk size the keys of the rows stay, and if no two entries are for one row the chunked updates are one update of all existing rows; the returned accounts are those with a row in the epoch |
| ChunkedUpsert.UpdateRows | store/src/validators_jito.rs:147 | the UPDATE statement joins on the vote account and epoch of the entries; of several that match a row any may win |
| ChunkedUpsert.Table.InsertMissing | store/src/validators_jito.rs:201-230 | for any chunk size the chunked inserts append one row per remaining entry |
| ChunkedUpsert.Table.Store | store/src/validators_jito.rs:105-235 | updates of what exists, then one insert of each of the rest |
| ChunkedUpsert.StoredUnique | store/src/validators_jito.rs:196-230 | the table has unique keys afterwards if and only if the entries to insert carry different vote accounts without a row in the epoch |
| ChunkedUpsert.StoreRefinesMap | store/src/validators_jito.rs:105-235 | the rows after storing hold exactly the map after storing, whenever that has unique keys and one outcome |
| ChunkedUpsert.StoreIsUpsert | store/src/validators_jito.rs:105-235 | when every entry is filed under its own vote account and is of the epoch of the snapshot, that is always so and storing is a plain map upsert |
| ChunkedUpsert.EntryArrives | store/src/validators_jito.rs:127-230 | an entry arrives in the row of its vote account exactly when its key has no row in the epoch, or it is of the epoch of the snapshot and its vote account has a row, or that row already said the same |
| JitoStore.EntryOfEpochArrives | store/src/validators_jito.rs:127-230 | an entry gets into the row of its vote account, whatever the row says, if and only if its key has no row in the epoch, or it is of the epoch of the snapshot and its vote account has a row |
| JitoStore.StoreJito | store/src/validators_jito.rs:105-373 | for MEV and priority fees alike: unique keys exactly for clean inserts, the stored map when there is one outcome, and a map upsert for what the collector writes |
| JitoStore.StoredContent | store/src/validators_jito.rs:237-373 | every validator of the snapshot has its data and slot in its row of the epoch, a row that existed keeps its time of creation, and no other row differs |
| JitoStore.EntryLost | store/src/validators_jito.rs:162-190 | otherwise the rows of its vote account in the epoch are after storing what they were before |
| JitoStore.LostCommission | store/src/validators_jito.rs:144-190 | a snapshot whose commission does not arrive, for every entry of another epoch or another vote account than its key |
| JitoStore.TwoRows | store/src/validators_jito.rs:196-230 | a snapshot with two entries of one vote account that gives the table two rows with one key |
| ValidatorStore.CollectByAccount | store/src/validators.rs:31-40 | the snapshot by vote account |
| ValidatorStore.LastEntryCounts | store/src/validators.rs:31-40 | of several entries of one account the last counts |
| ValidatorStore.StoreValidators | store/src/validators.rs:21-302 | one store is a map upsert of the snapshot under its epoch |
| ValidatorStore.StoredContent | store/src/validators.rs:46-299 | column by column: the six columns of the closed epoch stay, the time of the snapshot is stored, a known version survives an unknown one, every other column holds what was collected last for the account, and nobody else changes |
| ValidatorStore.CoordinatesArrive | collect/src/validators.rs:97-100 | the coordinates packed by the collector arrive each in its own column, updated or inserted |
| CollectionGate.RunInvariant | check/src/validators_jito.rs:27-37 | after any run the newest row of the table tells when the last store was, one epoch behind |
| CollectionGate.NewestIsLastStore | check/src/validators_jito.rs:29-37 | what the query of the check returns is the epoch before the last store and its slot |
| CollectionGate.CheckAfterRun | check/src/validators_jito.rs:41-99 | a check accepts exactly when nothing was stored yet, the last store was in an earlier epoch, or the interval has passed since it |
| CollectionGate.StoresSpaced | scripts/check-collect-store-jito.bash:5-32 | stores are in the order of time and two in a row in one epoch are at least the interval apart |
| CollectionGate.AnyTwoSpaced | scripts/check-collect-store-jito.bash:5-32 | so are any two stores of one epoch |
| CollectionGate.StoresPerEpoch | check/src/validators_jito.rs:69-77 | stores so spaced are at most 1 + (slots - 1) / interval in an epoch |
| CollectionGate.RunStoresPerEpoch | scripts/check-collect-store-jito.bash:5-32 | every run of check, collect and store keeps that bound |
| ScoreLoader.NextInv | store/src/utils.rs:1121-1173 | every step keeps the conservation of permits, one task per epoch, and every message on its way or arrived |
| ScoreLoader.PermitsConserved | store/src/utils.rs:1137-1141 | in every state of every interleaving free and held permits make ten, so at most ten fetches are in flight |
| ScoreLoader.SendNeverFails | store/src/utils.rs:1151 | a send always finds the collector open |
| ScoreLoader.CollectedIsComplete | store/src/utils.rs:1129-1135 | when the collector ends its map holds exactly the epochs whose fetch succeeded, with their own scores, whatever the order of completion |
| ScoreLoader.Progress | store/src/utils.rs:1137-1172 | until the collector has ended some step is possible |
| ScoreLoader.EveryStepCounts | store/src/utils.rs:1137-1172 | every step leaves less to do |
| ScoreLoader.RunsEnd | store/src/utils.rs:1137-1172 | no run has more steps than there is work in the initial state |
| ScoreLoader.FinishedRun | store/src/utils.rs:1127-1173 | a run that no step can extend has ended the collector, with exactly the epochs whose fetch succeeded |
| SelfStake.ProcessAccounts | collect/src/solana_service.rs:520-551 | after a page the table holds the matching effective stake of the accounts so far |
| SelfStake.FetchSelfStake | collect/src/solana_service.rs:569-598 | after all pages it holds that of the pages one after another |
| SelfStake.PagesCountOnce | collect/src/solana_service.rs:479-488 | the 256 pages together count every stake account of the chain once |
| SelfStake.OnChainCounts | collect/src/solana_service.rs:520-562 | an account counts its effective stake for a validator if it has the size of a stake account, is delegated to it, and its withdrawer is the withdraw authority of that validator |
| SelfStake.BondsCount | collect/src/solana_service.rs:469-475 | a bond counts its funded amount for its vote account |
| SelfStake.AddBonds | collect/src/solana_service.rs:443-476 | the errors in their order; without one, every validator has its stake plus all its bonds |
| SelfStake.GetSelfStake | collect/src/solana_service.rs:426-477 | on success every vote account gets the effective stake of all matching accounts, each once, plus its bonds; it fails exactly when nothing counts or the bonds cannot be added |

## Left out

- Remote calls, BigQuery, HTTP, YAML files and the execution of SQL: the chain, the tables and the snapshots are inputs, and a statement is modelled by its effect on rows.
- Floating point: scores, votes and stakes are reals, and a quotient of zero by zero is an absent value; rounding enters only where the script rounds.
- Overflow of 64-bit integers: `Superminority.MinimumSuperminorityStake` and `Superminority.FlagValidators` require the total stake to fit; other sums are unbounded.
- UptimeLog.UptimeTable.StoreUptime: the serial id of a row is its position, gaps in the sequence are not modelled; times are whole microseconds.
- CollectionGate.CheckAfterRun: the `epoch` option that overrides the epoch of a collection and empty collections are not part of the runs; the decimal subtraction of slots is the plain one, since it saturates far outside their range.
- CloseEpoch.Database.CreateEpochRecord: supply and inflation are copied through by the source and have no column here.
- CloseEpoch.Database.UpdateFinalized: of the finalized columns only the effective commission, which the later statements read; credits, slots, blocks and skip rate are copied beside it.
- EpochRanks.RankBook.UpdateRanks: one ranked field stands for any field with its updater; the conversion of fractions to fixed point before ranking is not modelled.
- CommissionReport.ReportOfRun: the times of an epoch that are joined to the records, which the report does not show; slots within an epoch must increase with the snapshots and stay below 432000, as they do on the chain.
- SelfStake.AddBonds: bond amounts are whole lamports; decoding of stake accounts and the stake history are an input, the effective stake.
- ScoreLoader: a panic of a task and a failing acquire of a closed semaphore, neither of which the program causes; the body of a fetch is an outcome per epoch.
- Eligibility and its hints, the blacklist and version comparison: a boolean per validator; the ranks of single score components, which repeat the ranking of the score.
- QueryText.StatementRoundTrip: a cast is assumed not to contain a comma or a closing parenthesis, which holds for all casts the program uses.
- The yield estimates with their exponents, the long analytic queries, the readers of last Jito info, API handlers other than the report, caches, metrics and documentation pages.
