# Key scheduling, persistence and failover of the gateway: verified model

The gateway forwards requests to upstream vendors with keys it manages. This project models the parts of it whose
correctness spans many operations, and proves what they promise. Every file is one component; the mutex-protected
critical sections of the program are the atomic steps of the model.

* `smooth_round_robin`, `machine_weights`, `aggregate_pool`: how an aggregate picks a child vendor, with the exact distribution
  theorem and the range in which 64-bit arithmetic keeps to it.
* `runtime_stats`, `stats_handle`, `runtime_stats_handle`: counters, the five-sample ring and its cached costs.
* `key_record`, `backoff`: one key's health and history, and how long verdicts keep it out of use.
* `pool_model`, `pickers`, `ranking`, `pool`: what the seven strategies promise, their scan loops, what they rank by, and the
  pool object whose key states are shared by router generations.
* `fairness`, `generations`: statements over whole runs of picks, settlements and reloads.
* `file_store`, `status_queue`, `replace_protocol`, `replace_limits`, `straddling_reads`, `async_store`: the key file, the
  write-behind queue of status changes, the interleavings of a key-list replacement with the flush worker and the runs that
  lose a disable, reads that are overtaken between their two locked sections, and the object that implements them.
* `stats_persister`, `stats_registry`: delta accounting across flush failures and resets.
* `key_policy`, `request_trace`, `retry_trace`, `failover`: how an outcome is classified, and the nested retry loops with the
  trace they leave, in which every retry and every failure handed to the client has its reason.
* `idle_timeout`, `url_path`: the timed response body, and the decoded and escaped forms of a path.

Where the program changes state in place the model is a class or a method, and its `ensures` tie the new state to a
function of the old one; runs, conservation and fairness are proved about those functions. The clock is an integer
that a caller passes in or a step advances, random draws and the outcome of storage and of upstream calls are arbitrary,
and Go floats are exact reals. `dafny verify dfyconfig.toml` checks everything.

## What the code does not promise

These statements one might expect do not hold. Each is shown by a run or an input, and the exact condition is proved.

* The least-loaded order is that of the ratios only while a load times the other child's weight stays within 64 bits;
  weights have no upper bound (`ChildOrder.LeastScanIsLightestIff`, `ChildOrder.LoadedDisplacesIdle`).
* The aggregate schedule is exact only while its sums stay within 64 bits: for two children exactly up to two thirds of
  2^63 in total (`MachineWeights.TwoChildrenExactIff`), for n entries at least while n times the total fits and never
  once the total itself does not (`MachineWeights.SmallWeightsAreExact`, `MachineWeights.TotalMustFit`). Of two children
  of weight 2^62 the second is never picked (`MachineWeights.SecondChildStarves`).
* An escaped slash can become a literal one, or disappear, when a rewrite rule matches across it
  (`UrlPath.EscapedSlashCanBecomeLiteral`, `UrlPath.EscapedSlashesSurviveIff`).
* A disable that is queued for a vendor after `Replace` took its snapshot of pending updates, and before its last locked
  section, is dropped (`ReplaceLimits.LateDisableIsDropped`, `ReplaceProtocol.QueuedSurvivesReconcileIff`).
* A queued disable is always kept exactly when it names the stored version (`ReplaceLimits.KeptExactlyWhenCurrent`). One
  of an older version takes the place of a current one and hides it: the second of two attempts that fail around a
  replacement leaves the key active (`ReplaceLimits.SecondDisableLoses`, `ReplaceLimits.FurtherDisableKeptIff`).
* Writing an update the worker already holds shows to readers when another update of the same version with other content
  took its place in the queue (`StatusQueue.WriteCanShow`, `StatusQueue.WorkerShowsExactly`).
* A list of keys is not read at one instant: records are fetched first and the queue is laid over them afterwards. A key
  that is disabled all the time is listed as active when the worker writes its update and removes it in between
  (`StraddlingReads.StraddlingReadMisses`). For keys that callers leave alone such a read is right exactly when the updates
  that covered the fetched records are still queued, and looking at the queue first would always be right
  (`StraddlingReads.StraddlingReadIff`, `StraddlingReads.KeyReadAcross`). What is reported after `Replace` has the same gap
  (`StraddlingReads.StraddlingReportIff`).
* A key that joins a running persister with stored statistics has them counted twice
  (`StatsPersister.JoinedKeyIsConservedIff`).
* A key that is removed and added again disagrees with its old, non-empty sample window
  (`KeyRecords.ReaddedKeyCanDisagree`, `KeyRecords.ReaddedKeyAgrees`).
* A read can expire although the upstream had answered in time, exactly when its goroutine reaches the lock no earlier
  than the timeout (`IdleTimeout.AnsweredReadExpiresIff`).
* A reload under which a vendor keeps its id and loses its pool, as when it becomes an aggregate, neither shares nor retires
  its keys. They can still be acquired and disabled through the router that requests hold, and a later pool has second
  states of them (`Generations.DroppedKeyIsAcquired`). Unpublished keys are out of reach exactly while no reload has
  done that to published ones (`Generations.ContainedIff`, `Generations.UnpublishedAcquiredIff`).
* Recovering a key is no new version, so an attempt acquired before can disable it again (`Generations.RecoveryIsNotAVersion`).

## Model

| member | source | states |
|---|---|---|
| SmoothRoundRobin.ClosedForm | internal/gateway/gateway.go:129-150 | After t picks over a fixed candidate set an entry's current weight is t times its weight minus W times the picks it got: what it was owed less what it was served. |
| SmoothRoundRobin.CurrentWeightsSumToZero | internal/gateway/gateway.go:129-150 | Whatever candidate set each pick had, the current weights always sum to zero. |
| SmoothRoundRobin.SumNext | internal/gateway/gateway.go:129-150 | One pick over any candidates conserves the sum of all current weights. |
| SmoothRoundRobin.PrefixBound | internal/gateway/gateway.go:129-150 | In every prefix of t picks an entry chosen n times satisfies W*n < t*w + W. |
| SmoothRoundRobin.StaysWithin | internal/gateway/gateway.go:129-150 | With n entries and total weight W no value on the way of the exact schedule leaves the range above -W and up to n*W. |
| SmoothRoundRobin.BackToZero | internal/gateway/gateway.go:129-150 | After W picks every current weight is zero again. |
| SmoothRoundRobin.FullCycle | internal/gateway/gateway.go:129-150 | W picks from the all-zero state choose each entry exactly as often as its weight. |
| SmoothRoundRobin.ExactDistribution | internal/gateway/gateway.go:129-150 | Any W consecutive picks, wherever they start, choose each entry exactly as often as its weight and return the state to where it was. |
| SmoothRoundRobin.LargestIsFirst | internal/gateway/gateway.go:138-147 | The picked candidate carries the largest raised weight, and no earlier candidate carries as much. |
| MachineWeights.FitsIsExact | internal/gateway/gateway.go:129-150 | While no value of one pick leaves the 64 bits, the pick and the weights it leaves are the exact ones. |
| MachineWeights.SmallWeightsAreExact | internal/gateway/gateway.go:129-150 | The 64-bit schedule of n entries with total weight W is the exact one for ever while n*W is below 2^63. |
| MachineWeights.TotalMustFit | internal/gateway/gateway.go:129-150 | If the total weight does not fit 64 bits, the very first pick leaves another state than the exact schedule, whatever the candidates. |
| MachineWeights.WrappedTotalSticks | internal/gateway/gateway.go:133-135 | If the wrapped total is not positive, every pick is the first candidate and no weight ever moves. |
| MachineWeights.TwoChildrenExactIff | internal/gateway/gateway.go:129-150 | All pairs of weights with a total up to a bound B are scheduled exactly for ever if and only if B - 1 + B/2 is below 2^63. |
| MachineWeights.SecondChildStarves | internal/gateway/gateway.go:133-135 | Of two children of weight 2^62 the first is picked every time, though the exact schedule owes each its weight in every W picks. |
| ChildOrder.CompareIsExact | internal/gateway/gateway.go:215-232 | While neither 64-bit product wraps, the comparison gives the order of load per weight; a non-positive weight counts as one. |
| ChildOrder.CompareIsExactIff | internal/gateway/gateway.go:215-232 | For two weights, all scores up to a bound are ordered by their ratios if and only if the larger weight cannot take the bound past the 64 bits. |
| ChildOrder.PrecedesIsLighter | internal/gateway/gateway.go:174-202 | While no product wraps, a child displaces another exactly when it is lighter: by load per weight, then the second load, the larger weight and the name. |
| ChildOrder.PrecedesIsLighterIff | internal/gateway/gateway.go:174-202 | For two weights this holds for all loads up to a bound if and only if the larger weight cannot take the bound past the 64 bits. |
| ChildOrder.ScanStep | internal/gateway/gateway.go:174-202 | While no product wraps, the displacing relation is negatively transitive, which makes one left-to-right scan find a minimum. |
| ChildOrder.LeastScanIsLightest | internal/gateway/gateway.go:174-202 | While no product wraps, the scan over any candidates stops at the first one that no other is lighter than. |
| ChildOrder.LeastScanIsLightestIff | internal/gateway/gateway.go:174-202 | For two children of given weights the scan finds the lightest under all loads up to a bound if and only if the larger weight cannot take the bound past the 64 bits. |
| ChildOrder.LoadedDisplacesIdle | internal/gateway/gateway.go:222-223 | A load whose product with the other weight wraps is taken for less than nothing, and the loaded child is picked over an idle one. |
| AggregatePool.StableSortSorted | internal/gateway/gateway.go:91-114 | The entries of a new pool are ordered by priority. |
| AggregatePool.StableSortTier | internal/gateway/gateway.go:91-114 | Sorting keeps every priority tier as configured: nothing is lost, added or reordered inside a tier. |
| AggregatePool.NormalizedKeeps | internal/gateway/gateway.go:91-99 | A configured weight is kept if it is positive and counts as one otherwise; id, name and priority stay. |
| AggregatePool.Pool.constructor | internal/gateway/gateway.go:91-114 | A new pool holds the stably sorted entries with all current weights zero. |
| AggregatePool.Pool.PickRoundRobin | internal/gateway/gateway.go:129-150 | The loop makes one step of smooth weighted round-robin in wrapping arithmetic on the given candidates and touches no other weight; while nothing wraps it is the exact step. |
| AggregatePool.Pool.PickRandom | internal/gateway/gateway.go:153-172 | The draw selects the entry that owns it among consecutive ranges as wide as the weights; without a positive total it indexes the candidates. |
| AggregatePool.Pool.PickLeast | internal/gateway/gateway.go:174-202 | The loop is the scan over the candidates with wrapping products; while none wraps, no candidate has a smaller first load per weight, then second load per weight, then larger weight or smaller name; the first load is what is in flight, or all requests with those in flight. |
| AggregatePool.Pool.Candidates | internal/gateway/gateway.go:255-300 | One scan collects exactly the eligible entries of the best priority that has any. |
| AggregatePool.Pool.HasAvailable | internal/gateway/gateway.go:249-253 | True exactly when some entry is eligible. |
| AggregatePool.Pool.PickAvailable | internal/gateway/gateway.go:239-300 | Nothing is picked exactly when nothing is eligible; otherwise a child of the best tier by one wrapping round-robin step, the owner of the draw, or the scan for the least loaded, as configured. |
| RuntimeStats.NormalizeErrorIdempotent | internal/keystore/store.go:212-224 | Normalized error texts are trimmed and at most 240 characters long, and normalizing one again changes nothing. |
| RuntimeStats.DeltaRoundTrip | internal/keystore/store.go:234-281 | Applying the delta since a baseline to that baseline restores the counters always, and the whole record exactly when a new error came with a request and the window was not emptied. |
| RuntimeStats.InterruptedCountIsExact | internal/keystore/store.go:226-228 | The derived interrupted count is the true number of interruptions exactly when every failure fell into one of the error counters. |
| RuntimeStats.CountersTell | internal/balancer/runtime_stats.go:100-153 | Over any attempts each counter grows by the number of attempts of its kind: successes, 401, 403, 429, and every other error or failed call. |
| SampleWindow.WindowRefinesHistory | internal/balancer/performance.go:46-84 | After any history of samples, gaps and resets the window is the last five attempts since the last five-minute gap or reset. |
| SampleWindow.CachesAreCurrent | internal/balancer/performance.go:46-144 | After any history the summary and the three cached costs equal those recomputed from the window, and the lock-free total equals the locked one. |
| SampleWindow.AllFailedCostsMost | internal/balancer/performance.go:88-144 | Under each of the three cost measures an all-failed window costs strictly more than any window of at most five samples with a success, and than no samples. |
| Ranking.SummaryAverages | internal/balancer/performance.go:61-82 | The displayed summary of a window counts its samples and successes and averages the recorded header and response times. |
| Ranking.FirstSampleDecides | internal/balancer/performance.go:46-84 | After a gap or reset a first success is judged by its own header and response time, a first failure fails the window and shows as 999 seconds. |
| Ranking.BaselineSeeds | internal/balancer/runtime_stats.go:26-30 | A handle from stored statistics has their counters and is judged by their averages if none had failed; a reset handle is as new under the next generation. |
| Ranking.CostIsPrice | internal/balancer/performance.go:88-155 | The cached cost of each strategy is its price: header time times attempts per success, attempts per success squared, or the blend of 0.7 header and 0.3 response time times that square; 10^12 without any success. |
| SampleWindow.AccumulateRotate | internal/balancer/performance.go:62-74 | Window totals do not depend on where in the ring the window starts. |
| StatsHandle.WriteSlot | internal/balancer/performance.go:55-60 | Writing the next ring slot yields the last five of the old window followed by the new sample. |
| StatsHandle.SlotOrderIrrelevant | internal/balancer/performance.go:62-74 | Scanning the slots in array order accumulates the same totals as scanning the window in time order. |
| StatsHandle.RuntimeStatsHandle.constructor | internal/balancer/runtime_stats.go:26-30 | A handle created from a baseline has its counters, an empty window and the costs that baseline implies. |
| StatsHandle.RuntimeStatsHandle.ScanWindow | internal/balancer/performance.go:106-120 | The loop over the filled slots computes the totals of the window. |
| StatsHandle.RuntimeStatsHandle.UpdateCosts | internal/balancer/performance.go:88-144 | The cached costs become those of the present summary and window. |
| StatsHandle.RuntimeStatsHandle.RecordSample | internal/balancer/performance.go:46-84 | Recording in the ring has exactly the effect of recording in the list, summary and costs included. |
| StatsHandle.RuntimeStatsHandle.Count | internal/balancer/runtime_stats.go:100-153 | Counting has exactly the effect of the value-level count, whose meaning StatsHandle.CountTells states. |
| StatsHandle.CountTells | internal/balancer/runtime_stats.go:100-153 | One attempt adds one to the total and to the counter of its kind and to no other; status and error become those of the attempt unless it was interrupted or obsolete. |
| StatsHandle.ResetRuntimeStats | internal/balancer/stats_reset.go:18-51 | All listed handles are reset, or none, as the one persistence result decides; a handle listed twice is reset once. |
| KeyRecords.StaleAttemptIsHarmless | internal/balancer/attempt_result.go:32-64 | An attempt of an older version or a retired key gives its slot back and counts, and changes neither health, history, window, last error nor authorises persisting. |
| KeyRecords.PersistOnlyCurrentDisable | internal/balancer/attempt_result.go:65-79 | Persisting is authorised exactly for a disable of the current version; settling never enables a key and never changes its version. |
| KeyRecords.SettleHealth | internal/balancer/attempt_result.go:32-79 | Field by field, what a settlement leaves of the health of a key: a current cooldown verdict raises failures and level and sets the backoff to d*2^(level-1) from the clock, a success clears failures and level, an observed error failures only, a disable everything; any other settlement nothing. |
| Backoff.LevelCountsStrikes | internal/balancer/attempt_result.go:65-76 | In any run of one key the cooldown level is the number of cooldown verdicts since the last success, disable, recovery or newer record, up to ten. |
| Backoff.StrikeKeepsOut | internal/balancer/attempt_result.go:71-73 | After the k-th such verdict in a row, on a base d and settled at t, the key is available exactly from t + min(longest duration, d*2^(min(k,10)-1)) on, if active and not retired, until another verdict or a clean start overrules it. |
| Backoff.SuccessForgives | internal/balancer/attempt_result.go:66-73 | The first cooldown verdict after a success lasts as long as configured. |
| Backoff.OthersDoNotCool | internal/balancer/attempt_result.go:43-73 | An observed error, an interruption and an obsolete attempt leave level, backoff and status as they are. |
| Backoff.ProbesBackOff | internal/balancer/performance.go:157-191 | After k failed samples in a row a key is not probed before one minute, doubled with each failure up to five, has passed since the last one; a success lifts that. |
| Backoff.CreatedClean | internal/balancer/pool.go:90-140 | A key is created with its configured health, nothing in flight and no backoff, and available exactly when it is active. |
| KeyRecords.MergedKeeps | internal/balancer/pool.go:393-415 | Merging reloaded records never renames a key, never touches what is in flight, never lowers a version, and keeps health unless a record is newer. |
| KeyRecords.MergedTakesOver | internal/balancer/pool.go:393-415 | A record of newer version gives a live key its status, reason, disabler, time and version and ends failures and backoff; any other record leaves every health field alone. |
| KeyRecords.NewerRecordDecides | internal/balancer/pool.go:399-413 | A live key that took over a newer record is available exactly when that is active, and otherwise exactly when it was before. |
| KeyRecords.ScaledCooldownLoop | internal/balancer/pool.go:617-636 | The doubling loop computes base * 2^(level-1), saturated at the largest duration, without overflowing on the way. |
| KeyRecords.ExpiryMachinesAgree | internal/balancer/performance.go:46-60 | For a key created with its handle, over any run of samples, gaps, stale attempts and lazy resets: at equal generations the key counts min(2, window size) live samples. |
| KeyRecords.ReaddedKeyAgrees | internal/balancer/performance.go:157-204 | A key added again beside its old handle agrees with it in every run from then on if and only if the old window is empty. |
| KeyRecords.ReaddedKeyCanDisagree | internal/balancer/performance.go:196-204 | After a reset, one recorded attempt, removal, re-adding and one scan the key counts no live sample while the window of the same generation holds one. |
| PoolModel.AllowListOrderIsIrrelevant | internal/balancer/pool.go:549-585 | Except for random picks and probes the winner is a function of the eligible set: two requests allowing the same keys in any order pick the same key; a probe goes to an equally old key. |
| PoolModel.FullAllowListIsNil | internal/balancer/pool.go:488-521 | An allow-list naming every key makes the same keys eligible as no allow-list. |
| PoolModel.CyclicStep | internal/balancer/pool.go:492-502 | Scanning from the cursor, the key at offset o either is the nearest usable one or no key up to it is usable. |
| Pickers.AnyEligible | internal/balancer/pool.go:358-376 | True exactly when some key is active, not retired, not cooling, not excluded and allowed. |
| Pickers.FindCyclic | internal/balancer/pool.go:492-502 | The loop from the cursor finds the usable key at the smallest cyclic distance, or reports that there is none. |
| Pickers.FindNearest | internal/balancer/pool.go:504-520 | The loop over an allow-list finds the usable allowed key at the smallest cyclic distance. |
| Pickers.FindRoundRobin | internal/balancer/pool.go:488-521 | Both forms of round-robin pick the same least-distant usable key and fail exactly when there is none. |
| Pickers.FindByScore | internal/balancer/pool.go:549-585 | The picked key is the unique minimum by score and then cyclic distance among the usable ones. |
| Pickers.FindRandom | internal/balancer/pool.go:523-547 | Fails exactly when no key is usable, and otherwise the draw indexes the usable allowed keys in scan order. |
| Pickers.EveryUsableKeyIsDrawn | internal/balancer/pool.go:523-547 | Every usable allowed key is the answer of some draw. |
| Pickers.FindPerformance | internal/balancer/performance.go:208-275 | One scan finds the cheapest key by aged cost times load, and, with full credit, the probe candidate attempted longest ago. |
| Pickers.Choose | internal/balancer/pool.go:150-181 | Under all seven strategies a pick exists exactly when a key is eligible, and it is the key the strategy promises, with the credit it leaves. |
| Ranking.AcquireIsBest | internal/balancer/performance.go:208-275 | In terms of samples, counters and loads: a probe goes to the idle key worth probing that was tried longest ago; any other pick is preferred to every other eligible key, by in flight then total, total with in flight then in flight, or faded price times load, and on a tie the next in turn. |
| Ranking.FasterIsPicked | internal/balancer/performance.go:146-155 | Under lowest latency the picked key has the shorter header time per success, and of two fresh, equally loaded keys with equal records the shorter mean header time of its successes. |
| Ranking.MoreSuccessfulIsPicked | internal/balancer/performance.go:146-155 | Under highest success the smoothed share of successes of the picked key is no smaller than that of any fresh, equally loaded one. |
| Ranking.ShorterBlendIsPicked | internal/balancer/performance.go:146-155 | Under the adaptive strategy, with equal records, 0.7 header + 0.3 response time of the picked key is no larger. |
| Ranking.LessLoadedIsPicked | internal/balancer/performance.go:224-247 | Of two keys worth the same the one with fewer requests in flight is picked, then the next in turn; after ten minutes without a sample all keys are worth the same whatever their history. |
| Ranking.FailingKeyIsLast | internal/balancer/performance.go:88-99 | A key whose window holds no success is picked over an equally loaded fresh one only if that has none either. |
| Ranking.AcquireTakesSlot | internal/balancer/pool.go:150-186 | A pick adds one request in flight to the picked key and notes the time, changes nothing else of any key but a history from before a reset, moves the cursor past the pick and spends or earns probe credit. |
| Fairness.RoundRobinServes | internal/balancer/pool.go:488-521 | A key eligible in n consecutive requests is picked by one of them, whatever happens to the other keys. |
| Fairness.EachMemberOnce | internal/balancer/pool.go:488-521 | With a steady eligible set, any run of as many consecutive picks as it has members hits each member exactly once. |
| Fairness.NextServed | internal/balancer/pool.go:488-521 | With a steady eligible set the next pick of a key comes exactly as many turns later as there are members before it. |
| Fairness.ProbesAreRationed | internal/balancer/performance.go:213-216 | Between two probes lie at least nine other picks, across reloads and allow-listed requests; a credit that starts within 0..10 stays there; a probed key is idle and past its backoff. |
| Fairness.ExplorationServes | internal/balancer/performance.go:248-275 | A key that stays eligible, idle, past its backoff and due is picked within 10*n consecutive performance picks of n keys. |
| Fairness.PatienceShrinks | internal/balancer/performance.go:248-275 | Each pick of another key either fills the credit by one or spends it on a key that was attempted earlier: the measure behind the bound. |
| Pool.Pool.constructor | internal/balancer/pool.go:90-131 | A new pool has one state per key that is not blank, in order and with its texts trimmed, nothing in flight, and no exploration credit. |
| Pool.NonBlankKeeps | internal/balancer/pool.go:90-140 | The keys of a pool are the configured ones that are not blank, in their order, with trimmed texts and otherwise as configured. |
| Pool.Pool.HasAvailable | internal/balancer/pool.go:354-376 | True exactly when some allowed key is eligible now. |
| Pool.Pool.AcquireVersioned | internal/balancer/pool.go:150-186 | Acquiring fails exactly when no key is eligible; otherwise the pool makes one legal step to the best key by its samples, counters and load, its slot taken, its attempt time and version captured, cursor and credit moved. |
| Pool.Pool.Release | internal/balancer/pool.go:212-216 | The slot is given back and nothing else changes; an unknown index is ignored. |
| Pool.Pool.CompleteAttempt | internal/balancer/attempt_result.go:32-79 | One settlement changes sample, counters and health of this key together as the value-level settlement says, with the health fields of each verdict spelled out, and returns its permission to persist. |
| Pool.Pool.ShareRuntimeStateFrom | internal/balancer/pool.go:381-419 | Keys of the same name continue as the same objects; a newer record gives them its status, reason, disabler, time and version without failures or backoff, any other leaves their health alone; the credit object is shared; old keys not named again are retired. |
| Pool.Pool.Retire | internal/balancer/pool.go:421-427 | Every key is retired and nothing else about it changes. |
| Pool.Override | internal/balancer/pool.go:399-413 | Only a newer version overrides live health, and then all of it; overriding with an active record also clears the last error, and nothing else of the statistics changes. |
| Pool.MergeAll | internal/balancer/pool.go:389-415 | The first loop merges every record by name and chooses the live or the new state for its slot. |
| Pool.RetireUnclaimed | internal/balancer/pool.go:416-418 | The second loop retires exactly the old states no record named. |
| Pool.SettleKey | internal/balancer/attempt_result.go:38-78 | The critical section equals the settlement function on the key and its statistics. |
| Generations.InflightIsConserved | internal/balancer/pool.go:150-186 | Over every run of acquires, settlements, releases, recoveries and reloads, with or without a pool in the new configuration, the inflight count of each shared key equals its outstanding attempts, and published keys are live. |
| Generations.ReloadDecides | internal/gateway/gateway.go:472-491 | A published key is retired exactly when its vendor is gone or has a pool that does not name it, and published again exactly when the vendor has a pool that does; under an entry without a pool it is neither. |
| Generations.ContainedIff | internal/gateway/gateway.go:472-491 | In every run each unretired key of any generation is published if and only if no reload took the pool of a vendor that still published keys; while that is so, a key not published cannot be acquired through any generation. |
| Generations.StrayIff | internal/gateway/gateway.go:472-491 | Exactly the keys that were published when their vendor lost its pool stay reachable, unretired and unpublished from then on, whatever is published later. |
| Generations.UnpublishedAcquiredIff | internal/gateway/gateway.go:472-491 | An unpublished key can be acquired through a generation if and only if it was published when its vendor lost its pool and is healthy. |
| Generations.DroppedKeyIsAcquired | internal/gateway/gateway.go:472-491 | After a vendor lost its pool, any available key of it can be acquired through the router that requests still hold, its disable is authorised to be persisted, and a later pool that names it publishes a second state beside it. |
| Generations.ClampNeverFires | internal/balancer/pool.go:478-486 | A release always finds a positive inflight count. |
| Generations.ObsoleteForever | internal/balancer/attempt_result.go:32-79 | Once a key moved past a version or was retired, an attempt of that version stays obsolete in every later world: it only gives its slot back and persists nothing. |
| Generations.DisabledStays | internal/balancer/pool.go:399-413 | A key disabled in memory stays disabled through any settlements and any reloads of records with version not above its own, until it is recovered. |
| Generations.RecoveryIsNotAVersion | internal/balancer/pool.go:303-312 | Recovering a key makes it available at once and no attempt obsolete: one acquired before can disable it again and be persisted. |
| Generations.PublishedSlot | internal/balancer/pool.go:393-415 | Each slot of a published generation is the published live key of its name, its health taken over from that record if that is newer and left alone otherwise, or, if there is none, a new key that is the record itself. |
| Generations.ReloadDecidesAvailability | internal/balancer/pool.go:393-415 | After a reload a named key is available exactly when a newer record of it is active, and without a newer one exactly when it was before. |
| Generations.RetainedIsPublished | internal/balancer/pool.go:416-418 | A published key that a reload does not retire is in the generation it publishes. |
| Generations.StepKeepsInv | internal/gateway/runtime.go:69-94 | Every single step, publication of a prepared generation with or without a pool included, keeps conservation, liveness and distinctness of the published keys and the version order. |
| FileStore.NormalizeKeys | internal/keystore/store.go:108-127 | The result holds each non-blank trimmed name exactly once and nothing else. |
| FileStore.Store.Replace | internal/keystore/file_store.go:72-131 | Listed keys are kept with a new version or created, unlisted ones survive exactly if disabled; a failed save changes nothing. |
| FileStore.Store.Append | internal/keystore/file_store.go:133-176 | Missing keys are created active at version 1, existing ones are untouched, and the count is the number created. |
| FileStore.Store.Delete | internal/keystore/file_store.go:178-216 | Exactly the named keys of the vendor disappear, and the count is how many there were. |
| FileStore.Store.SetStatus | internal/keystore/file_store.go:325-373 | The reply is the first failing check; a change names the stored version if one is expected, bumps it, and is published only when saved. |
| FileStore.Store.DeleteVendor | internal/keystore/file_store.go:375-384 | Exactly the records of the vendor disappear. |
| FileStore.Store.ApplyRuntimeStatsDeltas | internal/keystore/file_store.go:247-291 | All deltas of known keys are applied in order and published in one save, attempted exactly when some delta is worth storing. |
| FileStore.Store.ResetRuntimeStats | internal/keystore/file_store.go:293-319 | Statistics of the selected vendor, or of all, are cleared and nothing else; the count is the number of keys selected. |
| FileStore.VersionsGrow | internal/keystore/store.go:205-210 | No operation lowers the version of a key it keeps, and a conditional change that succeeds names the old version and raises it. |
| FileStore.AtMostOneSucceeds | internal/keystore/file_store.go:321-373 | While a key is not removed, at most one conditional update of a given expected version succeeds, whatever runs in between. |
| FileStore.ReplaceKeepsDisabled | internal/keystore/file_store.go:118-126 | A replacement keeps every disabled key with its status, reason and actor. |
| FileStore.ReplaceKeepsListed | internal/keystore/file_store.go:104-131 | A listed key keeps status, reason, actor and statistics under the next version, a new one is active at version one without statistics, and of the keys not listed exactly the disabled ones stay, unchanged. |
| FileStore.StatusSetMeans | internal/keystore/file_store.go:325-373 | A status change gives the record the new status, its trimmed reason and actor, none when active, the next version and the old statistics, and touches no other record. |
| StatusQueue.WriteInvisibleIff | internal/keystore/async_store.go:521-551 | Writing an update leaves what readers are shown alone exactly when the store refuses it or a queued update of a newer version, or of the same version and content, still covers the record. |
| StatusQueue.RemovalInvisibleIff | internal/keystore/async_store.go:453-462 | Removing a queued update is invisible exactly when its key is gone or its record is newer. |
| StatusQueue.WorkerShowsExactly | internal/keystore/async_store.go:293-345 | Under any interleaving with queueing and direct changes, a step of the worker leaves the effective records of the instant alone exactly when its write is still covered by a queued update or its removal drops one that no longer covers its record. |
| StatusQueue.WriteCanShow | internal/keystore/async_store.go:293-314 | From an empty queue: a second update of the same version with other content is queued behind the worker's back, and the first is then written visibly under it. |
| StatusQueue.DirectIsAChange | internal/keystore/async_store.go:142-170 | Every store operation, with the removal of any queued updates, is a caller step of such an interleaving. |
| StatusQueue.WorkerIsInvisible | internal/keystore/async_store.go:293-345 | Left alone, from any idle state without updates ahead of the store, the worker never changes the effective records: what a read shows that sees store and queue at one instant. |
| StatusQueue.LateUpdateSurvivesFlush | internal/keystore/async_store.go:453-462 | An update that a caller queues after the snapshot of a flush, and that no caller removes, is still queued when the flush ends, under any interleaving. |
| StraddlingReads.SameViewIff | internal/keystore/async_store.go:97-124 | Whoever acts in between, two states of the queue show the same over fetched records if and only if they cover the same of them with the same version and content. |
| StraddlingReads.SameRecordsIff | internal/keystore/async_store.go:97-124 | Whoever acts in between, such a read shows what the instant of its second section shows if and only if it names the same keys, and of each key the fetched and the present record both lie under the queued update with the same statistics, or one is what the update makes of the other, or they are equal. |
| StraddlingReads.StraddlingReadIff | internal/keystore/async_store.go:97-124 | A list read in two locked sections while the worker acts shows what every instant shows if and only if each queued update that covered a fetched record is still queued at the second; in the opposite order it always would. |
| StraddlingReads.StraddlingReadMisses | internal/keystore/async_store.go:97-124 | A key with a queued current disable is listed as active by a read that fetches before the worker writes and looks at the queue after it removed the update, though it is disabled at every instant of that run. |
| StraddlingReads.KeyReadAcross | internal/keystore/async_store.go:97-124 | The same for each key that callers leave alone, whatever they do to others: the read is right if and only if an update that covered the fetched record is still queued, and always in the opposite order. |
| StraddlingReads.StraddlingReportIff | internal/keystore/async_store.go:97-124 | After a replacement, with timely further disables, a straddling read reports a protected key disabled if and only if it was stored disabled at the fetch or the queue still covers the fetched record. |
| ReplaceProtocol.ReplaceLosesNoDisable | internal/keystore/async_store.go:130-140 | After a successful replacement, under any interleaving with the worker and steps elsewhere, a key that was stored disabled or had a queued disable of the stored version is still present and reported disabled by every read of one instant, provided each further disable that comes before the snapshot or after the end names the stored version or finds the key stored disabled. |
| ReplaceLimits.KeptExactlyWhenCurrent | internal/keystore/async_store.go:357-381 | While nothing queued or held enables the key and no verdict is about to drop the update, every run with timely further disables keeps a queued disable of an active key if and only if it names the stored version. |
| ReplaceLimits.FurtherDisableKeptIff | internal/keystore/async_store.go:180-198 | After a further disable of any version, at any point of a run before the snapshot of the queue, every run with timely ones from there keeps the protected key if and only if it was stored disabled or that disable names the stored version. |
| ReplaceLimits.ReportedAfterDisable | internal/keystore/async_store.go:521-531 | Right after a further disable the key is reported disabled if and only if it is stored disabled or the disable is not older than its record. |
| ReplaceLimits.SecondDisableLoses | internal/keystore/async_store.go:180-198 | From every state with a current disable queued, a replacement that lists the key can complete and requeue it, and a second disable of the old version then makes the key reported active. |
| ReplaceLimits.LateDisableIsDropped | internal/keystore/async_store.go:418-424 | With an empty queue, a current disable that is queued during a replacement listing its key is reported at once and gone when the replacement ends. |
| ReplaceProtocol.ReconcileDecides | internal/keystore/async_store.go:417-436 | What the last step reports for a key is the carried status if that must be written again and the stored status otherwise. |
| ReplaceProtocol.ReflectedMeans | internal/keystore/async_store.go:444-451 | A carried update is not written again exactly when the store already agrees whether the key is active. |
| ReplaceProtocol.QueuedSurvivesReconcileIff | internal/keystore/async_store.go:418-424 | An update queued before the last step survives it exactly when it belongs to another vendor: a disable queued after the snapshot is dropped. |
| ReplaceProtocol.StepKeepsInv | internal/keystore/async_store.go:357-451 | Each step of the worker, the replacement or the environment, further disables of any version while the queue is being rebuilt included, keeps the phase invariant of a protected key. |
| AsyncStore.AsyncStatusStore.SetStatusIfVersion | internal/keystore/async_store.go:180-198 | The update replaces any queued one for the key under the next id; a closed store or a blank name changes nothing. |
| AsyncStore.AsyncStatusStore.DeletePendingIfMatch | internal/keystore/async_store.go:453-462 | Only the very update that was answered is removed. |
| AsyncStore.AsyncStatusStore.SetStatus | internal/keystore/async_store.go:164-170 | After a call that nothing interrupts a direct change is what readers are shown next; a failed one leaves store and queue alone. |
| AsyncStore.AsyncStatusStore.List | internal/keystore/async_store.go:108-124 | A call that nothing interrupts between its two locked sections shows the effective records of the vendor. |
| AsyncStore.AsyncStatusStore.OverlayPending | internal/keystore/async_store.go:113-124 | The second locked section lays the queue of its own moment over the records fetched before, in any order of the queue. |
| AsyncStore.AsyncStatusStore.EffectivePendingForVendor | internal/keystore/async_store.go:357-381 | Exactly the vendor's updates that its stored records have not overtaken are carried. |
| AsyncStore.AsyncStatusStore.MissingKeys | internal/keystore/async_store.go:394-402 | The keys to restore are exactly those of carried disables that the new list dropped. |
| AsyncStore.AsyncStatusStore.Requeue | internal/keystore/async_store.go:417-436 | The vendor's queue is emptied and what the store does not reflect is queued again against its present version, under fresh distinct ids. |
| AsyncStore.AsyncStatusStore.ReconcilePendingAfterReplace | internal/keystore/async_store.go:383-442 | Every stage is a step of the protocol, so protected keys stay reported disabled; failing leaves the queue alone; other vendors are untouched. |
| AsyncStore.AsyncStatusStore.Replace | internal/keystore/async_store.go:130-140 | A replacement that returns without error reports every protected key disabled and touches no other vendor. |
| AsyncStore.AsyncStatusStore.FlushPending | internal/keystore/async_store.go:293-314 | A flush with arbitrary save failures shows readers what they saw, less the updates ahead of their records; it reports success exactly with an emptied queue, and what is left of the queue is unchanged. |
| StatsPersister.BuildRuntimeStatsDeltas | internal/gateway/stats_persister.go:189-255 | One delta for exactly the keys that have something to write, against their baseline; baselines of keys not captured are carried on. |
| StatsPersister.DeltasAddUp | internal/keystore/file_store.go:262-285 | Applying a list of deltas with distinct keys adds to each stored key exactly its own delta. |
| StatsPersister.StatisticsAreConserved | internal/gateway/stats_persister.go:150-162 | Over any run of settlements, failing and succeeding flushes captured key by key, and failing and succeeding resets: stored plus live less baseline equals what the trace alone says, and with nothing unflushed the store itself does. |
| StatsPersister.ConservedByKind | internal/gateway/stats_persister.go:150-162 | Counter by counter: what is stored and unflushed exceeds the start, or zero after a reset, by the number of attempts of that kind since: successes, 401, 403, 429, other errors, and all. |
| StatsPersister.AddedKeyIsConserved | internal/gateway/runtime_stats_registry.go:25-53 | The same for a key created while the persister runs. |
| StatsPersister.ExpectedIsTally | internal/gateway/stats_persister.go:88-124 | What the trace says is the tally of the key's attempts since its last successful reset: each attempt once. |
| StatsPersister.NeverBackwards | internal/gateway/stats_persister.go:209-221 | In no run does a flush meet a counter below its baseline: the branch for it is never taken. |
| StatsPersister.VendorResetLeavesOthers | internal/gateway/stats_persister.go:118-122 | A vendor reset changes nothing of other vendors in memory, store or baseline. |
| StatsPersister.JoinedKeyIsConservedIff | internal/gateway/stats_persister.go:196-208 | For a key that joins a running persister with stored statistics the account after every run is the expected one if and only if those were zero or a reset of the key has succeeded since; otherwise they count twice. |
| StatsPersister.LateBaselineDoubles | internal/gateway/stats_persister.go:196-208 | The next successful flush stores the counters of such a key a second time. |
| StatsRegistry.Registry.Handle | internal/gateway/runtime_stats_registry.go:25-53 | A live handle is returned as it is whatever baseline was read; otherwise a new one from the baseline is registered, or left unregistered for a blank name. |
| StatsRegistry.Registry.Reset | internal/gateway/runtime_stats_registry.go:56-69 | Exactly the handles of the selected vendor are reset, together, if persisting succeeded; all others keep their state. |
| StatsRegistry.Persister.FlushLocked | internal/gateway/stats_persister.go:150-162 | A flush keeps the account of every key; the baseline moves to what was captured exactly when it succeeds. |
| StatsRegistry.Persister.Reset | internal/gateway/stats_persister.go:88-124 | Store, memory and baseline of the selected vendor are cleared together, or nothing changes. |
| KeyPolicy.ErrorDecision | internal/gateway/key_policy.go:64-102 | Whichever rule decides, an error response is settled with its own status, retried exactly as the failover switches say, and disables the key exactly when the auto-disable rules match. |
| KeyPolicy.FirstMatch | internal/gateway/key_policy.go:232-246 | The deciding cooldown rule is the first that matches, and there is none exactly when no rule matches. |
| KeyPolicy.StatusBackoff | internal/gateway/key_policy.go:64-102 | Without a disable or response rule the backoff is that configured for the status, none if switched off; Retry-After replaces it for 429 and server errors and only lengthens it when an OpenAI upstream asks to slow down. |
| KeyPolicy.RuleBackoff | internal/gateway/key_policy.go:150-169 | The first matching response rule decides; its duration stands unless Retry-After overrides it, by default for 429 only, or lengthens it. |
| KeyPolicy.CallBackoff | internal/gateway/key_policy.go:49-53 | A failed call backs off by its own rule and fails over by its own switch. |
| KeyPolicy.RuleConditions | internal/gateway/key_policy.go:232-246 | A response rule applies when each kind of condition it names is met, and never if it names none. |
| KeyPolicy.DisableCauses | internal/gateway/key_policy.go:178-205 | Each listed status, credential code and keyword disables on its own case and no other; switched off, nothing does. |
| KeyPolicy.FailoverSwitches | internal/gateway/key_policy.go:212-230 | A list of statuses decides alone; without one nine statuses fail over by default and each switch decides its own statuses and no others. |
| KeyPolicy.MaskingOnlyExtends | internal/gateway/error_masking.go:84-93 | A masking rule yields the longer backoff, may start one, and never downgrades a disable. |
| KeyPolicy.AccountingIsExact | internal/gateway/key_policy.go:49-102 | Over any settled attempts each counter is the number of outcomes of its kind (delivered, 401, 403 and 429 responses), the derived interrupted count is the number the clients gave up, and the total is the sum of the five other counters and it. |
| KeyPolicy.BuffersExactlyWhenReplayable | internal/gateway/vendor_proxy.go:117-158 | The fixed list of probed statuses is complete: a body is buffered exactly when some failure could make the gateway send it again. |
| RequestTrace.NoTargetTwice | internal/gateway/router.go:75-120 | In a lawful trace no vendor and key is sent to twice. |
| RequestTrace.EachKeyReturnedOnce | internal/gateway/vendor_proxy.go:41-78 | Every acquired key is given back, and its return is the next thing that happens to any key. |
| RequestTrace.SettledAsAnswered | internal/gateway/router.go:528-559 | An attempt is settled with the status its upstream answered: a known error response keeps its status and is never turned into an interruption by what happens later. |
| RequestTrace.UnsafeResentOnlyAfterRejection | internal/gateway/request_body.go:70-97 | A method that is not safe is sent again only with a 401, 402, 403 or 429 as the last answer. |
| RequestTrace.WatchCounts | internal/gateway/router.go:46-66 | The watcher's counts of sends, opened bodies and replies are the true ones, and there is at most one reply. |
| FailoverLoop.Execution.MarkTried | internal/gateway/router.go:105-120 | The target is remembered, and a managed key's index is excluded for its vendor only. |
| FailoverLoop.BodySource.Body | internal/gateway/request_body.go:156-170 | A single-use body opens exactly once; a replayable one stays usable. |
| FailoverLoop.Attempt.Finish | internal/gateway/attempt_timing.go:12-26 | The attempt is settled with its pool by the first call only, and not at all for a passed-through credential. |
| FailoverLoop.StartAttempt | internal/gateway/vendor_proxy.go:41-78 | Either an attempt holds a key not tried before, with its body open, or the key was given back. |
| FailoverLoop.Send | internal/gateway/router.go:463-474 | The guard for an exhausted budget cannot be reached; the send is charged, remembered and lawful. |
| FailoverLoop.HandleUpstreamResponse | internal/gateway/router.go:528-584 | The attempt is settled once on every path. Another key is tried exactly when the switch for the failure, the body, rounds, budget and the pool allow it, another child exactly when no key is tried and switches, body, rounds, budget and the aggregate allow that; otherwise the client gets one reply or has left. |
| FailoverLoop.AnotherAttempt | internal/gateway/router.go:494-508 | The decision after a failure: a retry with another key, with another child, or neither, each if and only if its conditions hold. |
| FailoverLoop.AfterFailedPreview | internal/gateway/router.go:530-556 | An error response whose beginning cannot be read is settled with its status and retried by the switch for failed calls. |
| FailoverLoop.AwaitReply | internal/gateway/router.go:476-525 | However the call ends, the same decision follows; the client is answered unless it left. |
| FailoverLoop.SwitchesAgree | internal/gateway/response.go:277-297 | Another child may be tried by the switch for rate limits after 429, for server errors after 500, 502, 503 and 504, by the list for other statuses and by the network switch without an answer. |
| FailoverLoop.WriteUpstreamResponse | internal/gateway/response.go:124-229 | However the copy ends, the key is given back once and at most one reply is sent. |
| FailoverLoop.ShouldRetryAggregate | internal/gateway/router.go:388-410 | Another child is asked for exactly when rounds, budget, switches and body allow it and another child is available. |
| FailoverLoop.ServeVendor | internal/gateway/router.go:431-526 | The loop terminates and its guard against spinning cannot be reached. It ends with another child wanted, or with the client answered or gone; a failure is handed to the client only when another key and another child were refused or another attempt could not be started. |
| FailoverLoop.ServeAggregate | internal/gateway/router.go:345-418 | The outer loop terminates and always returns from its body with every rule of the trace kept; the client was answered or has left, and was handed a failure only when another key of the last child and another child were refused or another attempt could not be started. |
| FailoverLoop.DeliveredErrorIsExcused | internal/gateway/router.go:558-572 | Read off the trace: if the last answer was an error that the client was handed, its switch was off, the body not to be sent again, budget or rounds spent, or the pool had answered since that no other key was available; and likewise for children. |
| RetryTrace.RecallCounts | internal/gateway/router.go:46-66 | What the loops remember of a request is in its trace: sends, reply and departure of the client are the true ones. |
| RetryTrace.FailureIsLatest | internal/gateway/router.go:476-556 | The failure they act on is that of the latest send. |
| RetryTrace.TurnCounts | internal/gateway/router.go:431-474 | The rounds they count are the sends since the turn of the vendor began. |
| FailoverLoop.FinishedRequest | internal/gateway/router.go:431-584 | Read off the trace of any finished request: sends within budget, no target twice, each acquired key given back once and settled as answered, a single-use body opened at most once, at most one reply, unsafe methods repeated only after a rejection. |
| IdleTimeout.BlockedReadIsWatched | internal/gateway/body_timeout.go:50-61 | In every interleaving a read in progress on an open body has its callback running or scheduled no later than its deadline. |
| IdleTimeout.TimeoutIsJust | internal/gateway/body_timeout.go:98-116 | The step that expires a body is a callback at or past the deadline of the read then in progress. |
| IdleTimeout.FinishedReadResult | internal/gateway/body_timeout.go:63-77 | A read reports a timeout exactly when the body had expired, and then its deadline has passed. |
| IdleTimeout.AnsweredReadExpiresIff | internal/gateway/body_timeout.go:63-72 | Some run expires a read that the upstream answered at once and whose goroutine reached the lock a given delay later, if and only if the delay is at least the timeout. |
| IdleTimeout.NothingSucceedsAfterTimeout | internal/gateway/body_timeout.go:68-72 | After a timeout every later result of every read is the timeout. |
| IdleTimeout.ClosedOnce | internal/gateway/body_timeout.go:84-96 | The body is closed at most once, and an expired or fully read one is closed or about to be. |
| IdleTimeout.ReadCloser.BeginRead | internal/gateway/body_timeout.go:42-61 | The first locked section makes the state machine's step: refuse on a closed body, else set the deadline and arm only a disarmed timer. |
| IdleTimeout.ReadCloser.EndRead | internal/gateway/body_timeout.go:64-76 | The second locked section reports the timeout over any outcome and asks for a close only at the end of the data. |
| IdleTimeout.ReadCloser.Expire | internal/gateway/body_timeout.go:98-116 | A callback disarms, reschedules to the present deadline or expires the read, as the state machine says. |
| IdleTimeout.ReadCloser.Close | internal/gateway/body_timeout.go:84-96 | Closing stops the timer and reaches the body the first time only. |
| UrlPath.EncodeRoundTrip | internal/gateway/url_path.go:70-71 | Decoding an encoded path gives the path back, for every set of bytes the library leaves unescaped. |
| UrlPath.EscapedSuffix | internal/gateway/url_path.go:76-88 | The loop drops exactly the escapes and bytes that stand for the first n decoded ones. |
| UrlPath.SuffixDecodes | internal/gateway/url_path.go:76-88 | Cutting the escaped form agrees with cutting the decoded one and never splits an escape. |
| UrlPath.ApplyPath | internal/gateway/url_path.go:53-74 | The loop over the prefix rules computes the rewriting of both forms. |
| UrlPath.RewriteMeans | internal/gateway/url_path.go:53-74 | The first prefix rule that fits puts its target, less the slashes at its end, before the rest of the path, separated by exactly one slash if there is a rest. |
| UrlPath.RewriteKeepsForms | internal/gateway/vendor_proxy.go:322-336 | Rewriting both forms agrees with rewriting the decoded path alone, and the escaped result still decodes to it. |
| UrlPath.EscapedTailIsVerbatim | internal/gateway/url_path.go:64-71 | What a prefix rule does not replace is sent byte for byte as it came in. |
| UrlPath.EscapedSlashesSurviveIff | internal/gateway/url_path.go:53-74 | All escaped slashes of a request are sent escaped if and only if no rule matches, or an exact rule met none, or a prefix rule replaced as many literal slashes as its prefix has. |
| UrlPath.EscapedSlashCanBecomeLiteral | internal/gateway/url_path.go:60-71 | Under the rule that maps everything below /a/ to itself a request for /a%2Fb is sent as /a/b. |
| UrlPath.JoinKeepsForms | internal/gateway/url_path.go:17-31 | Joining base and request keeps the escaped form decoding to the decoded one, whatever slashes meet at the seam. |
| UrlPath.SeamIsOneSlash | internal/gateway/url_path.go:21-30 | Base and request lose at most one literal slash each where they meet and get exactly one between them; the rest of the escaped request path is sent verbatim. |
| UrlPath.JoinAgreesWithDecodedIff | internal/gateway/url_path.go:15-31 | The decoded result is the plain join exactly when no escaped slash at the seam changes the decision. |
| UrlPath.PlainJoinAgrees | internal/gateway/url_path.go:18-20 | The short cut for plain paths gives the decoded path of the long way. |
| UrlPath.SplitKeepsForms | internal/gateway/url_path.go:33-51 | Splitting off the vendor loses nothing and keeps both forms; it is refused exactly when the first literal segment is empty or hides an escaped slash, and the decoding errors cannot occur. |
| UrlPath.TargetKeepsForms | internal/gateway/vendor_proxy.go:214-224 | After splitting, rewriting and joining, the target's two forms still agree. |

## Left out

- Pool pickers: the scan loops of the pool are methods over a value of the locked pool, and what they change (cursor, credit, lazily reset histories) is written to the shared objects afterwards in one go; the order of those writes inside the critical section is not modelled.
- Key names: within one vendor the configured key names are taken to be distinct, as the stores guarantee.
- ReplaceProtocol.ReplaceLosesNoDisable: concurrent steps may change every other key and queue further disables of the tracked one; a concurrent enable, deletion, or a second replacement naming the same vendor is not among the steps.
- StatusQueue.WorkerIsInvisible: is about the worker alone and about reads of one instant; `StatusQueue.WorkerShowsExactly` decides each of its steps when callers act in between, and `StraddlingReads` what a read of two instants shows.
- StatusQueue.WorkerShowsExactly: is about reads of one instant, as above.
- StraddlingReads.KeyReadAcross: callers leave the key that is read alone; for those that do not, `StraddlingReads.SameViewIff` and `StraddlingReads.SameRecordsIff` compare the read with what the instants of its two sections show.
- AsyncStore.AsyncStatusStore.List: both locked sections in one undisturbed call; `AsyncStore.AsyncStatusStore.OverlayPending` is the second on its own.
- Store lists: records are a map from vendor and key, so the sorting of record lists, remarks, key ids and the timestamps of a record are not modelled; loaded files are taken as parsed.
- AsyncStore.AsyncStatusStore.SetStatus: write and clearing are one undisturbed call; an update queued between them would be cleared as well.
- AsyncStore.AsyncStatusStore.Replace: is the call that nothing interrupts; the interleavings are those of the protocol, whose steps it is shown to make.
- AsyncStore.AsyncStatusStore.ReconcilePendingAfterReplace: likewise the second half of an undisturbed call.
- AsyncStore.AsyncStatusStore.FlushPending: is a flush that no caller interrupts; the interleavings are those of the queue.
- FileStore.NormalizeKeys: the result is not put in order; everything that uses it is a set of names.
- The final flush on Close, retry timers and wake-up signals of the status worker: only their effect as further worker steps is covered.
- Statistics of deleted and re-added keys, and several processes on one store: the program promises nothing there.
- StatsPersister.StatisticsAreConserved: is about counters; last status, last error and the recent summary are replaced, not added, and `RuntimeStats.DeltaRoundTrip` says exactly when they come through.
- Integer widths: counters, versions and ids are unbounded; the cooldown saturates, and the least-loaded comparison and the round-robin and random totals wrap as in the program; float rounding of averages and costs is not modelled.
- MachineWeights.SmallWeightsAreExact: for three and more entries n*W below 2^63 is sufficient; the exact range is proved for two.
- Slots of the ring beyond the sample count are not cleared on a reset; nothing reads them.
- Manual disable and enable of a key in a pool, load totals and statistics snapshots: they would add single-key updates of the kind already covered; recovery is a step of `Generations`.
- FailoverLoop.ServeAggregate: two children with the same vendor id are taken to be bound to the same vendor and pool, as the one vendor table of a router makes them.
- FailoverLoop.AcquireVersioned: stands for the pool of a vendor shared with other requests, so it promises only a key outside the excluded ones; the pool module proves what the pool itself does, and allow-lists of children are not repeated here.
- Reading and buffering the request body before the first attempt, interim responses, header copying, streaming chunks, decompression and the text of masked replies: the copy of a response is abstracted to how it ends.
- Error texts: matched keywords, credential codes and retry delays are inputs of the classification, and the reason strings it composes are not modelled.
- Idle timeout clock: a locked section takes no time, so a callback scheduled in it is due exactly at the deadline.
- URL library: which bytes it escapes is a parameter with the two facts the program relies on (the percent sign is escaped, the slash is not); the fast string concatenation of safe URLs is not compared byte by byte.
- Preparing a router, cloning configuration, closing transports and naming unnamed aggregate entries: a reload is the one publication step that follows successful persistence, vendor by vendor, with the three kinds of entry the new configuration can have for it.
- HTTP serving, configuration loading, the admin interface, the database store and the upgrade command.
