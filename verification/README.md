# Verified model of the ACP key-value store

ACP is a replicated key-value store. A node stamps each write with a hybrid logical clock, stores it,
sends it to its peers and reports success after W acknowledgements; a read takes the newest of R
copies and refuses values past a staleness bound; after a partition heals a node repairs its store
from a log of recent writes, last writer wins; and a controller trades R against W as a health score
moves. The repository also vendors the go-ycsb benchmark, of which two algorithms are modelled here:
the acknowledged counter and the row codec.

`dafny verify dfyconfig.toml` checks the whole project.

## How the model is built

| files | what they hold |
|---|---|
| `Basics`, `Ring` | shared types; the circular buffer behind the write log and the metric windows |
| `HybridClock`, `Storage`, `Staleness`, `WriteLog`, `Reconcile`, `Replication`, `Server` | one node: each mutable object is a class whose methods are proved to compute a specification function, and the laws of those functions |
| `Cluster` | the whole cluster as a transition system over the same functions; every critical section of a handler is one step, so handlers of one node interleave, and messages may be delayed, reordered or lost |
| `ClusterClocks`, `ClusterData`, `ClusterRuns` | invariants of every run, and what one state of a run says about a later one |
| `ClusterTheorems`, `ClusterFreshness`, `ClusterConvergence` | the guarantees that follow: acknowledged writes and bounded staleness, quorum reads, repair |
| `ClusterCounterexamples` | runs that show which hypotheses are needed |
| `MetricWindows`, `Score`, `Settling`, `Quorums`, `Adjuster`, `ControllerRuns` | the adaptive quorum controller, tick by tick and over whole runs |
| `AckCounter`, `AckCounterThreads` | the acknowledged counter, called one at a time and under all interleavings |
| `Varint`, `RowCodec` | the row format and its round trip |

Wall-clock readings, the R and W in force, what peers answered and the iteration order of Go maps are
parameters. Node ids are ordered as Go orders strings (`HybridClock.StringLess`), not by Dafny's
prefix order. Floating-point numbers are modelled as reals and integers are unbounded, except in the
varint codec, where the 64-bit range is part of the format.

## Findings

- A late Replicate overwrites a newer value, because `PutWithHLC` compares nothing.
  `ClusterCounterexamples.LateStoreHidesNewerWrite` is a run with the default R = W = 2 and N = 3 in
  which a read that starts after a successful write returns an older one. The exact conditions:
  one store keeps a node's copies newest if and only if the incoming stamp is not before the copy it
  replaces (`ClusterData.StoreKeepsNewestExactly`); a state lets no read miss a stamp if and only if no
  node that lacks it can find R - 1 other outdated copies (`ClusterFreshness.ReadsAreFreshExactly`);
  and a read is fresh if and only if some node it counted held a fresh copy when it answered
  (`ClusterFreshness.ReadIsFreshExactly`). No copy falls behind without a write applied out of stamp
  order (`ClusterFreshness.FallsExactly`).
- Repair undoes that damage only while the log has the write: a node ends at the newest write it ever
  stored if and only if it still holds that write or has it in its live log
  (`ClusterConvergence.RepairRestoresExactly`). `ClusterCounterexamples.EvictedWriteStaysLost` is a run
  in which everything stored was logged, the repair loop finds nothing to do and the older write stays.
- With no connected peer a write succeeds whatever W is, although test/integration_test.go:105-108
  expects a failure. `ClusterTheorems.SuccessMeansQuorumExactly` gives the exact condition,
  `ClusterCounterexamples.LonelyWriteIsMissed` a run.
- Two replies with the same stamp but different values make the answer of a quorum read depend on
  arrival order. `Server.ReadIgnoresOrderExactly` says exactly when,
  `ClusterCounterexamples.TiedStampsDependOnOrder` gives two runs that differ in nothing else.
- Cleaning up a wrapped log can make a later write evict one that is not the oldest;
  `WriteLog.CleanupThenAddEvictsOldest` says exactly when it does not,
  `WriteLog.CleanupEvictsYounger` gives inputs on which it does. No code of the repository calls
  `Cleanup` so far.
- From a start below 1 the acknowledged counter can stop one value short, because its loop guard
  compares a value with a slot number; `AckCounter.AcknowledgeRefines` gives the exact condition and
  `AckCounter.ZeroStartStopsShort` an input for every window size. The one caller in the repository
  replaces a record count of 0 by the largest 32-bit integer before it starts the counter there
  (go-ycsb-vendor/pkg/workload/core.go:618-621 and 653), so only a negative record count reaches this.
- An acknowledgement that loses the lock can stay unpublished after every call has returned
  (`AckCounterThreads.LoserLeavesLag`). There is no such lag if and only if the flag of the next value
  is down (`AckCounterThreads.NoLagExactly`), and the next undisturbed call removes it
  (`AckCounterThreads.NextCallCatchesUp`).
- The row codec takes an unknown field name for field 0 (`RowCodec.UnknownNameIsFieldZero`);
  `RowCodec.RoundTripExactly` says that the round trip is the identity exactly for known names.
- The error component of the score never adds information: it always equals the availability
  component (`Score.ScoreInvariants`).

## Model

| member | source | states |
|---|---|---|
| `Ring.HoldsLatest` | internal/reconcile/log.go:55-60 | after any pushes the buffer is the latest `size` values, rotated so that the oldest sits at the write index |
| `Ring.FullTurn` | internal/adaptive/ccs.go:33-37 | from any state, `size` pushes leave exactly those values in cyclic order |
| `HybridClock.StringLessTotal` | internal/reconcile/engine.go:141 | any two different node ids are ordered one way |
| `HybridClock.StringLessExactly` | internal/reconcile/engine.go:141 | the node id order is lexicographic: a proper prefix comes first, otherwise the first difference decides |
| `HybridClock.StringLessTransitive` | internal/reconcile/engine.go:141 | the node id order is transitive |
| `HybridClock.Ticked` | internal/hlc/clock.go:40-56 | a stamp lies strictly after every earlier reading of the clock and never behind the wall |
| `HybridClock.Merged` | internal/hlc/clock.go:64-95 | an update is refused exactly for excess drift; an accepted one passes both clocks by the least logical step |
| `HybridClock.Clock.Now` | internal/hlc/clock.go:36-57 | the object computes `Ticked` and returns its reading |
| `HybridClock.Clock.Update` | internal/hlc/clock.go:60-96 | the object computes `Merged`; a refused update changes nothing |
| `Storage.Store.PutWithHLC` | internal/storage/store.go:82-100 | replaces one key unconditionally by a record of the given value, node and stamp, with the physical part as version and timestamp, and leaves the others |
| `Storage.Store.Get` | internal/storage/store.go:53-59 | the stored record or none |
| `Staleness.IsStale` | internal/staleness/detector.go:27-30 | a value is fresh exactly when its physical stamp is at least now minus the bound |
| `Staleness.Detector.CheckStrict` | internal/staleness/detector.go:38-51 | rejects exactly stale values and counts rejections |
| `WriteLog.GetAllIsLatestLive` | internal/reconcile/log.go:41-79 | after any Adds, GetAll is as a multiset the unexpired ones among the latest maxSize |
| `WriteLog.CleanupIsInvisible` | internal/reconcile/log.go:89-112 | a Cleanup before a later GetAll does not change its result or order |
| `WriteLog.NothingEvicted` | internal/reconcile/log.go:41-112 | up to maxSize Adds with any Cleanups between lose no unexpired write |
| `WriteLog.CleanupThenAddEvictsOldest` | internal/reconcile/log.go:41-112 | for any cutoff, the first eviction after a Cleanup drops the oldest unexpired write if and only if the unexpired writes lay all before or all after the wrap point (or the first on either side are the same entry) |
| `WriteLog.CleanupEvictsYounger` | internal/reconcile/log.go:41-112 | for six writes into room for four, any entries and a cutoff between the third and the fourth: the second write after Cleanup evicts the fifth while the older fourth stays |
| `WriteLog.RecentWriteLog.Add` | internal/reconcile/log.go:41-61 | one push into the circular buffer |
| `WriteLog.RecentWriteLog.GetAll` | internal/reconcile/log.go:64-79 | the unexpired entries, in slot order |
| `WriteLog.RecentWriteLog.Cleanup` | internal/reconcile/log.go:89-112 | compacts to the unexpired entries |
| `Reconcile.BelowExactly` | internal/reconcile/engine.go:119-142 | the order repair uses is the order of stamps, and of node ids between equal stamps |
| `Reconcile.ReconcileIsJoin` | internal/reconcile/engine.go:110-147 | each local key ends at the maximum of its value and its logged writes: none is stamped later, none with the same stamp has a greater node id; no key appears or disappears |
| `Reconcile.ReconcileIgnoresOrder` | internal/reconcile/engine.go:110-147 | for any order of the log a key ends at the same stamp and node id, and at the same record when those identify records |
| `Reconcile.RepairIgnoresOrderExactly` | internal/reconcile/engine.go:110-147 | the record a key ends at is the same for every order of the log if and only if all logged writes that could win carry the same record |
| `Reconcile.ReconcileIdempotent` | internal/reconcile/engine.go:110-147 | a second run over the same writes changes nothing and counts nothing |
| `Reconcile.ReplacedCountsChange` | internal/reconcile/engine.go:108-145 | the reported counter is zero if and only if the store did not change |
| `Reconcile.ReplacedCountsPositions` | internal/reconcile/engine.go:108-145 | the reported counter is the number of log positions at which the store changed |
| `Reconcile.Engine.ResolveOne` | internal/reconcile/engine.go:112-146 | a logged write replaces the local value if and only if the key is held and the write is stamped later, or equally with a greater node id |
| `Reconcile.Engine.ReconcileWithPeer` | internal/reconcile/engine.go:97-157 | the loop computes the fold of the node's own unexpired log into its store, and the counter |
| `Reconcile.Engine.RecordWrite` | internal/reconcile/engine.go:160-162 | appends one entry to the log |
| `Replication.Replicate` | internal/replication/coordinator.go:263-360 | the count is the number of distinct nodes that acknowledged, and the verdict compares it with W |
| `Replication.FoundValuesExactly` | internal/replication/coordinator.go:403-425 | a value is kept if and only if some peer replied with it, stale or not, and every such reply is kept |
| `Replication.QueryReplicas` | internal/replication/coordinator.go:363-437 | only replies that hold the key count towards R, plus this node; exactly those are returned, in arrival order |
| `Replication.GetMostRecent` | internal/replication/coordinator.go:451-465 | returns a value that no other is stamped after; none only for no values |
| `Replication.MostRecentStampIgnoresOrder` | internal/replication/coordinator.go:451-465 | the chosen stamp is the same for every arrival order |
| `Replication.MostRecentValueIgnoresOrder` | internal/replication/coordinator.go:451-465 | what is chosen is the same for every arrival order if and only if the replies with the newest stamp agree on value, version, timestamp and stamp, whoever sent them |
| `Server.GetReturnsNewest` | internal/server/server.go:114-236 | a read's answer is a newest candidate within the staleness bound; not found means no candidate; each error has its exact cause |
| `Server.CandidatesExactly` | internal/server/server.go:179-190 | a quorum read chooses among the replies in arrival order and then the stored record with its value, version, timestamp and stamp |
| `Server.LocalReadReturnsRecord` | internal/server/server.go:122-162 | with R = 1 the answer is the stored record itself, refused exactly when stale |
| `Server.ReadIgnoresOrderExactly` | internal/server/server.go:164-234 | what the client is told is the same for every arrival order if and only if no reply is needed, the newest reply is too stale, or the replies with the newest stamp agree |
| `Server.Server.Put` | internal/server/server.go:56-111 | clock, store and log afterwards, and failure exactly below W acknowledgements with a peer connected |
| `Server.Server.Get` | internal/server/server.go:114-236 | the handler computes the read outcome from the local copy and the replies, and counts exactly the stale rejections |
| `Server.Server.GetLocal` | internal/server/server.go:239-261 | answers from the local store; a stale copy is flagged, not refused |
| `Server.Server.Replicate` | internal/server/server.go:264-293 | a drift-refused stamp leaves the clock alone and the write is applied all the same |
| `Server.Server.HealthCheck` | internal/server/server.go:296-316 | merges a given stamp, then hands out the next reading |
| `ClusterClocks.StampShape` | internal/hlc/clock.go:26-96 | in every run a stamp's physical part is a wall reading some node took, its logical part at most the number of clock events with that physical part |
| `ClusterClocks.StampsAreUnique` | internal/hlc/clock.go:36-57 | physical, logical and node id identify at most one write of the cluster |
| `ClusterClocks.StampNearWall` | internal/hlc/clock.go:60-96 | a stamp is at most the drift bound ahead of its issuer's wall clock |
| `ClusterClocks.CausalWritesAreOrdered` | internal/server/server.go:271-282 | along any chain of same-node steps and accepted updates the later write is stamped strictly later |
| `ClusterData.StoreKeepsNewestExactly` | internal/storage/store.go:82-100 | where every copy was the newest of the writes stored, it stays so after one more store if and only if the incoming stamp is not before the copy it replaces |
| `ClusterFreshness.QuorumRule` | internal/config/config.go:137-140 | every read quorum meets every write quorum if and only if R + W > N |
| `ClusterTheorems.SuccessMeansStored` | internal/replication/coordinator.go:338-359 | in every run, with a connected peer, a write succeeds if and only if W distinct nodes that stored that exact stamp are known |
| `ClusterTheorems.SuccessMeansQuorumExactly` | internal/replication/coordinator.go:263-266 | in every run a successful write has W known copies if and only if a peer was connected or W is at most 1 |
| `ClusterFreshness.ReadIsFreshExactly` | internal/server/server.go:114-236 | in every run, however it interleaves, a read without error returns a value not before a given stamp if and only if some node it counted held such a copy at the step by which it answered |
| `ClusterFreshness.QuorumReadIsFresh` | internal/server/server.go:56-236 | in every run a read after a successful write returns nothing older, given R + W > N for the values used and a connected peer, unless a copy of the write quorum fell behind the write between storing it and answering |
| `ClusterFreshness.FallsExactly` | internal/storage/store.go:82-100 | at any step of any run a copy falls behind some stamp if and only if the step puts a write of that key stamped before the copy it replaces |
| `ClusterFreshness.OrderedRunsAreFresh` | internal/server/server.go:56-236 | quorum reads are fresh in every run in which the nodes concerned apply the writes of the key in stamp order |
| `ClusterFreshness.ReadsAreFreshExactly` | internal/server/server.go:114-236 | in every state of every run, no read of a key misses a given stamp if and only if each node whose copy is missing or older has fewer than R - 1 others with an older copy (or refuses such values as stale) |
| `ClusterFreshness.QuorumOfCopiesSuffices` | internal/config/config.go:137-140 | that condition holds while any set of nodes that meets every read quorum holds the stamp |
| `ClusterFreshness.UndisturbedRead` | internal/server/server.go:114-236 | every read the condition speaks of is a continuation of the run by the steps of a read |
| `ClusterTheorems.BoundedStaleness` | internal/server/server.go:199-234 | every value returned is a real write whose issuer's clock had reached the reader's now minus the staleness bound minus the drift bound |
| `ClusterConvergence.RepairedIsWinner` | internal/reconcile/engine.go:97-147 | repair leaves for each key the newest of all writes the node ever stored, in whatever order they came |
| `ClusterConvergence.RepairRestoresExactly` | internal/reconcile/engine.go:97-147 | in every run one repair leaves the newest write a node ever stored under a key if and only if the node holds it or has it in its live log |
| `ClusterConvergence.ConvergenceWhereRecoverable` | internal/reconcile/engine.go:97-147 | two nodes that stored the same writes in any orders hold identical stores after one undisturbed repair each, while neither has lost the newest write of a key |
| `ClusterConvergence.Convergence` | internal/reconcile/engine.go:97-147 | in particular while neither log has lost any write |
| `ClusterConvergence.SettledExactly` | internal/reconcile/engine.go:107-147 | no entry of the live log beats the copy held if and only if a repair would change nothing |
| `ClusterConvergence.SettledHoldsWinner` | internal/reconcile/engine.go:107-147 | in every run a node whose repair would change nothing holds the newest write it stored under a key, if its live log still has it |
| `ClusterConvergence.SettledNodesAgree` | internal/reconcile/engine.go:107-147 | in every run two such nodes that stored the same writes hold the same copy of each key whose newest write both live logs have |
| `ClusterConvergence.RepairSettles` | internal/reconcile/engine.go:97-147 | from every reachable state with an idle repair loop, whatever its log has lost, the steps of the loop lead to the store that one repair computes, and a second repair would change nothing |
| `ClusterCounterexamples.LateStoreHidesNewerWrite` | internal/storage/store.go:82-100 | a run with R = W = 2, N = 3 and all peers contacted in which a late Replicate makes a read return an older write than one that had succeeded |
| `ClusterCounterexamples.EvictedWriteStaysLost` | internal/reconcile/engine.go:107-147 | a run in which all stored writes were logged and repair has nothing to do, and the node holds the older of its two writes |
| `ClusterCounterexamples.TiedStampsDependOnOrder` | internal/replication/coordinator.go:457-462 | two runs that differ only in the order of two replies with equal stamps and return different values |
| `ClusterCounterexamples.LonelyWriteIsMissed` | internal/replication/coordinator.go:263-266 | a run in which a write with no peers succeeds for W = 3 and a read with R = 1 misses it |
| `MetricWindows.AverageOfSamples` | internal/adaptive/ccs.go:41-54 | for any number of samples the average times their number is their sum |
| `MetricWindows.AverageBounds` | internal/adaptive/ccs.go:41-54 | an average lies between any bounds of its samples |
| `MetricWindows.AverageComplement` | internal/adaptive/ccs.go:41-54 | complementary samples have complementary averages |
| `MetricWindows.MetricsWindow.Add` | internal/adaptive/ccs.go:29-38 | one push into the circular buffer |
| `MetricWindows.MetricsWindow.GetAverage` | internal/adaptive/ccs.go:41-54 | the average of the occupied slots, 0 if there are none |
| `Score.Measured` | internal/adaptive/adjuster.go:93-129 | the recorded sample: latency and drift as measured, availability the success rate times the fraction of reachable peers and in [0, 1], error rate its complement, variance the squared spread |
| `Score.ScoreFollowsDelays` | internal/adaptive/ccs.go:129-187 | what latency, variance and clock drift cost below their thresholds |
| `Score.ScoreSaturates` | internal/adaptive/ccs.go:129-187 | past its threshold a measurement costs no more |
| `Score.ScoreFollowsAvailability` | internal/adaptive/ccs.go:129-187 | what availability and error rate contribute, and both together |
| `Score.ScoreExtremes` | internal/adaptive/ccs.go:155-187 | the score is 1 exactly for a perfect sample and 0 exactly for one with every measurement at its worst |
| `Score.ComponentsFollow` | internal/adaptive/ccs.go:166-181 | each component falls in proportion to its measurement and reaches 0 at the threshold |
| `Score.ScoreInvariants` | internal/adaptive/ccs.go:155-208 | in every run raw and smoothed score stay in [0, 1], and error and availability components are equal |
| `Settling.SettlesInNineteen` | internal/adaptive/ccs.go:143-208 | from any history, 19 or more equal inputs make the smoothed score exactly the score of that input |
| `Settling.EighteenSuffice` | internal/adaptive/ccs.go:143-208 | 18 equal inputs do so if and only if the raw score had settled after the ninth |
| `Settling.EighteenAreNotEnough` | internal/adaptive/ccs.go:143-208 | from any history, one tick down and then 18 healthy ones leave the score unsettled |
| `Quorums.ValidateConfig` | internal/config/config.go:120-143 | accepts exactly configurations with an id, three nodes, R and W in range and R + W > N |
| `Quorums.AdaptiveQuorum.SetQuorum` | internal/adaptive/quorum.go:85-129 | the error in the source's order of checks; the state changes exactly when there is none |
| `Quorums.AdaptiveQuorum.Validate` | internal/adaptive/quorum.go:139-150 | the first violated rule |
| `Quorums.AdaptiveQuorum.IsInLockout` | internal/adaptive/quorum.go:132-136 | true exactly within the lockout of the last adjustment |
| `Adjuster.MovesWithScore` | internal/adaptive/adjuster.go:166-227 | a score below the relax threshold moves one from W to R, otherwise one above the tighten threshold moves one from R to W, and in between nothing moves |
| `Adjuster.MovesExactly` | internal/adaptive/adjuster.go:166-227 | the quorum moves if and only if the score asks for it, neither clock reading is in the lockout and the new pair is valid |
| `Adjuster.CcsComputer.ComputeCcs` | internal/adaptive/ccs.go:155-198 | the weighted score and its components from the window averages |
| `Adjuster.CcsComputer.RecordMetrics` | internal/adaptive/ccs.go:143-152 | one push into each of the five windows |
| `Adjuster.Adjuster.AdjustQuorum` | internal/adaptive/adjuster.go:79-241 | one tick: windows and quorum afterwards, whether the quorum moved, and which way for which score |
| `ControllerRuns.SumConserved` | internal/adaptive/adjuster.go:173-227 | every run keeps R + W and, once in bounds, stays in bounds |
| `ControllerRuns.IntersectionNeverRejects` | internal/adaptive/quorum.go:94-97 | from a validated configuration no run ever offers a move that the intersection check rejects |
| `ControllerRuns.CrossTimeQuorums` | internal/adaptive/quorum.go:66-77 | R at one moment plus W at another is at least the sum minus the adjustments accepted between |
| `ControllerRuns.RateLimit` | internal/adaptive/quorum.go:89-114 | the i-th and j-th accepted adjustments are at least j - i lockouts apart |
| `ControllerRuns.AtMostPerInterval` | internal/adaptive/quorum.go:89-114 | an interval of length T holds at most T / lockout + 1 accepted adjustments |
| `ControllerRuns.ReachesLimit` | internal/adaptive/adjuster.go:58-227 | asked for one direction throughout, with a ticker of a given period and ticks of bounded length, the controller runs out of moves within that many lockouts |
| `ControllerRuns.LockoutTicks` | internal/adaptive/quorum.go:89-92 | the least positive number of ticks that spans a lockout and the length of a tick |
| `ControllerRuns.Frozen` | internal/adaptive/adjuster.go:209-217 | with no moves left nothing changes any more |
| `ControllerRuns.LimitIsExtreme` | internal/adaptive/quorum.go:99-105 | no moves left means R is at the extreme value its sum and bounds allow |
| `ControllerRuns.ConstantInputReachesLimit` | internal/adaptive/adjuster.go:79-241 | whatever the history, a constant input that scores below the relax threshold drives R to its greatest, and one above the tighten threshold to its least possible value, within 18 ticks plus one lockout per step of the range |
| `AckCounter.AcknowledgeRefines` | go-ycsb-vendor/pkg/generator/acknowledged_counter.go:80-110 | a new value in the window never panics, the flags keep representing the acknowledged set, and Last is the end of the longest acknowledged prefix if and only if the loop guard did not fire |
| `AckCounter.PanicsExactly` | go-ycsb-vendor/pkg/generator/acknowledged_counter.go:81-84 | a call panics if and only if its slot is taken by an acknowledged, unpublished value |
| `AckCounter.LastIsPrefixEnd` | go-ycsb-vendor/pkg/generator/acknowledged_counter.go:60-110 | in every sequential run from a positive start Last is exactly the end of the longest acknowledged prefix |
| `AckCounter.ZeroStartStopsShort` | go-ycsb-vendor/pkg/generator/acknowledged_counter.go:97-100 | from start 0 and for every window size of two or more, a full window whose first value comes last is published one value short |
| `AckCounter.AcknowledgedCounter.Acknowledge` | go-ycsb-vendor/pkg/generator/acknowledged_counter.go:80-110 | one undisturbed call computes the scan on the flag array; the loop ends for any flags |
| `AckCounterThreads.LastIsSafe` | go-ycsb-vendor/pkg/generator/acknowledged_counter.go:75-110 | in every interleaving nobody panics, Last covers only acknowledged values and scans stay within one window |
| `AckCounterThreads.LimitNeverDecreases` | go-ycsb-vendor/pkg/generator/acknowledged_counter.go:75-110 | in every interleaving Last never decreases |
| `AckCounterThreads.CallsEnd` | go-ycsb-vendor/pkg/generator/acknowledged_counter.go:80-110 | in every interleaving each call returns within a bounded number of its own steps |
| `AckCounterThreads.LoserLeavesLag` | go-ycsb-vendor/pkg/generator/acknowledged_counter.go:86-109 | a run, for every window size of two or more, that ends with every call returned and Last short of the acknowledged prefix |
| `AckCounterThreads.NoLagExactly` | go-ycsb-vendor/pkg/generator/acknowledged_counter.go:86-109 | while nobody holds the lock Last is the end of the acknowledged prefix if and only if the flag of the next value is down |
| `AckCounterThreads.NextCallCatchesUp` | go-ycsb-vendor/pkg/generator/acknowledged_counter.go:80-110 | after any run the next undisturbed call brings Last to the prefix end if and only if the loop guard does not fire |
| `Varint.ZigZagShifts` | go-ycsb-vendor/pkg/util/row.go:58-62 | the sign is folded as Go does it, by a shift of the two's complement and an inversion |
| `Varint.PutUvarintFormat` | go-ycsb-vendor/pkg/util/row.go:58-62 | the bytes are the base 128 notation, least significant group first, high bit on all but the last, no superfluous group |
| `Varint.DecodeVarintExactly` | go-ycsb-vendor/pkg/util/row.go:95-104 | what every byte sequence decodes to, and exactly when it is too short or too large |
| `Varint.VarintRoundTrip` | go-ycsb-vendor/pkg/util/row.go:58-62 | decoding undoes encoding for every int64, whatever follows |
| `Varint.VarintFitsBuffer` | go-ycsb-vendor/pkg/util/row.go:59-61 | ten bytes always suffice |
| `RowCodec.EncodeRow` | go-ycsb-vendor/pkg/util/row.go:27-40 | fails exactly on a count mismatch, otherwise produces the row layout |
| `RowCodec.DecodeRow` | go-ycsb-vendor/pkg/util/row.go:67-89 | the loop computes the row and error of the bytes, and ends |
| `RowCodec.RowLayout` | go-ycsb-vendor/pkg/util/row.go:27-56 | the bytes of the empty row, of one column and of several |
| `RowCodec.RowOfKeepsLast` | go-ycsb-vendor/pkg/util/row.go:75-87 | a row has exactly the listed ids, each with the value listed last |
| `RowCodec.RowRoundTrip` | go-ycsb-vendor/pkg/util/row.go:27-115 | an encoded row decodes without error to its columns, for any ids and values, the empty row included |
| `RowCodec.FieldNameReadsBack` | go-ycsb-vendor/pkg/util/core.go:29-32 | the name of field i is "field" and the decimal numeral of i without leading zeros |
| `RowCodec.FieldNameInjective` | go-ycsb-vendor/pkg/util/core.go:29-32 | different field numbers have different names |
| `RowCodec.CreateFieldIndices` | go-ycsb-vendor/pkg/util/core.go:26-34 | the table maps exactly the field names to their own numbers |
| `RowCodec.AllFields` | go-ycsb-vendor/pkg/util/core.go:37-45 | lists the field names in order |
| `RowCodec.UnknownNameIsFieldZero` | go-ycsb-vendor/pkg/util/core.go:74-91 | a name that no field has is written as and read from field 0 |
| `RowCodec.RowCodec.Encode` | go-ycsb-vendor/pkg/util/core.go:84-96 | encodes the values with their field numbers, in iteration order |
| `RowCodec.RowCodec.Decode` | go-ycsb-vendor/pkg/util/core.go:62-81 | returns the wanted fields present in the row, all fields if none are named |
| `RowCodec.ValuesRoundTrip` | go-ycsb-vendor/pkg/util/core.go:62-96 | for known names and any iteration order, Decode of Encode returns exactly the wanted values |
| `RowCodec.RoundTripExactly` | go-ycsb-vendor/pkg/util/core.go:62-96 | with all fields wanted the round trip is the identity if and only if every name is known |

## Left out

- Storage.Store.PutWithHLC: the `ReceivedAt` field of a record is not modelled, because it is a clock reading that nothing ever reads.
- gRPC, DNS discovery, timeouts and channels: messages are delivered, lost or answered in any order instead.
- Prometheus metrics, histogram extraction and logging: latency, success rate and drift are inputs of a tick.
- Environment parsing, command-line tools, benchmark drivers, scripts and deployment files: input and output only.
- Health probing (internal/health/probe.go): a repair may start at any time; the probe sends no stamp, so the cluster's health check step only advances the clock.
- Peer discovery: each request contacts an arbitrary set of the other nodes, and the membership itself is fixed.
- `Staleness.Detector.CheckMultiple` of the source and the unused getters of the store: they would add only easy members.
- Node restart and persistence: the store is in memory and there is no recovery path.
- Floating-point rounding and overflow of nanoseconds.
- A controller without configured peers, where the availability would be a division by zero: a validated configuration has at least three nodes.
- The Go memory model of the acknowledged counter: its plain reads and writes of the flag array are taken as atomic.
- Zipfian and other random generators, database bindings and the sharded map of go-ycsb.
- Decoder behaviour on malformed rows beyond single varints: modelled as error results, with no property stated.
