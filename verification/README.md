# EvergreenShims, modelled and proved

A Dafny model of the stateful cores of EvergreenShims: the in-process cache, TCP failover and
multi-cluster promotion, change capture, alert deduplication, the encryption key ring, login lockout
and backup retention. Each core appears twice. A state machine on values says what one operation does;
runs are lists of operations, and the theorems quantify over all of them. A class with the source's
fields updates them in place with the source's loops, and every method is proved to perform exactly
the state machine's step.

Verify the whole project with `dafny verify dfyconfig.toml`.

## How the parts fit

- `Base`, `Text`, `Numbers`, `KeyQueues`: optional values and bytes, splitting and trimming, decimal
  printing and parsing, duplicate-free queues and subsequences.
- `Cache`, `CacheInvariants`, `CacheRefinement`, `CacheShim`: the cache. `CacheInclusion`,
  `CacheLruInclusion`, `CacheLfuInclusion`, `CacheRuns`, `CacheInclusionIff`: caches of different capacity.
- `Failover`, `FailoverShim`: the TCP check handler and failover trigger.
- `ClusterHealth`, `TargetSelection`, `ClusterLoop`, `ClusterMonitor`, `ClusterSpec`: multi-cluster
  failover, its two health rules, and the cluster specification parser.
- `Lsn`, `Cdc`, `CdcShim`: the log position and the capture pipeline.
- `Alerting`, `AlertingShim`, `AlertDelivery`, `AlertRuns`: deduplication with the cleaner interleaved,
  delivery, and whole runs of both.
- `Encryption`, `EncryptionShim`; `Auth`; `Backup`.

Conventions. Clock readings, probe and promotion results, webhook replies and random draws are
arguments of the step that consumes them. `DateTime` values are integers (nanoseconds where seconds
are compared), `f64` scores are reals, counters are unbounded. The order in which a hash map is scanned
is arbitrary: a nondeterministic choice in LFU eviction, an explicit list in target selection. A
threshold or capacity of zero is not excluded where the code gives it a meaning: it acts as one, and
the statements say `Max(1, ...)`.

## Where the code departs from its documentation

- `select_failover_target` says it tries clusters in configured order; it scans a hash map, and the
  choice is free of the scanning order if and only if at most one cluster is eligible:
  `TargetSelection.SequentialOrderFreeIff`, `SequentialOrderMatters`. The loop does use a fixed order,
  that of the sorted names.
- `publish_batch` says it returns the number of events published; it returns the batch size:
  `Cdc.ReturnedIsPublishedIff` gives the exact condition and `Cdc.ReturnedOverstates` an input. One
  webhook delivery counts the whole batch as published: `Cdc.PublishedIsDeliveredIff`.
- Deduplication is documented for identical alerts. The key holds source, title and severity only, so no
  key tells an alert from one with another message: `Alerting.KeyNeverUnique`. It joins source and title
  with a colon, so even alerts that differ there can share it: `Alerting.KeyUnambiguousIff` gives the
  exact condition and `Alerting.SubjectsClash` an input.
- An alert is routed by severity but each webhook is then looked up by name, so among webhooks of one
  name the first is posted to, even one that does not accept the alert:
  `AlertDelivery.RecipientsAsRoutedIff`, `PostedToNamesake`.
- Backoff is recorded for failing endpoints and not obeyed: `process_alert` posts during it
  (`AlertRuns.BackoffIgnored`, `AlertRuns.PostsInBackoff`).
- `decrypt` says it tries any known key; it uses the key named in the payload only:
  `Encryption.ReadsBackIff` gives the exact condition and `Encryption.OtherIdNotTried` an input.
- With an associated-data prefix, payloads do not read back: `Encryption.RoundTripIff`. Rotating to an
  id that was used before loses its payloads unless its material is restored: `Encryption.RotationReadsIff`.
- With a threshold of two or more, a failed check right after a failover takes the monitor out of
  FailedOver, and the replica then stays in charge while everything is up:
  `Failover.FailbackOnlyFromFailedOver`, `Failover.StrandedOnReplica`. When the
  phase is FailedOver is said by `Failover.FailedOverIff`.
- `advance_wal` loses the part of a step that overruns a segment, and a position set beyond its segment
  goes back: `Lsn.AdvanceExactIff`, `Lsn.AdvanceOrdered`, `Lsn.AdvanceGoesBack`. For `parse_lsn`, which
  keeps 32 bits of the segment, an advance can go back too: `Lsn.AdvanceParsedIff`, `Lsn.ParsedWraps`.
- The loop's latency map is never written, so its latency strategy is the sequential one and its
  weighted strategy a uniform one: `ClusterLoop.LatencyIsSequential`, `ClusterLoop.WeightedIsUniform`.
- `hex_decode` accepts a plus sign in place of a leading digit: `Auth.HexDecodableIff`,
  `Auth.DecodableHexIff`, `Auth.PlusDecodes`.
- A backup that stops on an unretryable error counts neither as success nor as failure:
  `Backup.CountedIff` gives the exact condition and `Backup.AbortUncounted` inputs.

## Model

| member | source | states |
|---|---|---|
| CacheInclusionIff.InclusionIff | crates/cache-shim/src/lib.rs:141-356 | for two caches that differ in capacity only, m <= n (zero acting as one): every run of the small one is contained in every run of the large one over the same events, entry for entry and with no more hits, if and only if m = 1, or the strategy is FIFO, or it is LRU and m = n or `max_size` = 0 |
| CacheInclusion.FifoInclusion | crates/cache-shim/src/lib.rs:141-228 | under FIFO and any byte limit the small insertion queue is always the end of the large one, and the small cache is contained in the large one |
| CacheInclusion.ContainedAnswers | crates/cache-shim/src/lib.rs:141-178 | whatever a contained cache answers, the larger one answers the same |
| CacheInclusion.PopsLess | crates/cache-shim/src/lib.rs:191-225 | a FIFO `set` never pops the large queue past the small one |
| CacheInclusion.OneEntryInclusion | crates/cache-shim/src/lib.rs:141-228 | under every strategy and byte limit a cache of one entry is contained in every larger one |
| CacheInclusion.SameRun | crates/cache-shim/src/lib.rs:141-356 | LRU and FIFO runs are determined by their events |
| CacheInclusion.OtherContained | crates/cache-shim/src/lib.rs:141-301 | under every strategy each operation but `set`, sweeps included, keeps the containment |
| CacheLruInclusion.LruInclusion | crates/cache-shim/src/lib.rs:141-228 | under LRU, in each run in which the byte limit forces no eviction of the large cache, the small cache is contained in it and in the same order |
| CacheLruInclusion.LruSet | crates/cache-shim/src/lib.rs:197-225 | without byte pressure an LRU `set` evicts exactly the overflow from the front and appends the key |
| CacheLfuInclusion.LfuInclusion | crates/cache-shim/src/lib.rs:141-228 | under LFU, in each run in which the byte limit forces no eviction of the large cache and none of its evictions meets a tie, the small cache is contained in it however the small one breaks ties |
| CacheLfuInclusion.SetSwaps | crates/cache-shim/src/lib.rs:197-225 | without byte pressure an LFU `set` on a full cache replaces exactly one least used entry |
| CacheInclusionIff.LruLosesInclusion | crates/cache-shim/src/lib.rs:191-225 | for all 2 <= m < n and every positive `max_size`, clocked LRU runs after which the small cache has a key the large one evicted |
| CacheInclusionIff.LfuLosesInclusion | crates/cache-shim/src/lib.rs:197-225 | for all 2 <= m <= n, the same under LFU by breaking ties differently |
| CacheRuns.LruPlays | crates/cache-shim/src/lib.rs:141-228 | every list of gets and sets in which nothing expires has an LRU run, under both limits, and it ends as a plain queue of sizes does that moves or pops keys |
| CacheRuns.NewKeySet | crates/cache-shim/src/lib.rs:181-225 | under LRU and FIFO a `set` always exists that pops the shortest prefix making room |
| CacheRefinement.StoredIsLastSet | crates/cache-shim/src/lib.rs:141-301 | in every reachable state, any strategy and any evictions, each stored entry is the last accepted `set` of its key since its last removal |
| CacheRefinement.LiveIsStored | crates/cache-shim/src/lib.rs:141-301 | in every run a key that is alive and was not evicted since its last `set` is in the cache |
| CacheRefinement.EvictedIsGone | crates/cache-shim/src/lib.rs:181-356 | a key evicted since its last accepted `set` is not in the cache |
| CacheRefinement.GetRefinesMap | crates/cache-shim/src/lib.rs:141-178 | `get` answers as an unbounded expiring map or misses, and as that map if and only if the key was not evicted since its last `set` or the map misses too; so always while the eviction counter is zero |
| CacheRefinement.SetThenGet | crates/cache-shim/src/lib.rs:181-228 | after an accepted `set` the key answers its value for `ttl_secs` seconds, the last instant included, and then no more |
| CacheRefinement.RunFiled | crates/cache-shim/src/lib.rs:135-138 | in every run an entry is filed under the cache's prefix followed by its own key |
| CacheRefinement.PrefixDrops | crates/cache-shim/src/lib.rs:245-268 | in every run `invalidate_prefix` drops exactly the entries whose key starts with the prefix |
| CacheRefinement.UsageIsHistory | crates/cache-shim/src/lib.rs:166-175 | the access count and last access time that LFU and LRU go by are the key's gets since its last set and its last touch |
| CacheInvariants.RunKeeps | crates/cache-shim/src/lib.rs:145-225 | in every run both queues list exactly the stored keys once, sizes add up within `max_size`, entries stay within max(1, max_entries), hits + misses counts the gets |
| CacheInvariants.HitsAnswered | crates/cache-shim/src/lib.rs:146-177 | the hit counter is the number of gets that found a live entry |
| CacheInvariants.StepKeeps | crates/cache-shim/src/lib.rs:230-301 | every operation, sweeps included, keeps that representation invariant |
| CacheInvariants.SetEvictsShortestPrefix | crates/cache-shim/src/lib.rs:191-225 | under LRU and FIFO the new queue is the old one without the key, minus the shortest prefix whose removal meets both limits, then the key |
| CacheInvariants.LruVictimsLeastRecent | crates/cache-shim/src/lib.rs:330-343 | in every timed run each LRU victim was last used no later than every entry that stays |
| CacheInvariants.LfuVictimsLeastUsed | crates/cache-shim/src/lib.rs:338-342 | no LFU victim was used more often than an entry that stays, however ties break |
| CacheInvariants.FifoVictimsOldest | crates/cache-shim/src/lib.rs:330-343 | in every timed run each FIFO victim was created no later than every entry that stays |
| CacheInvariants.EvictionsCounted | crates/cache-shim/src/lib.rs:330-356 | in every run the eviction counter is the number of keys that `set` took away |
| CacheInvariants.RunRecency | crates/cache-shim/src/lib.rs:167-175 | the access queue is always sorted by time of last use |
| CacheInvariants.ChainPops | crates/cache-shim/src/lib.rs:335-351 | successive victims are the front of the strategy's queue, in order |
| CacheShim.Shim.Get | crates/cache-shim/src/lib.rs:141-178 | the method answers what is visible and leaves the state machine's next state; no subtraction underflows |
| CacheShim.Shim.Set | crates/cache-shim/src/lib.rs:181-228 | both eviction loops terminate and the result is a legal `set` step; false exactly for an oversized value, which changes nothing |
| CacheShim.Shim.MakeRoom | crates/cache-shim/src/lib.rs:197-210 | the byte loop and then the count loop stop as soon as both limits hold, each victim taken while one was exceeded |
| CacheShim.Shim.EvictOne | crates/cache-shim/src/lib.rs:330-356 | one victim of the strategy leaves map, byte total and both queues; false exactly on an empty cache |
| CacheShim.Shim.LeastUsed | crates/cache-shim/src/lib.rs:338-342 | the scan finds an entry of least access count in any scanning order |
| CacheShim.Shim.Invalidate | crates/cache-shim/src/lib.rs:231-242 | drops the key if present and says whether it was |
| CacheShim.Shim.InvalidatePrefix | crates/cache-shim/src/lib.rs:245-268 | drops exactly the keys with the prefix and returns how many |
| CacheShim.Shim.DropExpired | crates/cache-shim/src/lib.rs:271-292 | drops exactly the expired entries, as purge and as background sweep, and returns how many |
| CacheShim.Shim.ForgetAll | crates/cache-shim/src/lib.rs:282-289 | removing keys one by one amounts to one removal of the whole set |
| CacheShim.Shim.Exists | crates/cache-shim/src/lib.rs:320-328 | true exactly when `get` would answer |
| Failover.RunConsistent | crates/failover-shim/src/lib.rs:862-940 | in every run the phase is determined by the failure counter, and FailedOver and Recovered fix the current primary |
| Failover.FailuresAreSuffix | crates/failover-shim/src/lib.rs:924-938 | the counter's worth of latest checks all failed, on the current primary, without a promotion |
| Failover.FailuresAreMaximal | crates/failover-shim/src/lib.rs:873-874 | what precedes those checks is a healthy one or a successful promotion |
| Failover.PromotionIsEarned | crates/failover-shim/src/lib.rs:924-938 | a promotion follows `threshold` consecutive failed checks of one and the same node |
| Failover.PromotionIff | crates/failover-shim/src/lib.rs:924-938 | a check promotes if and only if the promotion works and it ends `threshold` failed checks without another promotion |
| Failover.StreakIsSuffix | crates/failover-shim/src/lib.rs:877-883 | the failback streak counts uninterrupted healthy checks of the replica while failed over |
| Failover.StreakIsMaximal | crates/failover-shim/src/lib.rs:877-922 | the check before the streak failed, handed service back, or found it elsewhere |
| Failover.FailbackIsEarned | crates/failover-shim/src/lib.rs:877-915 | a failback follows ten uninterrupted healthy checks, the original primary being up at the last |
| Failover.FailbackIff | crates/failover-shim/src/lib.rs:877-915 | a check fails back if and only if the original primary is up and it ends ten healthy checks of the replica in a row while failed over |
| Failover.Accounting | crates/failover-shim/src/lib.rs:873-940 | failovers * threshold + failures <= failed checks; 10 * failbacks + streak <= healthy checks; failbacks + [FailedOver] <= failovers |
| Failover.FlappingBound | crates/failover-shim/src/lib.rs:873-940 | each failover-failback cycle costs `threshold` failed and ten healthy checks |
| Failover.FailbackOnlyFromFailedOver | crates/failover-shim/src/lib.rs:877-922 | with the replica serving and all up, ten checks hand service back if and only if the phase is FailedOver |
| Failover.FailedOverIff | crates/failover-shim/src/lib.rs:862-940 | in every run the phase is FailedOver if and only if some check promoted and every later one was healthy and handed nothing back |
| Failover.RecoveredIff | crates/failover-shim/src/lib.rs:877-922 | in every run the phase is Recovered if and only if some check handed service back and every later one was healthy |
| Failover.StrandedOnReplica | crates/failover-shim/src/lib.rs:916-922 | two failures, a promotion and one more failure leave the replica in charge however long all stays up |
| FailoverShim.Monitor.HandleCheckResult | crates/failover-shim/src/lib.rs:862-940 | the handler performs the state machine's step on the shared fields |
| FailoverShim.Monitor.TriggerFailover | crates/failover-shim/src/lib.rs:946-1097 | a working promotion moves the primary, counts and resets; a failing one leaves FailingOver |
| FailoverShim.Monitor.Watch | crates/failover-shim/src/lib.rs:627-650 | a whole run of the loop ends in the run's state, which is consistent |
| FailoverShim.Decode | crates/failover-shim/src/lib.rs:208-231 | decoding inverts the stored code; unknown codes read as Healthy |
| FailoverShim.Codes | crates/failover-shim/src/lib.rs:208-231 | the six codes, one by one |
| ClusterHealth.RulesBisimilar | crates/failover-shim/src/lib.rs:1722-1778 | over any rounds, also without endpoints, both health rules give the status the history dictates and a counter equal to the wholly unreachable suffix |
| ClusterHealth.RulesDifferOnlyWithoutEndpoints | crates/failover-shim/src/lib.rs:1976-1997 | on one round the two rules agree if and only if there are endpoints or no failures on record |
| ClusterHealth.DownSuffixMeans | crates/failover-shim/src/lib.rs:1769-1776 | that suffix consists of wholly unreachable rounds and cannot be extended |
| ClusterHealth.LatencyIsMean | crates/failover-shim/src/lib.rs:1728-1759 | a measured latency lies between the fastest and slowest answer, and exists exactly when some endpoint answered |
| ClusterHealth.LatencyIsQuotient | crates/failover-shim/src/lib.rs:1728-1759 | a measured latency is the sum of the answering times divided by their number |
| ClusterLoop.MonitorAndLoopAgree | crates/failover-shim/src/lib.rs:1950-1997 | `check_all_clusters` and the loop, fed the same rounds, agree on every cluster's status and counter |
| ClusterLoop.LoopTracksHistory | crates/failover-shim/src/lib.rs:1950-1997 | after any rounds the loop's maps hold what each cluster's own history dictates |
| ClusterLoop.PromotionIsJustified | crates/failover-shim/src/lib.rs:1999-2075 | a promotion replaces a primary wholly unreachable for `threshold` consecutive rounds by another cluster whose endpoints all answered |
| ClusterLoop.TickLeavesPrimaryServing | crates/failover-shim/src/lib.rs:1999-2075 | after every round the primary is not Failed or no other cluster is Healthy |
| ClusterLoop.FirstHealthyPromoted | crates/failover-shim/src/lib.rs:1999-2037 | the sequential strategy promotes the first healthy cluster in name order, the primary aside |
| ClusterLoop.PromotionAccounting | crates/failover-shim/src/lib.rs:1946-2107 | promotions * threshold + failures of the primary <= rounds |
| ClusterLoop.LatencyNeverMeasured | crates/failover-shim/src/lib.rs:1937-1997 | in every run the loop's latency of every cluster is unknown |
| ClusterLoop.LatencyIsSequential | crates/failover-shim/src/lib.rs:2032-2037 | in every run the latency strategy picks what the sequential one picks |
| ClusterLoop.WeightedIsUniform | crates/failover-shim/src/lib.rs:2038-2065 | in every run the weighted strategy gives the healthy clusters equal shares and promotes the one owner of the drawn point |
| TargetSelection.ChooseTotal | crates/failover-shim/src/lib.rs:1781-1841 | for all three strategies a target exists if and only if another cluster is Healthy, and it is one |
| TargetSelection.SequentialFirst | crates/failover-shim/src/lib.rs:1795-1797 | the sequential strategy takes the first eligible cluster of the scanning order |
| TargetSelection.SequentialOrderFreeIff | crates/failover-shim/src/lib.rs:1781-1797 | the sequential choice is the same for every scanning order of the map if and only if at most one cluster is eligible |
| TargetSelection.SequentialOrderMatters | crates/failover-shim/src/lib.rs:1781-1797 | two healthy clusters whose scanning order decides which is promoted |
| TargetSelection.FasterScoresMore | crates/failover-shim/src/lib.rs:1802-1817 | a faster healthy cluster owns a longer share |
| TargetSelection.LatencyMinimal | crates/failover-shim/src/lib.rs:1798-1801 | no candidate comes before the promoted one in the order of `unwrap_or(u64::MAX)` |
| TargetSelection.FastestChosen | crates/failover-shim/src/lib.rs:1798-1801 | if some healthy cluster has a measured latency, the latency strategy promotes a measured one whose latency is no larger than any |
| TargetSelection.DrawCongruent | crates/failover-shim/src/lib.rs:1826-1831 | the drawn point lies on the line and is the hash in billionths up to a whole number of line lengths |
| TargetSelection.ScoreIsReciprocal | crates/failover-shim/src/lib.rs:1802-1817 | a healthy cluster's score times its latency in milliseconds plus one is one, an unmeasured latency being 1000 |
| TargetSelection.WeightedByScore | crates/failover-shim/src/lib.rs:1802-1840 | the weighted choice is the one candidate whose share of the line, as long as its score, holds the drawn point |
| TargetSelection.ScanFindsShare | crates/failover-shim/src/lib.rs:1831-1839 | the prefix-sum scan always stops inside the line, so its fallback is unreachable, at the unique owner of the target |
| TargetSelection.PickWeighted | crates/failover-shim/src/lib.rs:2038-2065 | the cumulative loop returns that owner |
| ClusterMonitor.CheckCluster | crates/failover-shim/src/lib.rs:1723-1776 | the per-cluster body computes the health rule |
| ClusterMonitor.CountReachable | crates/failover-shim/src/lib.rs:1728-1752 | the endpoint loop tells all, some and none reachable apart |
| ClusterMonitor.Monitor.CheckAllClusters | crates/failover-shim/src/lib.rs:1722-1778 | every cluster is updated by the rule once, in any order |
| ClusterMonitor.Monitor.PromoteSecondary | crates/failover-shim/src/lib.rs:1848-1899 | promotes exactly when another cluster is Healthy, under the latency strategy one no slower than any measured one, moving both primary fields and the counter; otherwise changes nothing |
| ClusterMonitor.LoopTask.Run | crates/failover-shim/src/lib.rs:1946-2075 | one tick of the spawned task is the loop's step |
| ClusterMonitor.LoopTask.FailOver | crates/failover-shim/src/lib.rs:1999-2075 | the primary moves exactly when it has Failed and a target exists, to that target |
| ClusterMonitor.LoopTask.CheckClusters | crates/failover-shim/src/lib.rs:1950-1997 | the task's two maps are updated for every name |
| ClusterSpec.ParseClusters | crates/failover-shim/src/lib.rs:1662-1681 | for any text the result maps exactly the names listed with at least three parts, each to its endpoints in order; none is empty |
| ClusterSpec.ParseInvertsRender | crates/failover-shim/src/lib.rs:1662-1681 | parsing the rendering of any list of pieces, white space around them, short pieces and surplus parts included, gives each name of a piece of three parts or more its endpoints in list order |
| Text.SplitJoin | crates/failover-shim/src/lib.rs:1664-1669 | splitting inverts joining when no piece contains the separator |
| Text.TrimSurrounded | crates/failover-shim/src/lib.rs:1665 | trimming takes exactly the white space around a text |
| Text.SpacesListed | crates/failover-shim/src/lib.rs:1665 | the characters trimming removes, one by one |
| Text.LowerEqualIff | crates/cdc-shim/src/lib.rs:201 | two texts are equal after lowering if and only if they differ in the case of ASCII letters only |
| Lsn.ParseOfPrint | crates/cdc-shim/src/lib.rs:796-804 | the parser reads a printed position as its shifted halves or-ed, which for a 32-bit offset is (segment mod 2^32) * 2^32 + offset |
| Lsn.ParseOfParts | crates/cdc-shim/src/lib.rs:796-804 | of any list of parts the parser reads two numbers, or else zero |
| Lsn.AdvanceOrdered | crates/cdc-shim/src/lib.rs:427-435 | for every position and delta: the result is regular, never overshoots, and goes forward in the log exactly under the stated conditions on the offset |
| Lsn.AdvanceParsedIff | crates/cdc-shim/src/lib.rs:796-804 | for every printed position with a 32-bit offset, what `parse_lsn` reads goes forward under an advance if and only if there is no rollover from a segment whose low 32 bits are all set |
| Lsn.ParsedWraps | crates/cdc-shim/src/lib.rs:796-804 | such a rollover parses back to zero |
| Lsn.AdvanceExactIff | crates/cdc-shim/src/lib.rs:427-433 | every position moves by exactly delta if and only if the segment end is not overrun |
| Lsn.AdvanceDropsExcess | crates/cdc-shim/src/lib.rs:429-432 | a concrete step that loses sixteen bytes |
| Lsn.AdvanceGoesBack | crates/cdc-shim/src/lib.rs:422-435 | a position set beyond its segment goes back when advanced |
| Numbers.ParseOfDec | crates/cdc-shim/src/lib.rs:799-801 | 64-bit decimal parsing inverts printing |
| Numbers.ShiftOrIsSum | crates/cdc-shim/src/lib.rs:800 | shift and bitwise or is the sum of the shifted low 32 bits of the segment and a 32-bit offset |
| Numbers.OrBits | crates/cdc-shim/src/lib.rs:800 | each bit of the or is the or of the bits |
| Numbers.ParseU64Iff | crates/cdc-shim/src/lib.rs:799 | digits after at most one plus sign, of a value below 2^64, are what is read |
| Cdc.Conservation | crates/cdc-shim/src/lib.rs:226-301 | in every run accepted events are, in order, those that left the queue then those in it; captured = published + failed + pending; the ring is the last ones pushed |
| Cdc.PublishedCount | crates/cdc-shim/src/lib.rs:255-294 | the published counter is the events ringed by the webhook, or the serializable ones of the log transport |
| Cdc.PublishedInLogOrder | crates/cdc-shim/src/lib.rs:226-235 | when only `advance_wal` moves the position and its segment stays below 2^32, queue, released events and ring are in non-decreasing order of what `parse_lsn` reads |
| Cdc.DrainCalls | crates/cdc-shim/src/lib.rs:244-253 | repeated publishing empties a queue of n if and only if called at least as often as it takes batches to hold n events |
| Cdc.BatchesIsQuotient | crates/cdc-shim/src/lib.rs:244-253 | that number of batches is n / batch_size, rounded up |
| Cdc.ReturnedIsPublishedIff | crates/cdc-shim/src/lib.rs:242-301 | the returned number is the number of events published if and only if the batch is empty, the webhook made a delivery, or the log serialized every event |
| Cdc.PublishedIsDeliveredIff | crates/cdc-shim/src/lib.rs:255-276 | the webhook's published count grows by the deliveries made if and only if none or all of the batch was delivered |
| Cdc.ReturnedOverstates | crates/cdc-shim/src/lib.rs:255-301 | a webhook batch of two without a delivery returns two and publishes none; with one delivery it publishes two |
| Cdc.EventIdsDistinct | crates/cdc-shim/src/lib.rs:212-214 | the padded counter never prints the same identifier twice |
| Cdc.EventIdReads | crates/cdc-shim/src/lib.rs:212-214 | an identifier is the prefix and the counter in at least ten digits |
| CdcShim.Shim.PublishBatch | crates/cdc-shim/src/lib.rs:244-301 | one call settles every event of one batch and returns published plus failed, which is the number published exactly under the condition of `ReturnedIsPublishedIff` |
| CdcShim.Shim.PushToRing | crates/cdc-shim/src/lib.rs:401-406 | the ring keeps the last `ring_capacity` events |
| CdcShim.Shim.CreateEvent | crates/cdc-shim/src/lib.rs:205-223 | a new event's identifier differs from all earlier ones |
| CdcShim.Shim.Capture | crates/cdc-shim/src/lib.rs:226-235 | accepts exactly the listed tables, in any case, or all without a list, and stamps the current position |
| Cdc.CaptureIff | crates/cdc-shim/src/lib.rs:200-202 | a table is captured if and only if there is no table list or it is listed, in any case |
| CdcShim.Shim.AdvanceWal | crates/cdc-shim/src/lib.rs:427-435 | the in-place update is the position's step |
| Alerting.DedupIsFullHistory | crates/alerting-shim/src/lib.rs:155-170 | an alert is suppressed if and only if an accepted alert with its key is younger than the window, whatever sweeps ran |
| Alerting.SweepsChangeNothing | crates/alerting-shim/src/lib.rs:312-327 | removing all cleaner sweeps from a run changes no decision |
| Alerting.AcceptedSpaced | crates/alerting-shim/src/lib.rs:253-258 | accepted alerts with one key are at least a window apart |
| Alerting.KeyUnambiguousIff | crates/alerting-shim/src/lib.rs:96-98 | only alerts of the same source, title and severity share an alert's key if and only if its source and title contain no colon |
| Alerting.SubjectsClash | crates/alerting-shim/src/lib.rs:96-98 | two alerts of different source and title with one key |
| Alerting.KeyNeverUnique | crates/alerting-shim/src/lib.rs:83-98 | every alert shares its key with a different one of the same subject |
| AlertingShim.Shim.Begin | crates/alerting-shim/src/lib.rs:253-257 | a duplicate is counted and dropped, a new alert goes on |
| AlertingShim.Shim.CleanUp | crates/alerting-shim/src/lib.rs:320-323 | the cleaner's pass keeps exactly the entries younger than the window |
| AlertDelivery.EndpointIsHistory | crates/alerting-shim/src/lib.rs:188-213 | an endpoint's failures, last attempt and backoff are determined by its own deliveries since the last success |
| AlertDelivery.SettleAppend | crates/alerting-shim/src/lib.rs:188-213 | successive deliveries act on the endpoint states as one delivery of all their outcomes |
| AlertDelivery.Sender.Deliver | crates/alerting-shim/src/lib.rs:259-305 | every routed name is posted to the first webhook of that name and ends as exactly one success or failure, counted and recorded in order |
| AlertDelivery.RecipientsAt | crates/alerting-shim/src/lib.rs:259-271 | no routed webhook is skipped; each post goes to the first webhook of the routed name |
| AlertDelivery.RecipientsAsRoutedIff | crates/alerting-shim/src/lib.rs:259-271 | alerts of every severity are posted to the webhooks that accept them if and only if no two webhooks that differ in anything, channel and headers included, share a name |
| AlertDelivery.PostedToNamesake | crates/alerting-shim/src/lib.rs:259-271 | an info alert is posted to a webhook that asks for critical, for the sake of a later one of the same name |
| AlertDelivery.Sender.Attempt | crates/alerting-shim/src/lib.rs:272-293 | succeeds if and only if one of the three attempts does, and stops at the first |
| AlertDelivery.RouteBySeverity | crates/alerting-shim/src/lib.rs:43-77 | exactly the webhooks are routed to whose minimum severity, read in any case and as info when unreadable, is no higher than the alert's; a worse alert reaches no fewer |
| AlertDelivery.SeverityReadsBack | crates/alerting-shim/src/lib.rs:43-60 | the printed severities are parsed back |
| AlertDelivery.RouteAppend | crates/alerting-shim/src/lib.rs:215-220 | routing follows configuration order |
| AlertDelivery.BackoffMonotone | crates/alerting-shim/src/lib.rs:172-176 | more failures never shorten the wait, which is capped and constant from ten on |
| AlertDelivery.BackoffDoubles | crates/alerting-shim/src/lib.rs:172-176 | the wait starts at the base, doubles with each failure up to the tenth, and is capped throughout |
| AlertDelivery.OutcomeIff | crates/alerting-shim/src/lib.rs:261-303 | a delivery counts as sent if and only if there is no client or the webhook looked up answers one of three attempts |
| AlertRuns.RunDelivers | crates/alerting-shim/src/lib.rs:253-305 | in every run, sweeps included, sent + failed is the number of accepting webhooks summed over the accepted alerts, and the endpoint states are those of all outcomes in order |
| AlertRuns.RunDecides | crates/alerting-shim/src/lib.rs:253-258 | in every run the duplicates counted are those the full history demands, and offered alerts are accepted, in flight or duplicates |
| AlertRuns.SweepsChangeNoDelivery | crates/alerting-shim/src/lib.rs:253-327 | removing all cleaner sweeps from a run changes neither what is sent, nor what fails, nor any endpoint state |
| AlertRuns.RunEndpoints | crates/alerting-shim/src/lib.rs:188-305 | over a whole run an endpoint's failures, last attempt and backoff are determined by the outcomes under its own name |
| AlertDelivery.InBackoffIff | crates/alerting-shim/src/lib.rs:178-186 | `is_in_backoff` holds if and only if the latest delivery failed and the wait for the current run of failures has not passed |
| AlertRuns.BackoffIgnored | crates/alerting-shim/src/lib.rs:253-305 | what a step sends and fails does not depend on the endpoint records |
| AlertRuns.PostsInBackoff | crates/alerting-shim/src/lib.rs:253-305 | a run that posts an alert to a webhook while it is in backoff |
| AlertRuns.Processor.ProcessAlert | crates/alerting-shim/src/lib.rs:253-305 | the method is the check and the recording step of a run in turn, and returns the number of accepting webhooks or 0 |
| Encryption.RotationPreservesReadability | crates/encryption-shim/src/lib.rs:218-370 | on any ring without prefix, under any lawful AEAD, a payload still decrypts to its plaintext after any operations, if the last rotation to its key's id, if any, restored its material |
| Encryption.RotationReadsIff | crates/encryption-shim/src/lib.rs:218-370 | from any ring and after any operations, a payload reads back under every lawful AEAD if and only if the ring could not seal, or no prefix was doubled and the last rotation to its key's id left the material it was sealed with |
| Encryption.ReadsBackIff | crates/encryption-shim/src/lib.rs:294-314 | a payload sealed on any ring reads back on any other if and only if no prefix was doubled and the other files the same material under the id the payload names |
| Encryption.OtherIdNotTried | crates/encryption-shim/src/lib.rs:294-303 | a ring that has the sealing material under another id only does not open the payload |
| Encryption.RoundTripIff | crates/encryption-shim/src/lib.rs:239-314 | on any ring that can seal, payloads read back under every lawful AEAD if and only if no prefix is set or the key id is empty |
| Encryption.PayloadShape | crates/encryption-shim/src/lib.rs:218-292 | a payload is what the ring's own cipher seals under prefix and key id, cut before the last sixteen bytes; it carries the associated data exactly when there is a prefix |
| Encryption.OpensIff | crates/encryption-shim/src/lib.rs:294-348 | which payloads open, and to what: the named cipher opens ciphertext and tag under the stored data and the key id, with the key the payload names |
| Encryption.OpenErrors | crates/encryption-shim/src/lib.rs:294-303 | the errors of `decrypt` in the order of its checks |
| Encryption.SealErrors | crates/encryption-shim/src/lib.rs:223-231 | the errors of `encrypt` in the order of its checks |
| Encryption.ParseMethodIff | crates/encryption-shim/src/lib.rs:77-86 | the accepted scheme names, in any case |
| Encryption.PrefixBreaksRoundTrip | crates/encryption-shim/src/lib.rs:286-314 | the failing family, with a lawful AEAD that shows it |
| Encryption.OverwritingLosesPayloads | crates/encryption-shim/src/lib.rs:364-370 | overwriting any id, active or retired, by other material loses the payloads sealed under it |
| Encryption.RunOneActive | crates/encryption-shim/src/lib.rs:351-370 | from a ring with one active key, in every run exactly one key is active, the one `active_key_id` names, and no id is lost |
| Encryption.RotationFiles | crates/encryption-shim/src/lib.rs:351-370 | a rotation needs 32 bytes; the new key is filed as active, the old active one rested, all others untouched |
| Encryption.HitsCounted | crates/encryption-shim/src/lib.rs:342-347 | in every run from a ring with one active key, the counters count successful operations only, and the hit counter those under keys whose own active flag is down |
| EncryptionShim.Shim.EncryptBytes | crates/encryption-shim/src/lib.rs:218-292 | the method seals, splits off the tag and counts as the state machine does, errors included; a nonce size is asked for only where the cipher is reached |
| EncryptionShim.Shim.DecryptPayload | crates/encryption-shim/src/lib.rs:295-348 | the method rejoins, opens and counts as the state machine does, errors in the same order; a nonce size is asked for only where the cipher is reached |
| EncryptionShim.Shim.RotateKey | crates/encryption-shim/src/lib.rs:351-379 | rotation in place keeps exactly one active key; a wrong length changes nothing |
| Auth.LockoutIsHistory | crates/auth-shim/src/lib.rs:433-459 | locked out if and only if there were max(1, max_failed_logins) failures since the last clear and the latest is recent, at any clock reading and independently of other users |
| Auth.StateIsHistory | crates/auth-shim/src/lib.rs:433-459 | both maps are determined by the user's own failures since the last clear |
| Auth.Guard.RecordFailedLogin | crates/auth-shim/src/lib.rs:433-443 | counts the failure and reports the lockout it sets |
| Auth.HexRoundTrip | crates/auth-shim/src/lib.rs:31-43 | decoding inverts encoding for all bytes |
| Auth.HexEncodeAt | crates/auth-shim/src/lib.rs:31-33 | each byte is printed as its two lower-case digits, the high one first |
| Auth.HexDigitTable | crates/auth-shim/src/lib.rs:31-33 | the sixteen lower-case digits |
| Auth.HexIgnoresCase | crates/auth-shim/src/lib.rs:35-43 | decoding ignores the case of letters |
| Auth.HexDecodableIff | crates/auth-shim/src/lib.rs:35-43 | a text decodes if and only if its length is even and each character is a hex digit, or a plus sign at an even position |
| Auth.DecodableHexIff | crates/auth-shim/src/lib.rs:35-43 | a decodable text is all hex digits if and only if it contains no plus sign |
| Auth.PlusDecodes | crates/auth-shim/src/lib.rs:35-43 | the text +5 decodes to the byte 5 and is not hex |
| Auth.HexReprintIff | crates/auth-shim/src/lib.rs:35-43 | a decodable text is printed back the same if and only if it is all lower-case hex digits |
| Backup.HistoryIsSuffix | crates/backup-shim/src/lib.rs:133-167 | in every timed run the history is everything recorded, in order and sorted by age, minus the expired front |
| Backup.Bookkeeping | crates/backup-shim/src/lib.rs:133-167 | in every run backup_success = history + backups_expired and backups_retained = history |
| Backup.SuccessesRecorded | crates/backup-shim/src/lib.rs:133-149 | backup_success is the number of backups recorded |
| Backup.LastIsLatest | crates/backup-shim/src/lib.rs:133-149 | the last-backup fields are those of the latest record |
| Backup.CleanupSplits | crates/backup-shim/src/lib.rs:151-167 | cleanup cuts a history sorted by age into the expired prefix it reports and the suffix it keeps |
| Backup.FirstIsOldest | crates/backup-shim/src/lib.rs:169-180 | the first entry is the oldest in every timed run |
| Backup.Keeper.CleanupRetention | crates/backup-shim/src/lib.rs:151-167 | the pass removes and reports exactly what is more than so many days old, in order |
| Backup.Keeper.HistorySummary | crates/backup-shim/src/lib.rs:169-180 | count, total bytes, and the age in days of the first entry, 0 for none, which no entry exceeds when the history is sorted by age |
| Backup.Keeper.RunBackup | crates/backup-shim/src/lib.rs:660-757 | without the output directory no attempt is made; otherwise at most max_attempts + 1, the first that is not retryable decides |
| Backup.DumpIsRecorded | crates/backup-shim/src/lib.rs:697-738 | the first attempt that is not retryable, when it dumps, leaves one success more, its entry at the end of the history, and no failure |
| Backup.ExhaustionFails | crates/backup-shim/src/lib.rs:744-757 | when every attempt fails retryably only the failure counter moves, by one |
| Backup.TotalBytesAppend | crates/backup-shim/src/lib.rs:169-180 | the byte total is the sum over the entries |
| Backup.CountedIff | crates/backup-shim/src/lib.rs:660-757 | a backup adds one to successes and failures together if and only if the directory was made and no attempt left at once; otherwise it changes nothing |
| Backup.AbortUncounted | crates/backup-shim/src/lib.rs:660-692 | an abort at the first attempt, or a missing directory, leaves the state as it was |

## Left out

- Wrap-around of 32- and 64-bit counters, clocks, log offsets and backoff products; only the 64-bit
  limits of decimal parsing and of the position shift are modelled.
- Rounding of `f64` scores and draws: they are exact reals, so a draw that rounds up to the total is
  not represented.
- The Patroni and Redis Sentinel branches of the failover loop, which also count observed role changes.
- Sockets, HTTP, child processes, databases, object stores and files: their results are step arguments.
- Events on the bus, webhook texts, tracing, metrics and the timestamps kept only for them
  (`last_check`, `last_flush`, event timestamps); replication lag of a cluster.
- Sorting of the cluster names before the loop starts: the loop takes the sorted list as given.
- Delays of the retry loops and the sleeps between ticks.
- AES-GCM and ChaCha20-Poly1305 themselves, key loading from the environment; key ids
  are their UTF-8 bytes.
- `record_alert` called on its own, outside `process_alert`.
- Strings that `hex_decode` would slice inside a multi-byte character, where the source panics.
- A zero `ring_capacity`, which no constructor sets and on which the source panics.
- Password hashing, tokens and API keys; roles and permissions.
- Environment parsing, serialization formats, the other shims, the SDK and the Terraform provider.
