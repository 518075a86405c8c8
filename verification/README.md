# V Panel: verified models of its protocols and algorithms

A Dafny model of the parts of V Panel where correctness is hardest to see from the code, each proved against an
independent statement of what it is for. The two largest are the crash-safe traffic accounting of the node agent and
node selection by smooth weighted round robin; health probing, log ingestion, certificate upload, quoting, login rate
limiting, user migration, the notification outbox, the log buffer, automatic proxy provisioning and the cached proxy
lookup follow. Code that changes state step by step is a class or a method with loops; its contract ties the new state
to a specification function or predicate, and the lemmas beside it carry the promises over whole runs.

## What is modelled

- **Traffic accounting** (`Counters`, `CounterNames`, `TrafficReporting`, `BatchIdentity`, `TrafficAgent`,
  `TrafficProtocol`, `TrafficExactness`, `TrafficFalls`, `TrafficExposure`, `TrafficCounterexamples`). The agent turns
  cumulative Xray counters into deltas, freezes one batch under an identity made from its content, writes it with a
  temporary file and a rename, resends it until acknowledged and then commits. The protocol is a step system in which
  traffic arrives, Xray restarts or drops counters, files are half written or cannot be read, writes fail, replies are
  lost and the agent crashes at any point, in any order. Three steps are excluded from the safety theorem. The panel
  forgets an identity it recorded (`PanelForgets`): it remembers identities in memory for six hours
  (internal/api/handlers/node_agent.go:641-698). The agent crashes while the state file lags behind a batch that was
  sent, because the write before sending failed and none succeeded since. The agent starts without its file
  (`CrashUnread`): if the file cannot be read or parsed, it begins with empty counters
  (internal/agent/agent.go:680-692), and what Xray still counts is measured again; this is excluded once a batch was
  sent, while some user counter of Xray is above zero. For runs that lost nothing the three conditions are exact:
  after such a run a step has an otherwise undisturbed continuation that counts too much if and only if it is one of
  them. Two more things make bytes go missing: a fall of a counter, and a success reply that comes too early. After a
  fall a batch can repeat an old identity, and a counter hides bytes if it falls before all of it was read or climbs
  back to the committed value unread; where neither happens, what is frozen and counted is all that was transferred,
  falls included (`TrafficFalls`). The panel answers a duplicate with success while its first copy is still being
  recorded (internal/api/handlers/node_agent.go:305-345, 681-683); if that recording fails, the agent has already
  cleared the batch (`SuccessInFlight`). Exactly-once accounting therefore assumes that a success reply means the
  batch is recorded; the bound on over-counting does not.
- **Node selection** (`NodeSelection`, `NodeOrder`, `SelectionFairness`, `LoadBalancing`). `NodeOrder` says in whole
  numbers what preference and effective weight are: less of the traffic limit used, then less of the capacity, then
  fewer users, more weight, the lower ID.
- **Health checking** (`ProbeSampling`, `Hysteresis`). With three or more failed proxies the sampling cursor stands
  still, and only the three with the lowest IDs are probed. A check decides by the status loaded before it began,
  which another writer may have replaced since; the lemmas about runs take the checker as the only writer. A threshold
  below one behaves as one, so no bound on thresholds is assumed.
- **Upload and quoting** (`Base64Upload`, `Quoting`). The remote side is modelled too: a reader of shell words,
  `echo`, a base64 decoder that accepts padding only at its end, and a file that is appended to. An upload of empty
  data leaves no file at all.
- **Log ingestion** (`SessionIngestion`). Besides append-only growth this covers truncation, the 4 MiB limit of the
  first scan, and pruning between polls, which turns out to be unobservable. A session is held exactly while its
  latest sighting is within the lookback.
- **Rate limiter** (`RateLimiting`, `LoginRequests`). Cleanup goes unnoticed exactly when a block lasts at least as
  long as the window. The count of an entry is the number of failures of the window that began with its first one. A
  login is checked when it comes and recorded after its password was verified (internal/api/handlers/auth.go:444,
  461-492), so the two are separate events. With at most m requests under way at once, an interval shorter than a
  window lets through at most max(limit + m - 1, 2 limit + 2m - 4) of them; for requests one at a time this is
  max(limit, 2 limit - 2), which is reached, so the limit itself holds for every history exactly when it is at most
  two (or the window a single tick). Requests that are all checked before the first is recorded all get through.
- **User migration** (`FailoverMigration`). Every interleaving of the migration tasks of one call, with other calls
  changing the shared counter. The slots are bounded by the limit, the counter is not: a task frees its slot before it
  uncounts itself, so one call can overshoot exactly when it has more users than the limit. Nor do the slots taken by
  compare-and-swap bound it, because other code adds to the same counter without looking
  (internal/node/failover_manager.go:368, 556, 825); the counter stays within the limit exactly when none of these
  additions finds it full.
- **Outbox** (`NotificationOutbox`). A comment in the code (internal/notification/outbox.go:53-55) speaks of one
  duplicate after a crash. Three things can come between a delivery and its record: a crash, a failed write, and a
  mail server that accepts the message and then fails the closing QUIT, which is reported as a failure
  (internal/notification/service.go:537-543). Each occurrence of any of them can cause one more duplicate, and their
  number bounds the duplicates. Over every run the k-th recorded failure of a job keeps it from being tried again for
  2^(k-1) minutes, at most 64.
- **Log buffer** (`AsyncLogWriter`). Dropping needs a run of failed batch writes whose length is proved. A batch write
  can be stored and reported as failed; it is then stored again, and the number of such writes bounds the copies of an
  entry.
- **Automatic proxies** (`AutoProvisioning`, `ProvisioningRaces`). The port lookup sees only proxies of existing users
  and of user 0 (internal/database/repository/proxy_repository.go:22-31, 131-141), no lock covers the lookup and the
  insertion that follows it (internal/entitlement/service.go:966-1003), and the database accepts equal ports
  (internal/database/repository/repository.go:171). So a creation can make a duplicate in two ways: a deleted user's
  proxy holds the port, or somebody took the port in between. Over every interleaving of lookups, insertions and other
  changes, ports stay unique exactly when each insertion or edit finds its port free of all rows at that moment. A
  rebuild touches only proxies whose remark is one of two texts, in any letter case and between blanks.
- **Cached lookup** (`ProxyCache`). One manager is the only writer of the table. Operations one at a time give the
  answers of the repository alone. A lookup that misses reads the row and stores it later; with any such overlaps the
  cache stays coherent exactly as long as every stored row is still the table's. For one lookup that is so exactly
  when the row was not deleted meanwhile and the last update meanwhile, if any, wrote the settings that were read.

`Common` and `Sorting` hold shared vocabulary. `dfyconfig.toml` lists the files, so `dafny verify dfyconfig.toml`
checks everything.

## Model

| member | source | states |
|---|---|---|
| TrafficReporting.TrafficReporter.PrepareDelta | internal/agent/traffic_reporter.go:158-214 | one record per user and proxy, holding exactly the reset-aware deltas of that pair's counters and never all zero; committed counters untouched; an error yields nothing |
| TrafficReporting.TrafficReporter.Accumulate | internal/agent/traffic_reporter.go:169-201 | whatever order the counter map is walked in, each entry's upload and download are the sums of the matching deltas |
| TrafficReporting.Collect | internal/agent/traffic_reporter.go:203-209 | the record list holds each non-zero entry once and nothing else |
| TrafficReporting.AggregatesUnique | internal/agent/traffic_reporter.go:169-209 | the records for given deltas are determined up to order |
| TrafficReporting.RecordsCarryDeltas | internal/agent/traffic_reporter.go:169-209 | per user, proxy and direction the records add up to the total of the deltas |
| TrafficReporting.TrafficReporter.Commit | internal/agent/traffic_reporter.go:216-228 | the snapshot's counters become the committed ones; a nil snapshot changes nothing |
| TrafficReporting.TrafficReporter.RestoreCommittedCounters | internal/agent/traffic_reporter.go:108-116 | the restored counters become the committed ones |
| Counters.TotalOfGrowth | internal/agent/traffic_reporter.go:176-180 | without a fall of any counter, deltas add up to the growth of the total |
| CounterNames.StatOfExactly | internal/agent/traffic_reporter.go:519-535 | a name belongs to a user, proxy and direction exactly when, between blanks, it is the fixed text with digits of these numbers, both below 2^63, and the word of that direction |
| CounterNames.DecimalReadsBack | internal/agent/traffic_reporter.go:525-531 | every number written in decimal digits is read back |
| CounterNames.EveryStatHasName | internal/agent/traffic_reporter.go:519-535 | so every user and proxy has a counter in each direction |
| BatchIdentity.BuildTrafficBatchID | internal/agent/agent.go:546-610 | in-place sorts of records and counters yield the canonical identity of the batch |
| BatchIdentity.IdentityIsCanonical | internal/agent/agent.go:558-603 | every order of the same records and every walk over the same counters gives the same identity |
| BatchIdentity.IdentityIsFaithful | internal/agent/agent.go:546-610 | two identities are equal exactly when node and counter values are, and the same bytes are reported up and down equally often for every user and proxy |
| TrafficAgent.SaveLoadRoundTrip | internal/agent/agent.go:669-770 | a restart brings back exactly what was saved, unless the pending batch rests on an empty snapshot |
| TrafficAgent.Agent.RestoreTrafficState | internal/agent/agent.go:669-713 | what a starting agent takes from a missing, unreadable or saved state file |
| TrafficAgent.Agent.PersistTrafficState | internal/agent/agent.go:715-770 | a successful write leaves the state of memory in the file, a failed one the old file |
| TrafficAgent.Agent.PrepareHeartbeatTraffic | internal/agent/agent.go:485-511 | a pending batch is resent unchanged; otherwise a batch is frozen exactly when there is something to report |
| TrafficAgent.Agent.AcknowledgeHeartbeatTraffic | internal/agent/agent.go:513-529 | the snapshot is committed and only the acknowledged batch is cleared |
| TrafficAgent.Agent.SendHeartbeat | internal/agent/agent.go:408-477 | the batch is on disk before it is sent, and nothing is acknowledged unless the panel reported success |
| TrafficProtocol.StepKeepsInv | internal/agent/agent.go:485-529 | every step but the three that can count twice keeps the accounting invariant: failed writes, premature successes, falls of counters and harmless restarts without the file included |
| TrafficProtocol.NoOverCount | internal/agent/agent.go:485-529 | after every run without these three, the panel's total per counter, with all that is frozen or cleared and still unrecorded, is at most what was transferred |
| TrafficExactness.ExactlyOnce | internal/agent/agent.go:475-529 | if moreover no counter falls, success means recorded and the agent always reads its file, then with no batch pending the panel's total is the committed one, and with the deltas since it is all that was transferred |
| TrafficExactness.NewBatchIsNew | internal/agent/agent.go:546-610 | in these runs a newly frozen batch has an identity never sent or recorded before |
| TrafficExactness.PendingCanBeAcknowledged | internal/agent/agent.go:513-529 | from every reachable idle state with a pending batch, one undisturbed heartbeat records it, clears it and commits its snapshot |
| TrafficExactness.Settles | internal/agent/agent.go:408-529 | from every reachable state, whatever the agent is doing, undisturbed steps lead to rest with nothing pending |
| TrafficFalls.FallIsReportedInFull | internal/agent/traffic_reporter.go:176-180 | after a restart of Xray with everything committed, b bytes on a fallen counter, fewer than it had counted, make the next reading freeze records of just b bytes |
| TrafficFalls.FrozenIsAllMoved | internal/agent/agent.go:485-511 | over every run, falls included, in which no counter hides bytes and no identity repeats, what the panel counted and what a reading freezes is all that was transferred |
| TrafficFalls.PendingIsAllMoved | internal/agent/agent.go:485-529 | and so it stays until the panel records the batch, which then has counted all |
| TrafficFalls.StaysFullExactlyWhen | internal/agent/traffic_reporter.go:176-180 | a transfer or a fall keeps the account complete exactly when no user counter falls before it was read or climbs back to its base unread |
| TrafficExposure.ExposedCrashOverCounts | internal/agent/agent.go:497-504 | while the file lags behind what was sent, a crash has an undisturbed continuation, for any further user counter, that counts too much |
| TrafficExposure.OverCountsExactlyWhen | internal/agent/agent.go:485-529 | after a run that lost nothing, any step at all can be continued undisturbed to an over-count if and only if it is one of the three excluded ones |
| TrafficExposure.UnreadRestartOverCounts | internal/agent/agent.go:680-692 | started without its file after anything was sent, the agent reports again what Xray counts, and too much is counted |
| TrafficExposure.UnreadRestartHurtsExactlyWhen | internal/agent/agent.go:680-692 | such a restart can be continued to an over-count exactly when some total the panel reaches is positive, which is when anything was sent |
| TrafficExposure.ForgettingOverCounts | internal/api/handlers/node_agent.go:641-698 | from every reachable state, forgetting an identity that was recorded has an undisturbed continuation that counts too much |
| TrafficCounterexamples.UnsavedBatchCountsTwice | internal/agent/agent.go:715-770 | a concrete run: the write before sending fails, and one crash makes 25 bytes out of 15 |
| TrafficCounterexamples.ForgetfulPanelCountsTwice | internal/api/handlers/node_agent.go:641-698 | if the panel forgets an identity, a resend can make 20 bytes out of 10 |
| TrafficCounterexamples.ResetCanLoseTraffic | internal/agent/agent.go:546-610 | after a counter reset a new batch can repeat an old identity, and its bytes are never counted |
| TrafficCounterexamples.SuccessInFlightLosesTraffic | internal/api/handlers/node_agent.go:641-698 | a success for a batch that is not recorded makes the agent commit, in memory and on disk, 100 bytes the panel does not have |
| TrafficCounterexamples.NoTroubles | internal/agent/agent.go:485-529 | the list of troubles of a run is empty exactly for the runs the exactness theorem is about |
| NodeSelection.PreferIsStrictTotal | internal/node/load_balancer.go:257-284 | the preference is irreflexive and transitive, puts nil last and decides between nodes with different IDs |
| NodeOrder.PreferIsBefore | internal/node/load_balancer.go:257-308 | by cross-multiplication: a smaller share of the traffic limit, measured by its threshold, comes first, then a smaller share of the capacity, then fewer users, more weight, the lower ID |
| NodeOrder.UnlimitedFirst | internal/node/load_balancer.go:286-298 | a node without a traffic limit comes before every node with one |
| NodeOrder.LoadNeverHelps | internal/node/load_balancer.go:257-308 | more users or more traffic never make a node preferred |
| NodeSelection.EffectiveWeightBounds | internal/node/load_balancer.go:310-335 | traffic use lowers a weight to a fifth (rounded) at most, and never raises it |
| NodeOrder.EffectiveWeightIs | internal/node/load_balancer.go:310-335 | the weight times what is left of the traffic limit, at least a fifth of it, rounded to the nearest whole number and at least one |
| NodeSelection.WeightedStrategy.Select | internal/node/load_balancer.go:577-620 | one turn: all listed weights rise by their effective weights, the heaviest node wins with ties by preference, and pays the total |
| SelectionFairness.WeightsSumToZero | internal/node/load_balancer.go:577-620 | whatever node sets are offered, the whole weight map sums to zero |
| SelectionFairness.WeightFormula | internal/node/load_balancer.go:577-620 | after k turns a node's weight is k times its effective weight less the total for each time it was picked |
| SelectionFairness.UpperQuota | internal/node/load_balancer.go:577-620 | after any number of turns no node was picked more than its proportional share rounded up |
| SelectionFairness.PrefixFairness | internal/node/load_balancer.go:577-620 | within the first T turns no node is picked more than its effective weight |
| SelectionFairness.ExactFairness | internal/node/load_balancer.go:577-620 | after every multiple of T turns each node was picked exactly in proportion and all weights are zero again |
| LoadBalancing.SelectLeastConnections | internal/node/load_balancer.go:531-552 | the node with the fewest users, ties by preference |
| LoadBalancing.LeastLoadedIgnoresOrder | internal/node/load_balancer.go:531-552 | every order of the list gives the same node |
| LoadBalancing.WeightedSelectionIgnoresOrder | internal/node/load_balancer.go:597-612 | every order of the list gives the same node and the same new weights |
| LoadBalancing.GetAvailableNodes | internal/node/load_balancer.go:389-430 | the online, not full, not excluded nodes in preference order |
| LoadBalancing.CandidatesAre | internal/node/load_balancer.go:408-430 | the candidate list has exactly the online, not full, not excluded nodes, each once, ascending in traffic, crowding, users, weight and ID |
| LoadBalancing.CandidatesIgnoreOrder | internal/node/load_balancer.go:251-284 | every order of the repository's answer gives the same candidate list |
| LoadBalancing.FilterNodes | internal/node/load_balancer.go:433-445 | exactly the nodes not excluded, without repetition |
| LoadBalancing.FilterKeepsOrder | internal/node/load_balancer.go:433-445 | in the order of the list |
| LoadBalancing.LoadBalancer.SelectNodes | internal/node/load_balancer.go:155-221 | the smaller of count and number available distinct, non-excluded nodes, each chosen by the named strategy among the candidates left at its turn; an error when there is none to choose or none asked for |
| ProbeSampling.SelectProxySample | internal/node/health_checker.go:617-645 | the smaller of three and n distinct proxies: the failed ones first, then everything the cursor passes; the cursor moves exactly when fewer than three have failed |
| ProbeSampling.EverythingPassedIsSampled | internal/node/health_checker.go:617-645 | over consecutive calls all proxies the cursor moved past are in some sample, and the cursor is where the moves add up to |
| ProbeSampling.CoverageWithFailures | internal/node/health_checker.go:617-645 | n calls with fewer than three failed proxies each sample all n, from any cursor |
| ProbeSampling.CoverageWithoutFailures | internal/node/health_checker.go:617-645 | with no failed proxies a third of n calls, rounded up, suffice |
| ProbeSampling.StuckWhileThreeFail | internal/node/health_checker.go:629-643 | while three or more fail, the cursor stays and any number of calls sample exactly the failed proxies with fewer than three failed ones below them |
| Hysteresis.HealthChecker.HandleCheckResult | internal/node/health_checker.go:817-861 | the checked node makes one step of the state machine, decided by the status loaded before the check; every other node none |
| Hysteresis.CountersAreStreaks | internal/node/health_checker.go:836-853 | the two counters are the lengths of the current failing and succeeding streaks |
| Hysteresis.DegradesExactlyWhen | internal/node/health_checker.go:851-859 | a node leaves Online exactly when the last U checks failed and the update is accepted |
| Hysteresis.RecoversExactlyWhen | internal/node/health_checker.go:841-845 | a node leaves Unhealthy exactly when the last H checks succeeded and the update is accepted |
| Hysteresis.OfflineUntilFirstSuccess | internal/node/health_checker.go:836-859 | after any number of checks a node is Offline exactly when it began so and no check since has succeeded and been saved: failures never take a node offline |
| Hysteresis.NoOvershoot | internal/node/health_checker.go:841-858 | while updates are accepted, no streak passes its threshold without the transition |
| Hysteresis.DegradationsFarApart | internal/node/health_checker.go:836-859 | two degradations of a node are at least U + H checks apart |
| Base64Upload.DecodeEncode | internal/certificate/service.go:2246 | decoding inverts encoding for every byte string |
| Base64Upload.StandardAlphabet | internal/certificate/service.go:2246 | the digits are written in the alphabet of table 1 of RFC 4648 |
| Base64Upload.QuantumBits | internal/certificate/service.go:2246 | four digits are the 24 bits of three bytes, six at a time |
| Base64Upload.SlicesReassemble | internal/certificate/service.go:2249-2274 | slices of a multiple of four characters, decoded one by one and appended, give the data back |
| Base64Upload.SliceSizeMatters | internal/certificate/service.go:2249 | with more than one slice this works exactly for the multiples of four |
| Base64Upload.EchoedSlice | internal/certificate/service.go:2270 | the shell passes a base64 slice in single quotes on unchanged |
| Base64Upload.UploadFile | internal/certificate/service.go:2237-2277 | the upload succeeds exactly when every command does, and then the file is the data; otherwise it is old, missing or a prefix |
| Quoting.ShellQuoteRoundTrip | internal/certificate/service.go:98-100 | the shell reads the quoted value as one word with that value (section 2.2 of POSIX.1-2017 XCU) |
| Quoting.QuotedInContext | internal/certificate/service.go:98-100 | inside any command the quoted value contributes exactly the value and leaves the rest alone |
| Quoting.QuotedArgumentsArriveIntact | internal/certificate/service.go:2166-2184 | a command of plain words and quoted arguments splits into exactly those words and values |
| Quoting.SQLQuoteRoundTrip | internal/backup/sqlite_snapshot.go:147-149 | read as a string literal inside a statement, the quoted value is the value and ends where meant |
| SessionIngestion.SplitJoins | internal/agent/session_reporter.go:212 | splitting at newlines loses nothing and leaves none inside a piece |
| SessionIngestion.SplitAppend | internal/agent/session_reporter.go:211-222 | carrying the unfinished piece and splitting later is splitting the whole |
| SessionIngestion.SessionReporter.Ingest | internal/agent/session_reporter.go:164-251 | one poll moves the offset to the file size, carries the unfinished line and absorbs the complete ones, for growth, truncation and a first scan over the limit |
| SessionIngestion.SessionReporter.Prune | internal/agent/session_reporter.go:254-261 | exactly the sessions seen before the cutoff disappear; every one left is not older than it |
| SessionIngestion.SessionReporter.Collect | internal/agent/session_reporter.go:84-129 | a new log path starts afresh; a log that cannot be opened only prunes, and one that cannot be read after that also loses the unfinished line if it was truncated; no session left is older than the lookback, and none within it is lost |
| SessionIngestion.AbsorbKeepsLatest | internal/agent/session_reporter.go:224-249 | the session map holds exactly the keys mentioned, each with the first of its latest sightings |
| SessionIngestion.PrunedAbsorb | internal/agent/session_reporter.go:224-261 | pruning early loses nothing a later pruning would keep |
| SessionIngestion.FirstScanReadsWholeLines | internal/agent/session_reporter.go:182-209 | a first scan over the limit reads the last whole lines of the file |
| SessionIngestion.PollsEqualOneRead | internal/agent/session_reporter.go:181-249 | any polls of a growing log, each pruning, end in the state of one read from where reading began |
| SessionIngestion.PollsEqualOneSplit | internal/agent/session_reporter.go:181-261 | under the scan limit that is one split of the whole file: a key is held exactly when a line mentions it within the lookback, with the latest of its sightings |
| RateLimiting.RateLimiter.constructor | internal/auth/rate_limiter.go:49-74 | settings that are not positive are replaced |
| RateLimiting.RateLimiter.CleanupExpired | internal/auth/rate_limiter.go:91-107 | exactly the expired entries disappear |
| RateLimiting.RateLimiter.CheckRateLimit | internal/auth/rate_limiter.go:116-147 | a request is refused during a block, or inside the window when no attempt is left |
| RateLimiting.RateLimiter.RecordLoginAttempt | internal/auth/rate_limiter.go:151-190 | a success forgets the address; a failure counts, restarting an ended window and blocking at the limit |
| RateLimiting.AttemptsAreFailuresOfWindow | internal/auth/rate_limiter.go:151-209 | after any run the reported count is the number of the address's failures since its last success or reset that fall in the current window, or zero once that window has ended; unnoticed cleanup makes no difference |
| LoginRequests.PassedInAnyInterval | internal/api/handlers/auth.go:443-492 | for failures without a success between them, at most m requests under way at once and blocks no shorter than the window: an interval shorter than a window lets at most max(limit + m - 1, 2 limit + 2m - 4) through |
| LoginRequests.BoundIsReached | internal/auth/rate_limiter.go:116-190 | requests one at a time reach 2 limit - 2, with any limit from two up and any window longer than a tick |
| LoginRequests.LimitHoldsExactlyWhen | internal/auth/rate_limiter.go:116-190 | for requests one at a time the limit holds in every interval shorter than a window, in all histories, exactly when it is at most two or the window is one tick |
| LoginRequests.AllAtOncePass | internal/api/handlers/auth.go:443-492 | any number of requests checked before the first of them is recorded all get through |
| RateLimiting.RateLimiter.IsBlocked | internal/auth/rate_limiter.go:212-226 | whether a block is under way |
| RateLimiting.CleanupUnobservable | internal/auth/rate_limiter.go:91-226 | cleanup changes no later answer of any run exactly when the block lasts at least as long as the window |
| RateLimiting.ActKeepsLink | internal/auth/rate_limiter.go:91-226 | every operation, cleanup included, keeps the bisimulation between the two limiters |
| RateLimiting.ShortBlockIsObservable | internal/auth/rate_limiter.go:91-107 | for every shorter block there is a run in which cleanup shows |
| RateLimiting.OnlyBlocksRefuse | internal/auth/rate_limiter.go:116-147 | in every run only a block that has not ended refuses; the separate comparison with the limit never decides |
| FailoverMigration.StepKeepsInv | internal/node/failover_manager.go:353-389 | every step of every task keeps slots, counter, results and assignments consistent |
| FailoverMigration.RunKeepsInv | internal/node/failover_manager.go:353-389 | in every interleaving at most the limit of tasks hold a slot and each user is reassigned at most once |
| FailoverMigration.EveryRunCompletes | internal/node/failover_manager.go:353-389 | no run makes more than six steps per user; one that is stuck has handled every user once, to its own target, and the counter is back |
| FailoverMigration.SomeTaskCanStep | internal/node/failover_manager.go:353-389 | with a limit of at least one, some unfinished task can always go on |
| FailoverMigration.ZeroLimitHangs | internal/node/failover_manager.go:357 | with a limit of zero no task ever starts |
| FailoverMigration.CounterExceedsLimitExactlyWhen | internal/node/failover_manager.go:353-389 | with a limit of at least one, some run of a call counts more migrations than the limit exactly when it has more users than the limit |
| FailoverMigration.LoadsBalanced | internal/node/failover_manager.go:376-377 | in every complete state, the numbers of users sent to any two distinct targets differ by at most one |
| FailoverMigration.FailoverManager.MigrateUsers | internal/node/failover_manager.go:353-430 | whatever the schedule, exactly the users whose reassignment succeeds are moved, and the counter returns |
| FailoverMigration.FailoverManager.TriggerFailover | internal/node/failover_manager.go:139-239 | which error comes when, leaving assignments alone; otherwise migrated counts the reassignments that succeed and with failed adds up to affected |
| FailoverMigration.OneFailoverPerNode | internal/node/failover_manager.go:139-155 | overlapping calls never run two failovers of one node |
| FailoverMigration.SlotsNeverExceedLimit | internal/node/failover_manager.go:769-785 | under every interleaving of loads, swaps and plain additions the counter is the slots taken plus the others, and no more slots are taken than the limit |
| FailoverMigration.CounterWithinLimitExactlyWhen | internal/node/failover_manager.go:769-785 | the counter stays within the limit throughout a run exactly when no plain addition finds it full |
| FailoverMigration.AcquiresExactlyWhen | internal/node/failover_manager.go:769-790 | a thread left to itself takes a slot exactly when the counter is below the limit, and giving it back restores the counter |
| FailoverMigration.PlainlyCounted | internal/node/failover_manager.go:368-374 | a migration that counts itself plainly raises the counter by one whatever the limit, and uncounting it restores the counter |
| NotificationOutbox.EveryJobAccountedFor | internal/notification/outbox.go:81-219 | after any crashes, failed writes and misreported deliveries each job waits on disk, was sent or was cancelled, and was delivered at most once more than a delivery of it went unrecorded |
| NotificationOutbox.SentOnceWithoutFaults | internal/notification/outbox.go:190-214 | without crashes, failed writes and failures reported after acceptance nothing is delivered twice |
| NotificationOutbox.FaultsDuplicate | internal/notification/outbox.go:190-214 | any n crashes, failed writes or misreported deliveries, in any order, can make n + 1 deliveries of one job |
| NotificationOutbox.FileKeepsJob | internal/notification/outbox.go:103-187 | over any run a file keeps its job, never recreated or reset, and goes only 180 days after completion |
| NotificationOutbox.RetryDelay | internal/notification/outbox.go:195-202 | the k-th failure stores a wait of 2^(k-1) minutes, at most 64, and the first 1024 characters of the error |
| NotificationOutbox.AttemptsAreFailures | internal/notification/outbox.go:195-214 | over every run the attempts of a job are the failures recorded of it |
| NotificationOutbox.TriesFarApart | internal/notification/outbox.go:190-214 | over every run no try of a job comes earlier than 2^(k-1) minutes, at most 64, after the try whose failure was recorded as its k-th |
| NotificationOutbox.EnqueueEffect | internal/notification/outbox.go:103-119 | an existing file is never changed; every other enabled channel gets a waiting file unless there is an error |
| NotificationOutbox.Service.EnqueueAdmin | internal/notification/outbox.go:81-155 | jobs are put into files in order up to the first error, which may leave its file behind; no error is returned exactly when every file was there or got written without one |
| NotificationOutbox.AdminJobsAre | internal/notification/outbox.go:88-102 | who is told by which channel, and what names the file |
| NotificationOutbox.PassEffect | internal/notification/outbox.go:157-219 | a pass removes exactly the readable files cancelled or delivered more than 180 days ago whose removal works, records one try of each job tried, and changes nothing else |
| NotificationOutbox.PassIsRun | internal/notification/outbox.go:157-219 | a pass is a run of single sends, writes and removals, so a crash may fall anywhere in it; it tries exactly the readable jobs that are neither sent nor cancelled, whose time has come, and that have fewer than twenty tried ones before them |
| NotificationOutbox.Service.ProcessOutbox | internal/notification/outbox.go:157-219 | the loop over the directory is that pass |
| AsyncLogWriter.AsyncWriter.constructor | internal/log/async_writer.go:26-46 | the batch size falls back on the buffer size and is capped there |
| AsyncLogWriter.AsyncWriter.Write | internal/log/async_writer.go:50-66 | append, trim the oldest, and flush at the batch size |
| AsyncLogWriter.AsyncWriter.Flush | internal/log/async_writer.go:94-111 | a batch whose write is reported as failed stays in the buffer, whether it was stored or not; any other moves to the table |
| AsyncLogWriter.Conservation | internal/log/async_writer.go:50-111 | the rows of reported writes and the buffer are always everything written, in order and once each, less exactly the dropped positions; the table holds besides these only the batches stored in spite of a reported failure, each an unbroken part of what was written |
| AsyncLogWriter.CopiesBound | internal/log/async_writer.go:94-111 | an entry written once is in the table at most once more than writes were stored and reported as failed, and at least once if it neither waits nor was dropped |
| AsyncLogWriter.DropNeedsRefusals | internal/log/async_writer.go:55-63 | an entry is dropped only after bufferSize - batchSize + 1 batch writes reported as failed in a row |
| AsyncLogWriter.NothingDroppedWhileSaved | internal/log/async_writer.go:50-111 | while batch writes succeed, nothing is dropped and nothing stored twice |
| AutoProvisioning.Service.AllocatePort | internal/entitlement/service.go:1183-1199 | the first port in cyclic order from the user's start that no proxy of an existing user or of user 0 has; failure only when all are held |
| AutoProvisioning.OffsetsCoverRange | internal/entitlement/service.go:1184-1188 | for a user ID that is not negative the k-th port tried is 20000 + (ID + k) mod 40001, so each of the 40001 ports is visited once |
| AutoProvisioning.FirstPortInRange | internal/entitlement/service.go:1185 | the first port tried is in range exactly when Go's remainder is not negative |
| AutoProvisioning.CreationKeepsUniquePorts | internal/entitlement/service.go:966-1003 | whatever others do between look-up and insertion, a creation keeps all ports of the table unique if and only if no proxy of a deleted user holds the chosen port and nobody took it meanwhile |
| AutoProvisioning.OrphanPortIsReused | internal/database/repository/proxy_repository.go:22-31 | whenever a deleted user's proxy holds the start of a user's search, and no visible one does, a creation for that user makes the duplicate |
| AutoProvisioning.RebuildKeepsUniquePorts | internal/entitlement/service.go:575-643 | a rebuild alone at work keeps all ports unique if and only if it hands out no port of a deleted user's proxy; so always when there is none |
| ProvisioningRaces.UniqueThroughoutExactlyWhen | internal/entitlement/service.go:955-1026 | over every interleaving of look-ups, insertions and other changes, ports are unique at every moment if and only if each insertion or edit finds its port held by no row |
| ProvisioningRaces.OverlapIsHarmlessExactlyWhen | internal/entitlement/service.go:955-1026 | for one creation among any steps of others: exactly when no proxy of a deleted user holds its port and nothing done in between took it |
| ProvisioningRaces.OverlappingCreationsCollide | internal/entitlement/service.go:955-1026 | in every table without proxies of deleted users, two creations that would take the same port and look it up before either inserts make a duplicate |
| AutoProvisioning.Service.CreateAutoProvisionedProxy | internal/entitlement/service.go:955-1026 | one new proxy on the first port free at the look-up, in the table as others left it meanwhile, or no change; and exactly when ports stay unique |
| AutoProvisioning.AutomaticExactlyWhen | internal/entitlement/service.go:1125-1135 | a proxy is automatic exactly when its remark is blanks, one of the two texts up to letter case, and blanks |
| AutoProvisioning.Service.CollectTargets | internal/entitlement/service.go:584-607 | the targets are the requested node or the nodes with automatic proxies, each once, with exactly their old proxies |
| AutoProvisioning.Service.ProvisionTargets | internal/entitlement/service.go:614-634 | with nobody else at work: one new proxy per target that can be provisioned, none elsewhere, no port conflict, and the old ones of those targets marked |
| AutoProvisioning.Service.RebuildAutoProvisionedProxies | internal/entitlement/service.go:559-659 | refusals change nothing; otherwise exactly the marked proxies go, and only if the deletion works; every proxy of another user or with another remark stays as it was |
| AutoProvisioning.NothingUnlisted | internal/entitlement/service.go:575 | with fewer than 10000 proxies of the user, every automatic one is listed |
| AutoProvisioning.OldOrNew | internal/entitlement/service.go:575-643 | each target keeps its old automatic proxies or has exactly one new; every proxy of another user or with another remark is untouched |
| ProxyCache.MemoryCache.Set | internal/cache/memory.go:125-158 | the value is stored, nothing else is changed but by eviction, and the cache stays within its size |
| ProxyCache.MemoryCache.EvictOldest | internal/cache/memory.go:162-182 | expired entries go first; if that is not enough, a tenth of the capacity but at least one |
| ProxyCache.MemoryCache.RemoveExpired | internal/cache/memory.go:77-86 | exactly the expired entries disappear |
| ProxyCache.Manager.GetProxy | internal/proxy/manager.go:178-208 | the answer is the repository's, hit or miss, and the cache stays coherent |
| ProxyCache.Manager.UpdateProxy | internal/proxy/manager.go:128-161 | the table changes as without a cache, and no stale entry survives |
| ProxyCache.Manager.DeleteProxy | internal/proxy/manager.go:164-175 | the table changes as without a cache, and no stale entry survives |
| ProxyCache.Manager.CreateProxy | internal/proxy/manager.go:104-125 | a new ID, so the cache needs no change |
| ProxyCache.CachedRefinesUncached | internal/proxy/manager.go:104-208 | over every sequence of operations, with any expiry and eviction, table and answers are those of the repository alone |
| ProxyCache.InvalidationHitsEntry | internal/cache/strategy.go:107-110 | the unsigned conversion names the right entry exactly for IDs that are not negative |
| ProxyCache.CoherentExactlyWhenStoresFresh | internal/proxy/manager.go:104-208 | in every interleaving in which lookups read and store in two steps, the cache is coherent throughout exactly when every stored row is still the table's |
| ProxyCache.OverlapIsHarmlessExactlyWhen | internal/proxy/manager.go:196-205 | for one overlapped lookup: exactly when its row was not deleted in between and the last update in between wrote what was read |
| ProxyCache.RacingLookupGoesStale | internal/proxy/manager.go:196-205 | every lookup overlapped by one update to other settings makes the next lookup answer with the old ones |

## Left out

- Integer width: counters, weights, IDs and times are unbounded integers; the code's 64-bit overflow is not modelled. Exceptions are the 64-bit limit when a counter name is parsed and the unsigned conversion before a cache invalidation.
- Floating point: pressures and the rounding of effective weights are exact rationals.
- SHA-256 and JSON: hashes are injective (a batch identity is its payload, a job file is named by its key), serialisation is lossless.
- Counters are not negative and all values parse; a counter skipped as malformed would reappear with a previous value of zero.
- The node ID of an agent is fixed within a run; its change between a crash and a restart is not modelled.
- Panel-side handling of batches appears as steps and assumptions (see above), not as a model of the handler.
- TrafficProtocol.NoOverCount: leaves out runs with a forgotten identity, with a crash while the file lags behind what was sent, and with a restart without the file after sending while Xray counts for users; all three are shown to count too much.
- TrafficExposure.OverCountsExactlyWhen: speaks of runs without falls of counters and premature successes, since bytes lost earlier can hide from the totals that others are counted twice, and without an earlier restart that missed its file before anything was sent.
- TrafficExactness.ExactlyOnce: does not cover falls of counters and premature successes, after either of which bytes can be lost, as two counterexamples show, nor runs with a restart that missed its file before anything was sent.
- TrafficFalls.FrozenIsAllMoved: asks that no counter hides bytes from the base of the state file or of an open call either, since a crash or the reply could make the agent measure from it.
- Data races on the agent's fields beyond the order of its own steps.
- Geographic selection (trigonometry and IP lookup) takes the first candidate in its place; sticky sessions and group lookups are left to the repository's answer.
- Nil entries in node lists: selection is modelled on nodes that exist.
- LoadBalancing.LoadBalancer.SelectNodes: takes the repository's answer to hold distinct node IDs; a negative count, on which the code panics, is outside its precondition.
- Probing itself (TCP, TLS, host resolution) and the aggregation of probe results.
- Hysteresis.DegradationsFarApart: speaks, as all lemmas about runs of checks do, of runs in which this checker alone writes the status.
- Base64Upload.UploadFile: the remote path is taken as a plain word, and a command that fails has either happened completely or not at all.
- Quoting.SQLQuoteRoundTrip: strings with a NUL character read back as well, although the database's C interface would cut the statement there.
- Growth of the log between its stat and its read, and characters longer than one byte.
- SessionIngestion.PollsEqualOneSplit: only for lines that carry a time; a line without one takes the time of the poll that reads it. A log that is replaced by a longer one between two polls is not noticed by the code.
- The sorting of collected session records, and the parsing of a log line, which is any function that rejects the empty line.
- Concurrent calls of the rate limiter: its operations are atomic here. In the code CheckRateLimit gives up its read lock before it reads the fields of the entry (internal/auth/rate_limiter.go:117-144), so it can see a record half made.
- LoginRequests.PassedInAnyInterval: speaks of failures between two successes or resets; a request that ends without a record, as one that asks for a second factor does, counts as under way from then on.
- FailoverMigration.FailoverManager.MigrateUsers: takes distinct user IDs, as the assignment table gives them, and a limit of at least one, as the lemma about a limit of zero explains; timeouts appear as failed reassignments.
- Choosing target nodes for a failover, recovery, and the variant of migration that can be cancelled while it waits for a slot.
- FailoverMigration.SlotsNeverExceedLimit: slots are released by their holders only; a caller that releases a slot it does not have is not modelled.
- NotificationOutbox.Service.ProcessOutbox: a cancelled context ends the loop early, which is a pass over a prefix of the directory; starvation under the limit of twenty is not excluded by the code.
- Time limits and the periodic flush of the log writer appear as flushes at any point; a negative buffer size, on which the code panics, is excluded by the type.
- AutoProvisioning.OldOrNew: proxies beyond the first 10000 of a user are not listed by the code and stay; the statement says which.
- AutoProvisioning.RebuildKeepsUniquePorts: takes the rebuild to be alone at work, as the other statements about rebuilds do; among other writers its creations are the steps of ProvisioningRaces.UniqueThroughoutExactlyWhen.
- The choice of protocol and settings of an automatic proxy and the account checks before a rebuild are answers of the surroundings.
- ProxyCache.Manager.CreateProxy: takes IDs below 2^64.
- ProxyCache.CachedRefinesUncached: one manager is the only writer. Other code writes the same table without invalidating the cache (internal/api/handlers/proxy.go:445, 598, 724; internal/entitlement/service.go:639), after which a lookup can answer from before. The write of an update and its invalidation are one step.
- Closing the cache, its statistics, key prefixes, storing many values at once (which does not evict) and the Redis variant.
- HTTP, SSH, SMTP and Telegram transports, configuration, backups, certificates, audit, metrics and the web front end.
