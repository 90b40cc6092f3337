# Verified model of the RORCH orchestrator

RORCH decides every few seconds, and from several threads at once, how many CI runner containers
this host should start. This project models those decisions in Dafny and proves what they promise.

The parts that change state step by step are classes and loops proved against specification
functions. The parts whose difficulty is concurrency are state machines over the same functions: one
atomic step per lock section, theorems over every run. Clocks, `docker`, GitHub's answers, the
process environment and the outcome of each `docker run` are parameters or nondeterministic steps.
Times, temperatures and quotients are exact reals.

| files | part of the system |
|---|---|
| `Scaler`, `CapProtocol`, `TickProtocol`, `RunnerOperations`, `PersonalPool` | slots under the global cap, from reservation to release, and how a personal account shares them out |
| `FederationSplit`, `SplitTheorems`, `FederationPeers`, `FleetCoverage` | how several hosts share one queue without talking about it |
| `TickLanes`, `TickSchedule`, `RepositoryCache` | which pool is scanned when, and what it remembers |
| `GitHubClient`, `CircuitBreaker`, `ConditionalCache`, `SharedScan`, `SingleFlight`, `QueueScan` | the GitHub client: blocking, caches, and counting queued jobs |
| `JobLedger` | which jobs started and finished, over any sequence of scans |
| `Idempotency`, `ConfigOverlay`, `ConfigApi`, `ContainerOwnership` | control actions, configuration edits, and which pool owns a container |
| `Common` | options, sums, string order, sorting |

`dafny verify dfyconfig.toml` checks everything.

## Where the code and its promises part

Each is kept as the code has it, with the exact condition and an input.

- `_reserve_spawns` says every granted slot is released exactly once. A call whose submissions raise
  gives back its whole grant, also what its workers have released. It does so harmlessly if and only if it
  submitted no spawn, or no other slot is reserved when `finally` runs, so that the counter stops at zero
  (`CapProtocol.StepKeepsBooksIff`, `Scaler.PoolScaler.RunRunnerOperations`); a run keeps the counter right
  if and only if all its releases are such (`CapProtocol.BooksThroughoutIff`), and after any other release
  steps of other pools can pass the cap (`TickProtocol.ReleaseCanBreakTheCapIff`). What is reserved when the
  call begins does not matter: `TickProtocol.OverReleaseBreaksTheCap` is a run from an idle start through a
  call that begins with no other slot reserved, to more containers than the cap.
- `_get_shared` says a second pool waits for the first one's answer. `_drop_stale_scans` forgets locks.
  While no forgotten key belongs to a caller still without its answer, at most one fetch per key is in
  flight (`SingleFlight.SingleFlight`); from every reachable state a drop that takes such a key can go on
  to two (`SingleFlight.HarmfulDropCanBreak`), and one is reached from the start
  (`SingleFlight.SingleFlightFails`).
- `sync_jobs` promises one log line when a job starts and one when it is over. Every job seen is announced
  exactly once if and only if no scan shows another pool's job or a new job twice
  (`JobLedger.StartedExactlyOnceIff`); a job two pools both see is announced by the second one in every
  scan (`JobLedger.SharedJobStartsAgain`). A scan reports exactly the jobs it closes if and only if it
  shows no open job of another pool completed, and none of its own twice
  (`JobLedger.FinishedOnceIffTidy`), and over any scans the reports are right if and only if every scan was
  like that (`JobLedger.FinishedExactlyOnceIff`); a job closed by another pool's scan is never reported
  (`JobLedger.FinishIsLost`, `JobLedger.FinishCanBeLost`).
- The pool an edit is validated as is the pool that runs, except when its row was created over a pool of
  config.yml, and then if and only if that pool already has the token and, outside the fields the row
  tunes, the values asked for (`ConfigApi.PreviewIsWhatResolvesIff`). `create_pool` accepts such a name
  exactly when its one pool there is switched off (`ConfigApi.CreateReachesBaseIffDisabled`). Creating it again
  without `max_runners` previews 3 and runs 5 (`ConfigApi.CreateOverBaseMisleads`).
- A removed pool is still resolved if and only if its row was created over a name from config.yml, or
  config.yml has the name more than once, which only draws a warning (`ConfigApi.RemovedPoolStopsIff`).
  Remove, create, remove leaves the pool of config.yml running, with "removed" as the last reply
  (`ConfigApi.RemovedPoolComesBack`); the disabling row switches off the first of two pools of one name and
  the second runs (`ConfigApi.RemovedCopyRuns`).
- The startup warnings miss some ways in which runners are counted for more than one pool. Where pool names
  hold nothing but ASCII letters, digits, spaces and the separators `/`, `-`, `_` and `.`, two configured pools share
  a container without a warning if and only if their names sanitise to one prefix
  (`ContainerOwnership.SamePrefixIsNotWarned`) or their patterns differ only at dots, which the `docker ps`
  filter reads as "any character" (`ContainerOwnership.QuietPoolsShareIff`,
  `ContainerOwnership.DotClaimsTooMuch`). Nothing checks that names are like that, and parentheses in one claim
  another pool's containers (`ContainerOwnership.GroupClaimsTooMuch`). The repositories of one personal account
  are inspected each under a prefix of its own, which no warning compares: "api" takes the runners of
  "api-docs" for its own (`ContainerOwnership.SiblingsClaimIff`, `ContainerOwnership.SiblingClaimsTooMuch`).

## Model

| member | source | states |
|---|---|---|
| CapProtocol.CapHoldsInEveryRun | orchestrator/rorch/scaler.py:141-182 | in every interleaving of ps reads, grants, containers appearing, failing and exiting, and releases each of which gives back what is still held, visible containers plus granted ones not yet visible never exceed a fixed cap |
| CapProtocol.GrantRespectsItsCap | orchestrator/rorch/scaler.py:151-169 | a positive grant respects the cap its own section read, even when containers appeared between the `docker ps` read and the grant and the cap changed meanwhile |
| CapProtocol.GrantIsTheMost | orchestrator/rorch/scaler.py:151-169 | n slots are within a grant if and only if n are wanted and, under a cap, fit beside what runs and what is reserved |
| CapProtocol.StepKeepsBooksIff | orchestrator/rorch/scaler.py:393-411 | a step keeps the counter equal to the slots granted and not released if and only if it is not a `finally` that gives back more than is held: that is, one whose call submitted a spawn while other slots are reserved |
| CapProtocol.BooksThroughoutIff | orchestrator/rorch/scaler.py:141-182 | the counter is right in every state of a run if and only if every release in it gave back no more than was held |
| CapProtocol.CounterIsSumOfGrants | orchestrator/rorch/scaler.py:141-182 | in every run of such releases `_reserved_spawns` is the sum of the outstanding grants over all pools |
| TickProtocol.TickFollowsProtocol | orchestrator/rorch/scaler.py:188-216 | a tick that does not raise, whatever other pools do between its spawns, is a stretch of a run with one new slot for each spawn it submits, all released at its end, when the counter is what the other slots account for |
| TickProtocol.PersonalTickFollowsProtocol | orchestrator/rorch/scaler.py:218-282 | the same for a tick of a personal pool, with one slot for each spawn it allocates |
| TickProtocol.RaisedCallFollowsProtocol | orchestrator/rorch/scaler.py:404-411 | a call whose submissions raise after n spawns is such a stretch too, ended by a `finally` that gives back the whole grant, and the counter is right afterwards if and only if n is zero or no other slot is reserved by then |
| TickProtocol.ReleaseCanBreakTheCapIff | orchestrator/rorch/scaler.py:404-411 | after a `finally` in a state within the cap, ordinary steps with the cap left alone can lead past the cap if and only if it gave back more than was held |
| TickProtocol.OverReleaseBreaksTheCap | orchestrator/rorch/scaler.py:404-411 | from an idle start through a call during which another pool is granted a slot, though none is reserved when the call begins, more containers than the cap of 3 |
| RunnerOperations.InterleavedExactlyOnce | orchestrator/rorch/scaler.py:441-455 | the submission loop submits each deregistration and each spawn exactly once |
| RunnerOperations.InterleavedCounts | orchestrator/rorch/scaler.py:441-455 | each runner is deregistered, and each pool spawned for, as often as the two lists say |
| RunnerOperations.SpawnsForEach | orchestrator/rorch/scaler.py:438-440 | each pool on the allocation list gets as many spawn jobs as it was allocated |
| RunnerOperations.InterleavedAlternates | orchestrator/rorch/scaler.py:441-455 | while both kinds remain the loop alternates them, so neither waits for all of the other |
| RunnerOperations.SpawnSubmittedIff | orchestrator/rorch/scaler.py:441-455 | among the first n submissions there is a spawn if and only if there are spawns and n reaches the first operation, or the second when a deregistration goes first |
| Scaler.PoolScaler.ReserveSpawns | orchestrator/rorch/scaler.py:141-169 | grants what the protocol's grant step does and adds it to the counter: no more than asked for or than fits under the cap, and less than asked only when the cap is then full |
| Scaler.PoolScaler.SpawnReserved | orchestrator/rorch/scaler.py:177-182 | one slot goes back whether `docker run` starts, refuses or raises |
| Scaler.PoolScaler.SubmitAll | orchestrator/rorch/scaler.py:441-455 | the loop over the two lists submits the interleaving, or the prefix of it the executor took before raising |
| Scaler.PoolScaler.ExecuteRunnerOperations | orchestrator/rorch/scaler.py:413-464 | everything submitted is completed; with other pools' slots changing meanwhile, the counter is what they hold plus the call's slots less the spawns submitted |
| Scaler.PoolScaler.RunRunnerOperations | orchestrator/rorch/scaler.py:393-411 | what is submitted for every number of submissions the executor accepts; the counter ends at what other pools hold then if nothing raised, at that less the spawns submitted but not below zero if it did, and the two agree if and only if no spawn was submitted or nobody else holds a slot |
| Scaler.PoolScaler.TickSingle | orchestrator/rorch/scaler.py:188-216 | a tick keeps the pool within `max_runners`, spawns nothing while draining or hot and nothing beyond the larger of `min_idle` and busy plus queued; unless it raises or the cap is full it brings the pool up to one of these two bounds, spawns for this pool only, deregisters each offline runner once, and leaves in the counter what other pools hold |
| Scaler.PoolScaler.PlanPersonal | orchestrator/rorch/scaler.py:234-268 | the slots reserved for an account are used up exactly and keep it within `max_runners`; no repository gets runners beyond busy plus queued, and every one gets that many unless draining, or the account or the cap is full |
| Scaler.PoolScaler.TickPersonal | orchestrator/rorch/scaler.py:218-282 | the same for a whole tick, which unless it raises spawns for each repository what it was allocated and leaves in the counter what other pools hold |
| PersonalPool.Allocate | orchestrator/rorch/scaler.py:247-264 | the round-robin loop terminates with a water-filling of the same repositories in order of longer queue, then name; no repository has more runners than busy plus queued unless it had them before, and none fewer unless the grant was used up |
| PersonalPool.Round | orchestrator/rorch/scaler.py:251-262 | one pass raises the water level by one, or stops part way as the capacity ends |
| PersonalPool.WaterFillingIsUnique | orchestrator/rorch/scaler.py:250-264 | two water-fillings of one total are the same allocation, so the specification leaves no choice |
| PersonalPool.WaterFillingIsFair | orchestrator/rorch/scaler.py:250-264 | any other allocation of as many spawns that gives a repository more takes one from a repository that had at most one more |
| FederationSplit.Split | orchestrator/rorch/federation.py:106-121 | with distinct names, and rounding that keeps the order of the quotients, the greedy loop gives each host exactly its items among the first `queued` of all (host, k) pairs ordered by (free_cores+1)/k falling, then name |
| FederationSplit.RankRises | orchestrator/rorch/federation.py:117-119 | that order ranks the pairs without ties, which makes the first `queued` well defined |
| SplitTheorems.SplitTakesTheFirst | orchestrator/rorch/federation.py:106-121 | a host has at least k jobs if and only if fewer than `queued` pairs come before its k-th |
| SplitTheorems.SplitIgnoresOrder | orchestrator/rorch/federation.py:109-110 | every host computes the same shares whatever order it lists the slots in |
| SplitTheorems.SplitIsMonotone | orchestrator/rorch/federation.py:106-121 | more queued jobs never lower any host's share, and every share stays within its host's room |
| SplitTheorems.SplitIsExact | orchestrator/rorch/federation.py:109-110 | shares add up to min(max(0, queued), total capacity) |
| SplitTheorems.ExchangeCondition | orchestrator/rorch/federation.py:117-120 | in the result no host's last job has a worse quotient than another open host's next one |
| SplitTheorems.SplitMinimisesPeak | orchestrator/rorch/federation.py:106-121 | for every host's load in the split, any other allocation of as many jobs within the capacities loads some host at least that much |
| SplitTheorems.FloatQuotientsAgree | orchestrator/rorch/federation.py:119-120 | within the checked ranges comparing quotients rounded to double precision gives the same order as comparing them exactly |
| SplitTheorems.FloatsKeepOrder | orchestrator/rorch/federation.py:106-121 | so for slots in those ranges every choice of the loop made in double precision is the exact one, and the split it returns is the specified one |
| FederationPeers.SlotNamesDistinct | orchestrator/rorch/federation.py:124-141 | distinct instance names give distinct slots, as the split requires |
| FederationPeers.SlotTakesWhatFits | orchestrator/rorch/federation.py:124-141 | a host has a slot exactly for a pool it runs, weighed by its free cores; it takes n jobs if and only if it is cool, busy plus n is within `max_runners`, and the new runners these need are within its free room |
| FederationPeers.ValidatedSnapshotsRoundTrip | orchestrator/rorch/federation.py:177-220 | what one host accepts, every host accepts unchanged |
| FederationPeers.AcceptedIsWhatWasSent | orchestrator/rorch/federation.py:177-220 | an accepted snapshot is field by field what the peer sent, whole numbers cut down |
| FederationPeers.PublishedIsAcceptedIff | orchestrator/rorch/federation.py:164-220 | a snapshot is accepted as it is if and only if every field is within its limits |
| FederationPeers.BoundedSlotsKeepOrder | orchestrator/rorch/federation.py:164-220 | among snapshots within the checked bounds, which every checked peer is and ours may be, double precision orders all jobs as exact arithmetic does |
| FederationPeers.CheckedIsBounded | orchestrator/rorch/federation.py:177-220 | a snapshot that passes the check is within those bounds |
| FederationPeers.FreshPeersExactly | orchestrator/rorch/federation.py:269-280 | exactly the peers seen within the limit that do not claim our own name take part |
| FederationPeers.Federation.Refresh | orchestrator/rorch/federation.py:246-263 | a good reply replaces a peer's view with its checked snapshot and the time it was read; any other keeps the last good one and only marks the failure |
| FederationPeers.Federation.Covers | orchestrator/rorch/federation.py:287-292 | a covered pool is one we and a fresh peer both run, so it is split over at least two hosts |
| FederationPeers.Federation.QueueInput | orchestrator/rorch/federation.py:294-301 | for any snapshots nothing is fed in at or above the temperature limit, and otherwise never less than the number of ages that have reached the rescue limit; with distinct hosts, exactly the larger of these and the share |
| FleetCoverage.AgreeingPeersShareTheQueue | orchestrator/rorch/federation.py:106-121 | hosts that hold the same snapshots compute own shares that add up to min(queued, total capacity) |
| FleetCoverage.AgreeingPeersTakeAllTheyCan | orchestrator/rorch/federation.py:106-141 | these shares are each what the host can take, together no more than the queue and no fewer than any way to place as many of its jobs as the hosts can take |
| FleetCoverage.CapacityIsRoom | orchestrator/rorch/federation.py:130-141 | for a cool host whose snapshot is current, the slot takes n jobs if and only if busy plus n is within `max_runners` and the runners to start for them fit under its cap |
| FleetCoverage.ShareFitsRoom | orchestrator/rorch/federation.py:124-141 | a positive share goes only to a cool host that runs the pool, keeps it within `max_runners`, and needs no more new runners than it has room for |
| FleetCoverage.ShareIsNotTruncated | orchestrator/rorch/scaler.py:652-657 | with nothing else reserved, a tick brings a host with room for a share up to its busy runners plus that share |
| FleetCoverage.FleetCoversTheQueue | orchestrator/rorch/__main__.py:216-233 | from snapshots through what `queue_input` returns to what each tick submits: the fleet ends up with runners beyond the busy ones for the whole queue, or for as many jobs as could in any way be placed on cool hosts within their `max_runners` and caps |
| TickLanes.Lanes.Submit | orchestrator/rorch/lanes.py:44-63 | starts a job exactly when no unfinished future of that lane exists anywhere, and records it |
| TickLanes.Lanes.BusyLanes | orchestrator/rorch/lanes.py:65-67 | names exactly the lanes with an unfinished job |
| TickLanes.Lanes.ForgetExcept | orchestrator/rorch/lanes.py:69-74 | drops finished bookkeeping of removed lanes and keeps every unfinished job recorded |
| TickSchedule.OneJobPerLane | orchestrator/rorch/lanes.py:44-74 | over all interleavings a lane has at most one unfinished job and it is the recorded one, so dropping and re-adding a pool starts no second tick |
| TickSchedule.ScansAreSpaced | orchestrator/rorch/scaler.py:109-117 | in every run two scans of one pool key are at least the earlier one's poll interval apart |
| TickSchedule.RateLimitDelaysScans | orchestrator/rorch/scaler.py:124-131 | in every run no scan of a key starts before a rate-limited tick's start plus its retry delay |
| Scaler.PoolScaler.Admit | orchestrator/rorch/scaler.py:104-117 | a scan is admitted only when the pool is not paused and its next scan is due; it moves that pool's next scan an interval ahead and no other's |
| Scaler.PoolScaler.RateLimited | orchestrator/rorch/scaler.py:124-131 | the next scan comes no earlier than before, at least a second after the tick began and as late as GitHub asked; other pools are not delayed |
| RepositoryCache.AnswersAreSound | orchestrator/rorch/scaler.py:477-506 | in every run an answer is this call's discovery or the last one recorded for the key, and an expired one only when this call's refresh failed |
| RepositoryCache.StoreStaysBounded | orchestrator/rorch/scaler.py:508-524 | a store keeps the cache within 128 entries and changes no other entry it keeps |
| Scaler.PoolScaler.GetPersonalRepositories | orchestrator/rorch/scaler.py:477-506 | the answer and the cache afterwards, for a hit, a failed refresh, a refresh without TTL and a refresh |
| Scaler.PoolScaler.StoreRepositories | orchestrator/rorch/scaler.py:508-524 | a full cache loses exactly one entry, one that expires first |
| CircuitBreaker.BlockHolds | orchestrator/rorch/github_client.py:188-193 | an unexpired block never moves back |
| CircuitBreaker.BlockStopsRequests | orchestrator/rorch/github_client.py:125-146 | between a block and its expiry a token's requests on the wire are at most those that had already passed the check |
| CircuitBreaker.InFlightIsBounded | orchestrator/rorch/github_client.py:106-110 | requests in flight never exceed the semaphore's size |
| CircuitBreaker.BackoffIsMonotone | orchestrator/rorch/github_client.py:262-268 | secondary back-off never shrinks as failures repeat, starts at 60 s and stays at 900 s from the fifth on |
| CircuitBreaker.BackoffDoubles | orchestrator/rorch/github_client.py:262-268 | it starts at 60 seconds and doubles up to 900 |
| CircuitBreaker.MutationsAreApart | orchestrator/rorch/github_client.py:195-202 | any two mutations are at least a second apart for every gate between them |
| GitHubClient.Client.Begin | orchestrator/rorch/github_client.py:129-131 | a request goes on exactly when its token is not blocked, with the cached entry only for a GET |
| GitHubClient.Client.Finish | orchestrator/rorch/github_client.py:148-186 | block times, failure counts, cache and result after every kind of answer; a reserve reached raises and keeps neither data nor cache change |
| GitHubClient.Client.Accept | orchestrator/rorch/github_client.py:150-165 | a success or a 304 that leaves the reserve untouched clears the failure count, and stores or refreshes the entry it answers for |
| GitHubClient.Client.UpdateRateLimit | orchestrator/rorch/github_client.py:223-243 | raises and blocks exactly when the budget is at or under the reserve and the reset is still ahead |
| GitHubClient.Client.RateLimitRetry | orchestrator/rorch/github_client.py:245-268 | a limit without a time given adds one to this token's failures, touches no other token, and waits between 60 and 900 s; one with a time changes no count |
| GitHubClient.Client.BlockToken | orchestrator/rorch/github_client.py:279-285 | a block is only ever extended, and the dashboard's value follows the latest |
| GitHubClient.Client.CacheConditionalResponse | orchestrator/rorch/github_client.py:287-299 | the eviction loop leaves the cache as specified: newest last, within its bound, or without the entry when there is no ETag |
| GitHubClient.Client.CooldownUntil | orchestrator/rorch/github_client.py:204-221 | the dashboard shows a cooldown if and only if some token is blocked, and then the latest end among them |
| GitHubClient.Client.PaceMutation | orchestrator/rorch/github_client.py:195-202 | each gate is at least a second after the last; it sleeps only when less than a second has passed, and never more than a second |
| GitHubClient.Client.GetShared | orchestrator/rorch/github_client.py:314-336 | a scan under 10 s old is returned as it is; otherwise the answer is returned, and kept only if it is one |
| GitHubClient.Client.KeepScan | orchestrator/rorch/github_client.py:333-343 | keeps a scan, and past 512 entries forgets exactly the expired ones with their locks |
| ConditionalCache.CacheIsTransparent | orchestrator/rorch/github_client.py:125-165 | if an ETag names one body, every GET in every run returns the body the server held when it answered, even when entries are replaced or evicted between the request and its answer |
| ConditionalCache.CacheIsLru | orchestrator/rorch/github_client.py:163-164 | over any sequence of stores and revalidations the cache is bounded by 2048 and ordered by last use |
| ConditionalCache.EvictsLeastRecentlyUsed | orchestrator/rorch/github_client.py:296-299 | what a store evicts was used before everything it keeps and is never what it stored |
| ConditionalCache.StoreIsBounded | orchestrator/rorch/github_client.py:287-299 | a store keeps what it stored and loses at most one entry, only from a full cache |
| SharedScan.ReuseIsFresh | orchestrator/rorch/github_client.py:314-336 | in every run a reused response was fetched no earlier than its recorded time, and that time was under 10 s old for its reader, even with late writers |
| SingleFlight.SingleFlight | orchestrator/rorch/github_client.py:314-343 | in every run whose drops forget no key of a caller without its answer, at most one fetch per key is in flight |
| SingleFlight.HarmfulDropCanBreak | orchestrator/rorch/github_client.py:338-343 | from every reachable state, a drop that forgets such a key can go on to two overlapping fetches of it |
| SingleFlight.SingleFlightFails | orchestrator/rorch/github_client.py:332-343 | a state with two overlapping fetches of one key is reached from the start: 512 scans are kept, the first one is refetched after expiring, and a 513th drops it |
| QueueScan.ServesIffEveryLabelOffered | orchestrator/rorch/config.py:99-111 | a pool serves a job if and only if it offers every label asked for, in any case, counting the defaults a GitHub runner adds |
| QueueScan.ScanRun | orchestrator/rorch/github_client.py:483-503 | a run's count is the number of its jobs that are queued, ask for no label the pool does not offer, and are old enough or of unreadable age; the ages are those of all such jobs whatever their age, and exactly the other jobs are recorded |
| QueueScan.ScanRepo | orchestrator/rorch/github_client.py:458-481 | over the listings each distinct run is counted once, and each failed listing or run once as a failure |
| QueueScan.ScanQueue | orchestrator/rorch/github_client.py:441-448 | the org-wide scan is the sum of the repositories' scans, and one failure when they cannot be listed |
| QueueScan.ScanIsALowerBound | orchestrator/rorch/github_client.py:416-439 | whatever requests fail, the count never exceeds the jobs truly waiting - queued, with every label offered, and old enough - is exact when none failed, and agrees with the ages returned |
| QueueScan.OrganisationCount | orchestrator/rorch/github_client.py:441-448 | the same over all repositories of an organisation |
| QueueScan.TotalOfParts | orchestrator/rorch/github_client.py:59-62 | scans add up the same however they are grouped |
| QueueScan.AgesAgreeWithCount | orchestrator/rorch/scaler.py:378-386 | counting the ages that are old enough gives the count of the scan, so a host that falls back from the split scales for the same number as one that never federated |
| JobLedger.Store.SyncJobs | orchestrator/rorch/store.py:376-456 | the table, the started list and the finished list after one scan |
| JobLedger.Store.CloseUnseen | orchestrator/rorch/store.py:431-452 | closes exactly the known open jobs the scan did not show and reports each once from its row |
| JobLedger.RowsAreWriteOnce | orchestrator/rorch/store.py:38-49 | a row is never removed, keeps its pool, description and insert time, and keeps its end time once set; other pools' rows are untouched |
| JobLedger.SyncedMention | orchestrator/rorch/store.py:38-49 | a job the scan mentions has the status, conclusion and runner of its last mention; its pool, description and insert time stay, or are those of the first mention; its end time stays, or is set if any mention is completed |
| JobLedger.SyncedUnmentioned | orchestrator/rorch/store.py:429-441 | an open row of the pool that the scan does not mention is closed out with its runner and its conclusion, or "unobserved" if it has none; any other such row stays as it is |
| JobLedger.StartedAre | orchestrator/rorch/store.py:384-424 | exactly the mentions of jobs the pool has no row for are reported started, as the scan has them |
| JobLedger.FinishedAre | orchestrator/rorch/store.py:425-452 | exactly the completed mentions of open jobs of the pool, as the scan has them, and its open jobs the scan does not mention, as their rows have them, are reported finished |
| JobLedger.StartedOnceIffTidy | orchestrator/rorch/store.py:384-385 | a sync reports exactly the jobs it adds, once each, if and only if no scanned id is another pool's and no new id is scanned twice |
| JobLedger.FinishedOnceIffTidy | orchestrator/rorch/store.py:383-452 | a sync reports exactly the jobs whose rows it closes, once each, if and only if it shows no open job of another pool completed and none of its own completed twice |
| JobLedger.FinishedTimes | orchestrator/rorch/store.py:424-452 | how often a sync reports any job: once for each completed mention of an open job of the pool, once when it closes the job out, never for another pool's |
| JobLedger.FinishIsLost | orchestrator/rorch/store.py:394-425 | when another pool's scan shows an open job completed, the job is closed and no scan, then or ever after, reports it |
| JobLedger.FinishCanBeLost | orchestrator/rorch/store.py:394-425 | two scans after which that has happened |
| JobLedger.OpenRowsAreTheScan | orchestrator/rorch/store.py:429-441 | after any sync the pool's open rows are exactly the scanned jobs that are not completed, were never closed and are not another pool's |
| JobLedger.StartedExactlyOnceIff | orchestrator/rorch/store.py:376-456 | over any sequence of scans every job seen is reported started exactly once if and only if every scan met the condition for one sync |
| JobLedger.FinishedExactlyOnceIff | orchestrator/rorch/store.py:376-456 | over any sequence of scans, the jobs whose end time was set after insertion are reported finished once each and no others, if and only if every scan met the condition for one sync |
| JobLedger.EndTimesAreForever | orchestrator/rorch/store.py:36-49 | an end time, once set, survives every later scan |
| JobLedger.SharedJobStartsAgain | orchestrator/rorch/store.py:394-425 | a job with a row under another pool is announced again by every scan that shows it |
| Idempotency.InFlightKeys.Claim | orchestrator/rorch/server/deps.py:81-87 | owned exactly when nobody held the key |
| Idempotency.InFlightKeys.Release | orchestrator/rorch/server/deps.py:89-91 | frees that key and no other |
| Idempotency.Handler.Handle | orchestrator/rorch/server/auth.py:103-126 | one request alone: told to wait, replayed or run, with only a 2xx recorded and the key always free again |
| Idempotency.SucceedsAtMostOnce | orchestrator/rorch/server/auth.py:95-128 | in every interleaving a key's view succeeds at most once, plus once for each recorded success lost or pruned; with none lost every replay is the first success's body |
| Idempotency.RecordedSuccessIsReplayed | orchestrator/rorch/server/auth.py:114-119 | from the moment a success is recorded until it is pruned, every request with its key that looks gets exactly that body, and none is running the view |
| Idempotency.UnclaimedKeyRuns | orchestrator/rorch/server/auth.py:107-122 | a key no request owns and with nothing recorded is run by its next request, whatever happens between that request's claim and its look at the store |
| Idempotency.FailedKeyRunsAgain | orchestrator/rorch/server/auth.py:120-126 | after a failed attempt nobody owns its key, and the next request with it runs the view, whatever else happens in between |
| ConfigOverlay.CoercePoolFields | orchestrator/rorch/resolver.py:80-92 | every value converted to its field's type, or an exception if any does not convert |
| ConfigOverlay.ConvertedKinds | orchestrator/rorch/resolver.py:50-92 | which fields become integers, a float or text, which text is lowered, and exactly when a value does not convert |
| ConfigOverlay.FieldKinds | orchestrator/rorch/resolver.py:25-48 | the fifteen fields an override may tune and the four that identify a pool |
| ConfigOverlay.RowMakesPoolIff | orchestrator/rorch/resolver.py:181-207 | an API row makes a pool if and only if it is on, the token it names is set, its values convert, it has an owner and only known fields, and the pool validates; the pool is given in full |
| ConfigOverlay.Resolve | orchestrator/rorch/resolver.py:128-168 | the two loops over config.yml and the remaining rows compute the overlay's specification, including when they raise |
| ConfigOverlay.ResolveIsPerName | orchestrator/rorch/resolver.py:141-159 | for distinct names, what is resolved is exactly what the overlay means for each name, each once |
| ConfigOverlay.ResolvedNamed | orchestrator/rorch/resolver.py:141-159 | for any config.yml, what is resolved under one name: the first copy under the name's row and the other copies as they are, or else the pool its row makes |
| ConfigOverlay.ResolveKeepsOrder | orchestrator/rorch/resolver.py:141-159 | the config.yml pools come first, in order, minus the disabled ones; then only usable, enabled API pools |
| ConfigOverlay.OverridesOnlyTune | orchestrator/rorch/resolver.py:171-179 | an override changes tunable fields only: never the name, the token or the identity |
| ConfigOverlay.EmptyOverlayIsIdentity | orchestrator/rorch/resolver.py:6-9 | with no overrides the result is config.yml unchanged |
| ConfigOverlay.CoercibleRowsResolve | orchestrator/rorch/resolver.py:171-202 | `resolve` does not raise when every stored value converts |
| ConfigApi.ControlApi.PatchPool | orchestrator/rorch/server/control_routes.py:110-134 | only an accepted patch changes anything, and only that pool's row: its origin and other fields stay, each field of the body is stored converted, and the row is enabled |
| ConfigApi.ControlApi.CreatePool | orchestrator/rorch/server/control_routes.py:153-173 | only an accepted creation changes anything, and only that name's row, which holds the body as given; its preview is usable and bears the name |
| ConfigApi.ControlApi.RemovePool | orchestrator/rorch/server/control_routes.py:179-193 | succeeds exactly for a config.yml name or an API row; no API row is left under the name, a row that stays keeps its data, and no other row changes |
| ConfigApi.ControlApi.ResetPool | orchestrator/rorch/server/control_routes.py:140-147 | succeeds exactly for a config.yml name, which then has no row; no other row changes |
| ConfigApi.PreviewIsWhatResolvesIff | orchestrator/rorch/server/control_routes.py:225-246 | after any edits, the pool an accepted edit was validated as is the one pool of that name the next `resolve` returns, if and only if its row is not one created over a config.yml pool that differs from it in token or an untuned field |
| ConfigApi.EditsNeverBreakResolve | orchestrator/rorch/server/control_routes.py:110-193 | no sequence of edits makes `resolve` raise |
| ConfigApi.CreateReachesBaseIffDisabled | orchestrator/rorch/server/control_routes.py:162-163 | the existence check lets a config.yml name through exactly when its row is disabled and config.yml has it once |
| ConfigApi.CreateOverBaseRunsIff | orchestrator/rorch/server/control_routes.py:164-173 | a pool created over a config.yml name runs as previewed if and only if the config.yml pool has the body's token and, in every field the body does not tune, the value the body or the default gives |
| ConfigApi.CreateOverBaseMisleads | orchestrator/rorch/server/control_routes.py:164-173 | an accepted creation whose preview has 3 runners at most and whose running pool has 5 |
| ConfigApi.RemovedPoolStopsIff | orchestrator/rorch/resolver.py:141-159 | for any config.yml, `resolve` still returns a pool of a removed name if and only if its row was created over that name or config.yml has the name more than once |
| ConfigApi.RemovedCopyRuns | orchestrator/rorch/resolver.py:141-149 | a pool named twice in config.yml and then removed, with the reply that it is, still runs |
| ConfigApi.EditTouchesOneName | orchestrator/rorch/server/control_routes.py:110-193 | for any config.yml, an edit leaves unchanged what `resolve` returns under every other name |
| ConfigApi.RemovedPoolComesBack | orchestrator/rorch/server/control_routes.py:182-184 | remove, create, remove: every reply says so and the config.yml pool runs, for every such pool and every accepted body |
| ConfigApi.ResetRestoresBase | orchestrator/rorch/server/control_routes.py:140-147 | after a reset `resolve` returns under the name just its pools of config.yml, in order, whatever was done to them |
| ConfigApi.NoEditIsLost | orchestrator/rorch/server/auth.py:131-143 | however serialized edits overlap, the rows are those of making the accepted ones one after another |
| ConfigApi.EveryEditIsSettled | orchestrator/rorch/server/auth.py:131-143 | a caller leaves with its edit accepted and just made, or refused by the rows as they are |
| ConfigApi.HolderCanFinish | orchestrator/rorch/server/auth.py:131-143 | whoever has the lock can read, write unless its edit is refused, and leave the lock free |
| ContainerOwnership.ClaimsIff | orchestrator/rorch/docker_client.py:201-212 | a pool whose prefix a container's name may begin with claims a container of another if and only if its name pattern fits the other's, dots in its name fitting anything |
| ContainerOwnership.ReadableIff | orchestrator/rorch/config.py:156-159 | a pool's prefix can begin a container's name if and only if its name holds only ASCII letters, digits, spaces, slashes, dashes, underscores and dots |
| ContainerOwnership.ClaimsIffOverlap | orchestrator/rorch/docker_client.py:201-212 | for such a claimant without a dot: if and only if the prefixes are equal or the other's starts with its own plus a dash |
| ContainerOwnership.RepositoryContainersAreFound | orchestrator/rorch/config.py:173-181 | a personal pool's prefix filter finds the containers of its repositories |
| ContainerOwnership.ValidationWarnings | orchestrator/rorch/config.py:449-471 | the loops give one warning per repeated name and per overlapping pair, in order |
| ContainerOwnership.NoWarningsIffApart | orchestrator/rorch/config.py:457-471 | no warning is given if and only if names are distinct and no two prefixes overlap |
| ContainerOwnership.CommonContainerIff | orchestrator/rorch/docker_client.py:201-212 | some container, whatever it is called, is claimed by both of two such pools if and only if their patterns agree as far as both go, a dot agreeing with anything |
| ContainerOwnership.QuietPoolsShareIff | orchestrator/rorch/config.py:456-471 | without warnings two such pools can claim a common container if and only if their names sanitise to one prefix or their patterns agree everywhere but at some dots |
| ContainerOwnership.QuietPlainPoolsShareIff | orchestrator/rorch/config.py:456-471 | and where their names have no dot, if and only if the prefixes are equal |
| ContainerOwnership.RepositoriesOfPoolsStayApart | orchestrator/rorch/config.py:173-181 | without warnings two personal pools and their repositories have no container in common, unless the two share a prefix or a dot bridges them |
| ContainerOwnership.SiblingsClaimIff | orchestrator/rorch/scaler.py:218-232 | one repository of an account claims another's containers if and only if its name's pattern, with a dash, fits the other's |
| ContainerOwnership.PlainSiblingsClaimIff | orchestrator/rorch/scaler.py:218-232 | for a repository name without a dot: if and only if the names differ in case at most, or the other's goes on after it with a dash |
| ContainerOwnership.SiblingClaimsTooMuch | orchestrator/rorch/scaler.py:218-232 | for every personal pool, repository "api" claims the containers of "api-docs", and no warning is given |
| ContainerOwnership.SamePrefixIsNotWarned | orchestrator/rorch/config.py:457-471 | two distinct names with one prefix give no warning and share every container |
| ContainerOwnership.DotClaimsTooMuch | orchestrator/rorch/docker_client.py:201-212 | a dot in a name claims another pool's containers although no warning is given |
| ContainerOwnership.GroupClaimsTooMuch | orchestrator/rorch/config.py:395-471 | parentheses in a name group, so "heavy (gpu)" claims the containers of "heavy gpu" without a warning |

## Left out

Assumptions the theorems rest on:

- `docker ps` lists exactly the running containers, and a container carries its slot's identity from `docker run` on.
- Clocks do not run backwards, and one reading serves a whole lock section.
- The manual `/scale` action, which starts a container without a reservation, process crashes and restarts.
- CapProtocol.CapHoldsInEveryRun: every spawn goes through `_spawn_reserved`, and every `finally` gives back no more than is held; `TickProtocol.ReleaseCanBreakTheCapIff` says what happens when one does.
- FederationSplit.Split: says what the shares are for slots of distinct names only, because `shares` is keyed by name and of two hosts with one name only our own is told apart.
- FederationPeers.BoundedSlotsKeepOrder: asks the same bounds of our own snapshot, which the program publishes without checking.
- FleetCoverage.FleetCoversTheQueue: the hosts' snapshots are current when they act; between a snapshot and a tick they may age.
- TickLanes.Lanes.Submit: the executor accepts the job; the stall warning is not modelled.
- RepositoryCache.AnswersAreSound: calls for one key do not overlap, as `TickSchedule.OneJobPerLane` ensures; calls for other keys interleave freely.
- ConditionalCache.CacheIsTransparent: the server follows sections 13.1.2 and 15.4.5 of RFC 9110, and an ETag names one body of its resource.
- ConfigOverlay.ResolveIsPerName: distinct names in config.yml; the loop itself is modelled for repeated ones too.
- ContainerOwnership.ClaimsIff: the claimant's prefix is one a container's name may begin with, which nothing checks; of the other pattern characters only parentheses are modelled. Ids have no dash, as hexadecimal ones have none.
- TickProtocol.TickFollowsProtocol: the tick's own spawns return one after another; other pools' steps come between them.
- SplitTheorems.FloatQuotientsAgree: rounding is to nearest for quotients up to 1025, the largest that occur.

Not modelled:

- HTTP, the Docker command line, Flask, logging, metrics, dashboards, sessions and tokens.
- SQL text, dialects, schema, reconnects and pruning of tables other than recorded responses: tables are maps.
- Reading YAML and the environment, splitting and stripping comma-separated labels, sizes, and the range checks of `validation_errors`, which appear as one predicate.
- The warning about a tmpfs as large as the memory limit.
- Global overrides and pool states of the resolved configuration: one independent branch each.
- Container reapers, stuck-runner cleanup, image pulls and prunes.
- The listing of repositories with its filters, and the parallel inspection of repositories.
- Lowercasing is ASCII only.
- GitHubClient.Client.Finish: the remaining-budget figures kept for the dashboard, and the wording of reasons.
- GitHubClient.Client.KeepScan: the response carries the time it was really fetched, which the program does not record.
- QueueScan.ScanRun: a job is recorded as it is; which of its fields the ledger keeps is not modelled.
- Idempotency.Handler.Handle: requests without a key, which run the view directly.
