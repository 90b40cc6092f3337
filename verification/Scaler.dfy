/** `PoolScaler`: reservations, allocation, operations, poll schedule and repository cache in one object. */
module Scaler {
  import opened Common
  import opened CapProtocol
  import opened RunnerOperations
  import PersonalPool
  import TickSchedule
  import RepositoryCache

  /** The configuration fields scaling reads. */
  datatype Pool = Pool(key: TickSchedule.Key, maxRunners: int, minIdle: int, pollInterval: real, discoveryTtl: nat)

  datatype PoolState = PoolState(paused: bool, draining: bool)

  /** What one non-personal inspection found; `offline` are the runners to deregister. */
  datatype Inspection = Inspection(running: nat, busy: nat, queued: nat, offline: seq<string>)

  datatype SpawnOutcome = Started | Refused | Raised

  /** `_calculate_spawn_count`. */
  function DesiredSpawns(pool: Pool, running: nat, busy: nat, queued: nat): int {
    Max(0, Min(pool.maxRunners, Max(pool.minIdle, busy + queued)) - running)
  }

  /** What `_tick_personal` asks the cap for. */
  function PersonalDemand(pool: Pool, items: seq<PersonalPool.Inspection>): int {
    Min(Max(0, pool.maxRunners - TotalRunning(items)), Sum(PersonalPool.Needs(items)))
  }

  function Running(items: seq<PersonalPool.Inspection>): (r: seq<int>)
    ensures |r| == |items| && forall i :: 0 <= i < |items| ==> r[i] == items[i].running
  {
    seq(|items|, i requires 0 <= i < |items| => items[i].running)
  }

  function TotalRunning(items: seq<PersonalPool.Inspection>): int { Sum(Running(items)) }

  function Allocations(ordered: seq<PersonalPool.Inspection>, allocations: map<string, nat>): (r: seq<(string, nat)>)
    ensures |r| == |ordered|
  {
    if ordered == [] then []
    else [(ordered[0].repo, PersonalPool.At(allocations, ordered[0].repo))] + Allocations(ordered[1..], allocations)
  }

  lemma {:induction false} AllocationsTotal(ordered: seq<PersonalPool.Inspection>, allocations: map<string, nat>)
    ensures SpawnCount(Allocations(ordered, allocations)) == Sum(PersonalPool.Spawns(ordered, allocations))
  {
    if ordered != [] {
      AllocationsTotal(ordered[1..], allocations);
      assert PersonalPool.Spawns(ordered, allocations)
          == [PersonalPool.At(allocations, ordered[0].repo)] + PersonalPool.Spawns(ordered[1..], allocations);
    }
  }

  /** The busiest repositories first, the grant shared out by water-filling and used up exactly, and the
      account limit kept. */
  ghost predicate IsPlan(pool: Pool, items: seq<PersonalPool.Inspection>, granted: int,
                         ordered: seq<PersonalPool.Inspection>, allocations: map<string, nat>) {
    var spawns := PersonalPool.Spawns(ordered, allocations);
    && ordered == Sorted(PersonalPool.BusiestFirst(), items)
    && InOrder(PersonalPool.BusiestFirst(), ordered) && multiset(ordered) == multiset(items)
    && (exists level, extra :: PersonalPool.WaterFilled(ordered, spawns, level, extra))
    && Sum(spawns) == granted
    && TotalRunning(items) + Sum(spawns) <= Max(TotalRunning(items), pool.maxRunners)
  }

  class PoolScaler {
    var maxTotalRunners: int
    var reservedSpawns: int
    var nextPollAt: map<TickSchedule.Key, real>
    var repositoryCache: map<RepositoryCache.Key, RepositoryCache.Entry>

    ghost predicate Valid()
      reads this
    {
      reservedSpawns >= 0 && |repositoryCache| <= RepositoryCache.MAX_REPOSITORY_CACHE_ENTRIES
    }

    constructor (cap: int)
      ensures Valid() && maxTotalRunners == cap && reservedSpawns == 0
      ensures nextPollAt == map[] && repositoryCache == map[]
    {
      maxTotalRunners, reservedSpawns := cap, 0;
      nextPollAt, repositoryCache := map[], map[];
    }

    /** Grants up to `toSpawn` slots; `running` is what `docker ps` lists under the cap lock. */
    method ReserveSpawns(toSpawn: int, running: nat) returns (granted: int)
      requires Valid()
      modifies this`reservedSpawns
      ensures Valid() && granted == Grant(maxTotalRunners, running, old(reservedSpawns), toSpawn) >= 0
      ensures granted <= Max(0, toSpawn)
      ensures maxTotalRunners > 0 && granted > 0 ==> running + old(reservedSpawns) + granted <= maxTotalRunners
      ensures granted < toSpawn ==> 0 < maxTotalRunners <= running + old(reservedSpawns) + granted
      ensures reservedSpawns == old(reservedSpawns) + granted
    {
      if toSpawn <= 0 {
        return 0;
      }
      var cap := maxTotalRunners;
      granted := toSpawn;
      if cap > 0 {
        var headroom := Max(0, cap - running - reservedSpawns);
        granted := Min(granted, headroom);
      }
      reservedSpawns := reservedSpawns + granted;
    }

    method ReleaseSpawns(count: int)
      requires Valid()
      modifies this`reservedSpawns
      ensures Valid() && reservedSpawns == Released(old(reservedSpawns), count)
    {
      if count <= 0 {
        return;
      }
      reservedSpawns := Max(0, reservedSpawns - count);
    }

    /** Whatever `docker run` does, its slot goes back. */
    method SpawnReserved(outcome: SpawnOutcome) returns (ok: bool)
      requires Valid()
      modifies this`reservedSpawns
      ensures Valid() && reservedSpawns == Released(old(reservedSpawns), 1) && ok == outcome.Started?
    {
      ok := outcome.Started?;
      ReleaseSpawns(1);
    }

    /** The submission loop; the executor accepts `accepts` submissions and raises on the next. */
    static method SubmitAll(deregistrations: seq<string>, spawns: seq<string>, accepts: nat)
      returns (log: seq<Operation>, raised: bool)
      ensures raised <==> accepts < |Interleaved(deregistrations, spawns)|
      ensures var all := Interleaved(deregistrations, spawns);
              log == if raised then all[..accepts] else all
    {
      var deregistrationJobs, spawnJobs := deregistrations, spawns;
      log, raised := [], false;
      ghost var all := Interleaved(deregistrations, spawns);
      while deregistrationJobs != [] || spawnJobs != []
        invariant |log| <= accepts && all == log + Interleaved(deregistrationJobs, spawnJobs)
        decreases |deregistrationJobs| + |spawnJobs|
      {
        var turn := Turn(deregistrationJobs, spawnJobs);
        deregistrationJobs, spawnJobs := ButLast(deregistrationJobs), ButLast(spawnJobs);
        LogTurn(all, log, turn, Interleaved(deregistrationJobs, spawnJobs), accepts);
        if |log| + |turn| > accepts {
          return log + turn[..accepts - |log|], true;
        }
        log := log + turn;
      }
    }

    /** Submits every operation, then waits for the workers to finish what was submitted. The counter is
        shared: other pools hold `others(0)` slots when this call starts, `others(k)` when k of its spawns
        have returned, and `others(n + 1)` when all n have and it goes on. It holds `own` slots at first. */
    method ExecuteRunnerOperations(deregistrations: seq<string>, spawns: seq<string>,
                                   outcomes: nat -> SpawnOutcome, accepts: nat, others: nat -> nat, ghost own: nat)
      returns (log: seq<Operation>, raised: bool)
      requires Valid() && own >= |spawns| && reservedSpawns == others(0) + own
      modifies this`reservedSpawns
      ensures Valid() && SpawnsIn(log) <= |spawns|
      ensures raised <==> accepts < |Interleaved(deregistrations, spawns)|
      ensures var all := Interleaved(deregistrations, spawns);
              log == if raised then all[..accepts] else all
      ensures reservedSpawns == others(SpawnsIn(log) + 1) + own - SpawnsIn(log)
    {
      log, raised := SubmitAll(deregistrations, spawns, accepts);
      InterleavedSpawnCount(deregistrations, spawns);
      if raised { PrefixSpawns(Interleaved(deregistrations, spawns), accepts); }
      AwaitSpawns(SpawnsIn(log), outcomes, others, own);
    }

    /** Each worker releases its slot; between two of them other pools reserve and release theirs. */
    method AwaitSpawns(submitted: nat, outcomes: nat -> SpawnOutcome, others: nat -> nat, ghost own: nat)
      requires Valid() && own >= submitted && reservedSpawns == others(0) + own
      modifies this`reservedSpawns
      ensures Valid() && reservedSpawns == others(submitted + 1) + own - submitted
    {
      for finished := 0 to submitted
        invariant Valid() && reservedSpawns == others(finished) + own - finished
      {
        var ok := SpawnReserved(outcomes(finished));
        reservedSpawns := reservedSpawns - others(finished) + others(finished + 1);
      }
      reservedSpawns := reservedSpawns - others(submitted) + others(submitted + 1);
    }

    /** Every spawn holds a reservation, released by its worker, or in the end if it was not submitted - or,
        when submitting raises, by both. Only what other pools hold should be left then, and it is unless
        submitting raised after a spawn and other pools hold slots when `finally` runs. */
    method RunRunnerOperations(deregistrations: seq<string>, allocations: seq<(string, nat)>,
                               outcomes: nat -> SpawnOutcome, accepts: nat, others: nat -> nat)
      returns (log: seq<Operation>, raised: bool)
      requires Valid() && reservedSpawns == others(0) + SpawnCount(allocations)
      modifies this`reservedSpawns
      ensures Valid()
      ensures raised <==> accepts < |deregistrations| + SpawnCount(allocations)
      ensures log == Submitted(deregistrations, allocations, accepts)
      ensures !raised ==> SpawnsIn(log) == SpawnCount(allocations)
      ensures raised ==>
        (SpawnsIn(log) > 0 <==> SpawnCount(allocations) > 0 && accepts >= if deregistrations == [] then 1 else 2)
      ensures var left := others(SpawnsIn(log) + 1);
              && reservedSpawns == (if raised then Max(0, left - SpawnsIn(log)) else left)
              && (reservedSpawns == left <==> !raised || SpawnsIn(log) == 0 || left == 0)
    {
      var spawnCount, spawns := SpawnCount(allocations), SpawnJobs(allocations);
      SubmittedSpawns(deregistrations, allocations, accepts);
      SpawnJobsCount(allocations);
      log, raised := ExecuteRunnerOperations(deregistrations, spawns, outcomes, accepts, others, spawnCount);
      var submittedSpawns := if raised then 0 else SpawnsIn(log);
      ReleaseSpawns(spawnCount - submittedSpawns);
    }

    /** One tick of a repository or organisation pool: what is spawned, and that no slot granted for it
        is left when the tick ends, only what other pools hold by then. */
    method TickSingle(pool: Pool, inspection: Inspection, draining: bool, hot: bool, running: nat,
                      outcomes: nat -> SpawnOutcome, accepts: nat, others: nat -> nat)
      returns (log: seq<Operation>, raised: bool)
      requires Valid() && reservedSpawns == others(0)
      modifies this`reservedSpawns
      ensures Valid()
      ensures !raised ==> reservedSpawns == others(SpawnsIn(log) + 1)
      ensures !raised ==> log == TickLog(pool, inspection, draining || hot, maxTotalRunners, running,
                                         old(reservedSpawns))
      ensures draining || hot ==> SpawnsIn(log) == 0
      ensures inspection.running + SpawnsIn(log) <= Max(inspection.running, pool.maxRunners)
      ensures SpawnsIn(log) > 0 ==>
                inspection.running + SpawnsIn(log) <= Max(pool.minIdle, inspection.busy + inspection.queued)
      ensures !raised && !draining && !hot
              && (maxTotalRunners <= 0 || running + old(reservedSpawns) + SpawnsIn(log) < maxTotalRunners) ==>
                || inspection.running + SpawnsIn(log) >= pool.maxRunners
                || inspection.running + SpawnsIn(log) >= Max(pool.minIdle, inspection.busy + inspection.queued)
      ensures !raised ==> forall r ::
                && multiset(log)[Deregister(r)] == multiset(inspection.offline)[r]
                && multiset(log)[Spawn(r)] == if r == pool.key.name then SpawnsIn(log) else 0
    {
      var toSpawn := 0;
      if !draining && !hot {
        toSpawn := DesiredSpawns(pool, inspection.running, inspection.busy, inspection.queued);
      }
      var granted := ReserveSpawns(toSpawn, running);
      assert SpawnCount([(pool.key.name, granted as nat)]) == granted;
      SubmittedSpawns(inspection.offline, [(pool.key.name, granted as nat)], accepts);
      log, raised := RunRunnerOperations(inspection.offline, [(pool.key.name, granted as nat)], outcomes, accepts,
                                         others);
      DemandMet(pool, inspection, draining || hot, maxTotalRunners, running, old(reservedSpawns), granted,
                SpawnsIn(log));
      if !raised { SingleTickOperations(pool, inspection, granted, log); }
    }

    /** Reserves what the repositories need under the account limit and shares it out. */
    method PlanPersonal(pool: Pool, items: seq<PersonalPool.Inspection>, draining: bool, running: nat)
      returns (ordered: seq<PersonalPool.Inspection>, allocations: map<string, nat>)
      requires Valid() && PersonalPool.DistinctRepos(items)
      modifies this`reservedSpawns
      ensures Valid()
      ensures var want := if draining then 0 else PersonalDemand(pool, items);
              IsPlan(pool, items, Grant(maxTotalRunners, running, old(reservedSpawns), want), ordered, allocations)
      ensures reservedSpawns == old(reservedSpawns) + Sum(PersonalPool.Spawns(ordered, allocations))
      ensures forall x :: x in items ==>
                x.running + PersonalPool.At(allocations, x.repo) <= Max(x.running, x.busy + x.queued)
      ensures var n := Sum(PersonalPool.Spawns(ordered, allocations));
              && (draining ==> n == 0)
              && TotalRunning(items) + n <= Max(TotalRunning(items), pool.maxRunners)
              && (!draining && TotalRunning(items) + n < pool.maxRunners
                  && (maxTotalRunners <= 0 || running + old(reservedSpawns) + n < maxTotalRunners) ==>
                    forall x :: x in items ==>
                      x.running + PersonalPool.At(allocations, x.repo) >= x.busy + x.queued)
    {
      NeedsTotalNonNegative(PersonalPool.Needs(items));
      var capacity := 0;
      if !draining {
        capacity := ReserveSpawns(PersonalDemand(pool, items), running);
      }
      ordered, allocations := PersonalPool.Allocate(items, capacity);
      PersonalPool.SortedSum(items);
      if Sum(PersonalPool.Spawns(ordered, allocations)) == Sum(PersonalPool.Needs(items)) {
        PersonalPool.OrderedKeeps(items);
        PersonalPool.AllocationSuffices(items, ordered, allocations);
      }
    }

    /** One tick of a personal pool: the grant is used up exactly, the account limit holds, and none of
        it is left when the tick ends. */
    method TickPersonal(pool: Pool, items: seq<PersonalPool.Inspection>, offline: seq<string>, draining: bool,
                        running: nat, outcomes: nat -> SpawnOutcome, accepts: nat, others: nat -> nat)
      returns (ordered: seq<PersonalPool.Inspection>, allocations: map<string, nat>, log: seq<Operation>, raised: bool)
      requires Valid() && PersonalPool.DistinctRepos(items) && reservedSpawns == others(0)
      modifies this`reservedSpawns
      ensures Valid()
      ensures var want := if draining then 0 else PersonalDemand(pool, items);
              IsPlan(pool, items, Grant(maxTotalRunners, running, old(reservedSpawns), want), ordered, allocations)
      ensures !raised ==> reservedSpawns == others(SpawnsIn(log) + 1)
      ensures log == Submitted(offline, Allocations(ordered, allocations), accepts)
      ensures !raised ==> SpawnsIn(log) == Sum(PersonalPool.Spawns(ordered, allocations))
      ensures !raised ==> forall x :: x in items ==>
                multiset(log)[Spawn(x.repo)] == PersonalPool.At(allocations, x.repo)
      ensures forall x :: x in items ==>
                x.running + PersonalPool.At(allocations, x.repo) <= Max(x.running, x.busy + x.queued)
      ensures var n := Sum(PersonalPool.Spawns(ordered, allocations));
              && (draining ==> n == 0)
              && TotalRunning(items) + n <= Max(TotalRunning(items), pool.maxRunners)
              && (!draining && TotalRunning(items) + n < pool.maxRunners
                  && (maxTotalRunners <= 0 || running + old(reservedSpawns) + n < maxTotalRunners) ==>
                    forall x :: x in items ==>
                      x.running + PersonalPool.At(allocations, x.repo) >= x.busy + x.queued)
    {
      ordered, allocations := PlanPersonal(pool, items, draining, running);
      AllocationsTotal(ordered, allocations);
      log, raised := RunRunnerOperations(offline, Allocations(ordered, allocations), outcomes, accepts, others);
      SubmittedSpawns(offline, Allocations(ordered, allocations), accepts);
      if !raised { PersonalSpawns(items, ordered, allocations, offline, log); }
    }

    /** Whether a tick of `pool` may scan now; an admitted scan moves the next one back. */
    method Admit(pool: Pool, state: PoolState, now: real) returns (admitted: bool)
      modifies this`nextPollAt
      ensures admitted <==> !state.paused && !TickSchedule.Deferred(old(nextPollAt), pool.key, now)
      ensures nextPollAt == if admitted
                            then TickSchedule.AfterAdmission(old(nextPollAt), pool.key, now, pool.pollInterval)
                            else old(nextPollAt)
      ensures admitted ==> TickSchedule.NextPoll(old(nextPollAt), pool.key) <= now
      ensures !state.paused && now >= 0.0 && pool.key !in old(nextPollAt) ==> admitted
      ensures pool.key in old(nextPollAt) ==> (admitted <==> !state.paused && now >= old(nextPollAt)[pool.key])
      ensures admitted && pool.pollInterval > 0.0 ==>
                TickSchedule.NextPoll(nextPollAt, pool.key) == now + pool.pollInterval
      ensures forall k :: k != pool.key ==>
                TickSchedule.NextPoll(nextPollAt, k) == TickSchedule.NextPoll(old(nextPollAt), k)
    {
      if state.paused {
        return false;
      }
      var next := TickSchedule.NextPoll(nextPollAt, pool.key);
      if now < next {
        return false;
      }
      if pool.pollInterval > 0.0 {
        nextPollAt := nextPollAt[pool.key := now + pool.pollInterval];
      }
      admitted := true;
    }

    /** The scan admitted at `now` raised a rate-limit error; `wallNow` is the wall clock after it. */
    method RateLimited(pool: Pool, now: real, retryAtEpoch: real, wallNow: real)
      modifies this`nextPollAt
      ensures nextPollAt ==
              TickSchedule.AfterRateLimit(old(nextPollAt), pool.key, now, MaxReal(1.0, retryAtEpoch - wallNow))
      ensures TickSchedule.NextPoll(nextPollAt, pool.key) >= TickSchedule.NextPoll(old(nextPollAt), pool.key)
      ensures TickSchedule.NextPoll(nextPollAt, pool.key) >= now + 1.0
      ensures TickSchedule.NextPoll(nextPollAt, pool.key) - now >= retryAtEpoch - wallNow
      ensures forall k :: k != pool.key ==>
                TickSchedule.NextPoll(nextPollAt, k) == TickSchedule.NextPoll(old(nextPollAt), k)
    {
      var retryAfter := MaxReal(1.0, retryAtEpoch - wallNow);
      nextPollAt := nextPollAt[pool.key := MaxReal(TickSchedule.NextPoll(nextPollAt, pool.key), now + retryAfter)];
    }

    /** Repositories of a personal account; `discovered` is what a refresh would bring, None if it fails. */
    method GetPersonalRepositories(key: RepositoryCache.Key, now: real, ttl: nat, discovered: Option<seq<string>>)
      returns (repositories: seq<string>)
      requires Valid()
      modifies this`repositoryCache
      ensures Valid()
      ensures repositories == RepositoryCache.Answer(RepositoryCache.Lookup(old(repositoryCache), key), now, discovered)
      ensures RepositoryCache.Settles(old(repositoryCache), key, RepositoryCache.Lookup(old(repositoryCache), key),
                                      now, ttl, discovered, repositoryCache)
    {
      var cached := RepositoryCache.Lookup(repositoryCache, key);
      if cached.Some? && now < cached.value.expiresAt {
        return cached.value.repositories;
      }
      if discovered.None? {
        return if cached.Some? then cached.value.repositories else [];
      }
      if ttl == 0 {
        RepositoryCache.SizeAfterRemove(repositoryCache, key);
        repositoryCache := repositoryCache - {key};
      } else {
        StoreRepositories(key, RepositoryCache.Entry(discovered.value, now + ttl as real));
      }
      repositories := discovered.value;
    }

    method StoreRepositories(key: RepositoryCache.Key, entry: RepositoryCache.Entry)
      requires Valid()
      modifies this`repositoryCache
      ensures Valid() && RepositoryCache.Stores(old(repositoryCache), key, entry, repositoryCache)
    {
      ghost var before := repositoryCache;
      if key !in repositoryCache && |repositoryCache| >= RepositoryCache.MAX_REPOSITORY_CACHE_ENTRIES {
        var oldest := OldestKey();
        repositoryCache := repositoryCache - {oldest};
      }
      repositoryCache := repositoryCache[key := entry];
      RepositoryCache.StoreStaysBounded(before, key, entry, repositoryCache);
    }

    method OldestKey() returns (oldest: RepositoryCache.Key)
      requires repositoryCache != map[]
      ensures RepositoryCache.IsOldest(repositoryCache, oldest)
    {
      var left := repositoryCache.Keys;
      oldest :| oldest in left;
      left := left - {oldest};
      while left != {}
        invariant left <= repositoryCache.Keys && oldest in repositoryCache
        invariant forall k :: k in repositoryCache && k !in left ==>
                    repositoryCache[oldest].expiresAt <= repositoryCache[k].expiresAt
        decreases left
      {
        var k :| k in left;
        if repositoryCache[k].expiresAt < repositoryCache[oldest].expiresAt {
          oldest := k;
        }
        left := left - {k};
      }
    }
  }

  /** What a tick hands to the executor: all of it, or what was accepted before it raised. */
  function Submitted(deregistrations: seq<string>, allocations: seq<(string, nat)>, accepts: nat): seq<Operation> {
    var all := Interleaved(deregistrations, SpawnJobs(allocations));
    if accepts < |all| then all[..accepts] else all
  }

  /** How many spawns are among the operations submitted. */
  lemma SubmittedSpawns(deregistrations: seq<string>, allocations: seq<(string, nat)>, accepts: nat)
    ensures |Interleaved(deregistrations, SpawnJobs(allocations))| == |deregistrations| + SpawnCount(allocations)
    ensures accepts >= |deregistrations| + SpawnCount(allocations) ==>
              SpawnsIn(Submitted(deregistrations, allocations, accepts)) == SpawnCount(allocations)
    ensures SpawnsIn(Submitted(deregistrations, allocations, accepts)) <= SpawnCount(allocations)
    ensures accepts < |deregistrations| + SpawnCount(allocations) ==>
              (SpawnsIn(Submitted(deregistrations, allocations, accepts)) > 0 <==>
                 SpawnCount(allocations) > 0 && accepts >= if deregistrations == [] then 1 else 2)
  {
    var spawns := SpawnJobs(allocations);
    var all := Interleaved(deregistrations, spawns);
    SpawnJobsCount(allocations);
    InterleavedLength(deregistrations, spawns);
    InterleavedSpawnCount(deregistrations, spawns);
    if accepts < |all| {
      PrefixSpawns(all, accepts);
      SpawnSubmittedIff(deregistrations, spawns, accepts);
    }
  }

  /** What a tick that is not cut short submits. */
  function TickLog(pool: Pool, inspection: Inspection, held: bool, cap: int, running: nat,
                   reserved: int): seq<Operation> {
    var want := if held then 0 else DesiredSpawns(pool, inspection.running, inspection.busy, inspection.queued);
    Interleaved(inspection.offline, SpawnJobs([(pool.key.name, Grant(cap, running, reserved, want) as nat)]))
  }

  /** A tick's spawns are the slots it was granted. */
  lemma TickLogSpawns(pool: Pool, inspection: Inspection, held: bool, cap: int, running: nat, reserved: int)
    ensures SpawnsIn(TickLog(pool, inspection, held, cap, running, reserved))
         == Grant(cap, running, reserved,
                  if held then 0 else DesiredSpawns(pool, inspection.running, inspection.busy, inspection.queued))
  {
    var want := if held then 0 else DesiredSpawns(pool, inspection.running, inspection.busy, inspection.queued);
    var allocations := [(pool.key.name, Grant(cap, running, reserved, want) as nat)];
    SpawnJobsCount(allocations);
    InterleavedSpawnCount(inspection.offline, SpawnJobs(allocations));
    assert allocations[1..] == [];
  }

  lemma {:induction false} AllocationsAt(ordered: seq<PersonalPool.Inspection>, allocations: map<string, nat>, i: nat)
    requires i < |ordered|
    ensures Allocations(ordered, allocations)[i] == (ordered[i].repo, PersonalPool.At(allocations, ordered[i].repo))
  {
    if i > 0 { AllocationsAt(ordered[1..], allocations, i - 1); }
  }

  lemma SpawnsForRepository(ordered: seq<PersonalPool.Inspection>, allocations: map<string, nat>,
                            offline: seq<string>, k: nat)
    requires PersonalPool.DistinctRepos(ordered) && k < |ordered|
    ensures multiset(Interleaved(offline, SpawnJobs(Allocations(ordered, allocations))))[Spawn(ordered[k].repo)]
         == PersonalPool.At(allocations, ordered[k].repo)
  {
    var listed := Allocations(ordered, allocations);
    forall i | 0 <= i < |ordered|
      ensures listed[i] == (ordered[i].repo, PersonalPool.At(allocations, ordered[i].repo))
    {
      AllocationsAt(ordered, allocations, i);
    }
    InterleavedCounts(offline, SpawnJobs(listed), ordered[k].repo);
    SpawnsForEach(listed, k);
  }

  /** A personal tick that is not cut short spawns for each repository what it was allocated. */
  lemma PersonalSpawns(items: seq<PersonalPool.Inspection>, ordered: seq<PersonalPool.Inspection>,
                       allocations: map<string, nat>, offline: seq<string>, log: seq<Operation>)
    requires PersonalPool.DistinctRepos(items) && ordered == Sorted(PersonalPool.BusiestFirst(), items)
    requires log == Interleaved(offline, SpawnJobs(Allocations(ordered, allocations)))
    ensures forall x :: x in items ==> multiset(log)[Spawn(x.repo)] == PersonalPool.At(allocations, x.repo)
  {
    PersonalPool.OrderedKeeps(items);
    forall x | x in items ensures multiset(log)[Spawn(x.repo)] == PersonalPool.At(allocations, x.repo) {
      assert x in ordered;
      var k :| 0 <= k < |ordered| && ordered[k] == x;
      SpawnsForRepository(ordered, allocations, offline, k);
    }
  }

  /** What a grant for the desired spawns means, of which `n` are submitted. */
  lemma DemandMet(pool: Pool, inspection: Inspection, held: bool, cap: int, total: nat, reserved: int, granted: int,
                  n: nat)
    requires granted == Grant(cap, total, reserved, if held then 0 else DesiredSpawns(
                                pool, inspection.running, inspection.busy, inspection.queued))
    requires n <= granted
    ensures held ==> n == 0
    ensures inspection.running + n <= Max(inspection.running, pool.maxRunners)
    ensures n > 0 ==> inspection.running + n <= Max(pool.minIdle, inspection.busy + inspection.queued)
    ensures n == granted && !held && (cap <= 0 || total + reserved + n < cap) ==>
              || inspection.running + n >= pool.maxRunners
              || inspection.running + n >= Max(pool.minIdle, inspection.busy + inspection.queued)
  {
  }

  /** A tick that is not cut short deregisters what is offline, and spawns for its own pool only. */
  lemma SingleTickOperations(pool: Pool, inspection: Inspection, granted: nat, log: seq<Operation>)
    requires log == Interleaved(inspection.offline, SpawnJobs([(pool.key.name, granted)]))
    ensures SpawnsIn(log) == granted
    ensures forall r ::
              && multiset(log)[Deregister(r)] == multiset(inspection.offline)[r]
              && multiset(log)[Spawn(r)] == if r == pool.key.name then SpawnsIn(log) else 0
  {
    var allocations := [(pool.key.name, granted)];
    SpawnJobsCount(allocations);
    InterleavedSpawnCount(inspection.offline, SpawnJobs(allocations));
    assert allocations[1..] == [];
    forall r
      ensures multiset(log)[Deregister(r)] == multiset(inspection.offline)[r]
      ensures multiset(log)[Spawn(r)] == if r == pool.key.name then granted else 0
    {
      InterleavedCounts(inspection.offline, SpawnJobs(allocations), r);
      if r == pool.key.name { SpawnsForEach(allocations, 0); } else { NoSpawnsFor(allocations, r); }
    }
  }

  lemma {:induction false} NeedsTotalNonNegative(xs: seq<int>)
    requires forall i :: 0 <= i < |xs| ==> xs[i] >= 0
    ensures Sum(xs) >= 0
  {
    if xs != [] { NeedsTotalNonNegative(xs[1..]); }
  }
}
