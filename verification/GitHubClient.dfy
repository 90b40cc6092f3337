/** The state the GitHub client keeps behind its state lock, one method per lock section. */
module GitHubClient {
  import opened Common
  import B = CircuitBreaker
  import C = ConditionalCache
  import S = SharedScan

  datatype Verb = Get | Delete

  /** What one HTTP exchange brought back; a body that is not JSON is None. */
  datatype Response =
    | Success(headers: B.Headers, noContent: bool, etag: string, body: Option<string>)
    | HttpError(code: int, headers: B.Headers, saysZeroRemaining: bool, saysRetryAfter: bool, mentionsRateLimit: bool)
    | Unreachable

  datatype Result = Data(body: string) | Deleted(ok: bool) | Nothing | Raised(retryAt: real)

  predicate IsRateLimitError(r: Response)
    requires r.HttpError?
  {
    r.code == 429 || r.saysZeroRemaining || r.mentionsRateLimit || r.saysRetryAfter
  }

  /** A 304 for which an entry was read when the request began. */
  predicate Revalidates(r: Response, cached: Option<C.Entry>) { r.HttpError? && r.code == 304 && cached.Some? }

  function Outcome(r: Response, cached: Option<C.Entry>): B.Outcome {
    if r.Success? || Revalidates(r, cached) then B.Answered(r.headers)
    else if r.HttpError? && IsRateLimitError(r) then B.RateLimited(r.headers)
    else B.Broken
  }

  /** The request ends with an exception that says when to try again. */
  predicate Raises(r: Response, cached: Option<C.Entry>, reserve: int, now: real) {
    match Outcome(r, cached)
    case Answered(h) => B.ReserveReached(h, reserve, now)
    case RateLimited(_) => true
    case Broken => false
  }

  /** `latest` bounds every block, and is one of them until it has expired. */
  ghost predicate LatestBlock(blocked: map<string, real>, latest: real, clock: real) {
    && (forall t :: t in blocked ==> blocked[t] <= latest)
    && (latest <= clock || exists t :: t in blocked && blocked[t] == latest)
  }

  class Client {
    const reserve: int
    var blockedUntil: map<string, real>
    var blockedUntilAny: real
    var secondaryFailures: map<string, nat>
    var conditionalCache: C.Cache
    var sharedScans: map<string, S.Kept>
    var sharedScanLocks: map<string, nat>
    var lastMutationAt: real
    ghost var clock: real  // the latest time any lock section has read

    ghost predicate Valid()
      reads this
    {
      && C.KeysDistinct(conditionalCache) && |conditionalCache| <= C.MAX_CONDITIONAL_CACHE_ENTRIES
      && 0.0 <= clock && 0.0 <= blockedUntilAny
      && LatestBlock(blockedUntil, blockedUntilAny, clock)
    }

    constructor (reserve: int)
      ensures Valid() && this.reserve == reserve
      ensures blockedUntil == map[] && secondaryFailures == map[] && conditionalCache == []
      ensures sharedScans == map[] && sharedScanLocks == map[]
    {
      this.reserve := reserve;
      blockedUntil, blockedUntilAny, secondaryFailures := map[], 0.0, map[];
      conditionalCache, sharedScans, sharedScanLocks := [], map[], map[];
      lastMutationAt, clock := 0.0, 0.0;
    }

    /** The check before a request, with the entry it will send a validator for. */
    method Begin(token: string, path: string, verb: Verb, now: real)
      returns (blocked: Option<real>, cached: Option<C.Entry>)
      requires Valid() && now >= clock
      modifies `blockedUntil, `clock
      ensures Valid() && clock == now
      ensures blocked.Some? <==> B.BlockedUntil(old(blockedUntil), token) > now
      ensures blocked.Some? ==>
                && blocked.value == B.BlockedUntil(old(blockedUntil), token)
                && blockedUntil == old(blockedUntil) && cached.None?
      ensures blocked.None? ==>
                && blockedUntil == old(blockedUntil) - {token}
                && cached == if verb.Get? then C.Find(conditionalCache, C.Key(token, path)) else None
    {
      clock := now;
      var until := if token in blockedUntil then blockedUntil[token] else 0.0;
      if until > now {
        return Some(until), None;
      }
      blockedUntil := blockedUntil - {token};
      ghost var was := old(blockedUntil);
      if blockedUntilAny > now {
        ghost var t :| t in was && was[t] == blockedUntilAny;
        assert t in blockedUntil;
      }
      cached := if verb.Get? then C.Find(conditionalCache, C.Key(token, path)) else None;
      blocked := None;
    }

    method BlockToken(token: string, retryAt: real)
      requires Valid()
      modifies `blockedUntil, `blockedUntilAny
      ensures Valid()
      ensures blockedUntil == B.Block(old(blockedUntil), token, retryAt)
      ensures blockedUntilAny == MaxReal(old(blockedUntilAny), retryAt)
    {
      var previous := if token in blockedUntil then blockedUntil[token] else 0.0;
      blockedUntil := blockedUntil[token := MaxReal(previous, retryAt)];
      blockedUntilAny := MaxReal(blockedUntilAny, retryAt);
      ghost var was := old(blockedUntil);
      if old(blockedUntilAny) > clock && old(blockedUntilAny) >= retryAt {
        ghost var t :| t in was && was[t] == old(blockedUntilAny);
        assert t in blockedUntil && blockedUntil[t] == blockedUntilAny;
      } else if retryAt > old(blockedUntilAny) {
        assert token in blockedUntil && blockedUntil[token] == blockedUntilAny;
      }
    }

    /** Raises when the answer leaves the budget at or under the reserve. */
    method UpdateRateLimit(token: string, h: B.Headers, now: real) returns (raised: Option<real>)
      requires Valid()
      modifies `blockedUntil, `blockedUntilAny
      ensures Valid()
      ensures raised.Some? <==> B.ReserveReached(h, reserve, now)
      ensures raised.Some? <==> h.remaining.Some? && h.remaining.value <= reserve
                                && h.resetAt.Some? && h.resetAt.value as real > now
      ensures blockedUntil == B.Blocks(old(blockedUntil), secondaryFailures, token, reserve, now, B.Answered(h))
      ensures raised.Some? ==> raised.value == (h.resetAt.value + 1) as real
    {
      if h.remaining.Some? && h.remaining.value <= reserve && h.resetAt.Some? && h.resetAt.value as real > now {
        var retryAt := (h.resetAt.value + 1) as real;
        BlockToken(token, retryAt);
        return Some(retryAt);
      }
      raised := None;
    }

    method RateLimitRetry(token: string, h: B.Headers, now: real) returns (retryAt: real)
      requires Valid()
      modifies `secondaryFailures
      ensures Valid()
      ensures retryAt == B.RetryAt(now, B.Failures(old(secondaryFailures), token), h)
      ensures secondaryFailures == B.Counts(old(secondaryFailures), token, reserve, now, B.RateLimited(h))
      ensures h.retryAfter.Some? ==> retryAt == now + h.retryAfter.value as real
      ensures h.retryAfter.None? && h.remaining == Some(0) && h.resetAt.Some? ==>
                retryAt == h.resetAt.value as real + 1.0
      ensures B.IsSecondary(h) <==> h.retryAfter.None? && !(h.remaining == Some(0) && h.resetAt.Some?)
      ensures B.IsSecondary(h) ==>
        && B.Failures(secondaryFailures, token) == B.Failures(old(secondaryFailures), token) + 1
        && now + B.SECONDARY_RATE_LIMIT_BASE_SECONDS as real <= retryAt
        && retryAt <= now + B.SECONDARY_RATE_LIMIT_MAX_SECONDS as real
      ensures !B.IsSecondary(h) ==> secondaryFailures == old(secondaryFailures)
      ensures forall t :: t != token ==> B.Failures(secondaryFailures, t) == B.Failures(old(secondaryFailures), t)
    {
      if h.retryAfter.Some? {
        return now + h.retryAfter.value as real;
      }
      if h.remaining == Some(0) && h.resetAt.Some? {
        return (h.resetAt.value + 1) as real;
      }
      var failures := (if token in secondaryFailures then secondaryFailures[token] else 0) + 1;
      secondaryFailures := secondaryFailures[token := failures];
      B.BackoffIsMonotone(failures, failures);
      retryAt := now + B.Backoff(failures) as real;
    }

    /** Pops the oldest entries until the cache is within its bound. */
    method EvictOldest()
      modifies `conditionalCache
      ensures conditionalCache == C.Newest(old(conditionalCache), C.MAX_CONDITIONAL_CACHE_ENTRIES)
    {
      ghost var all, max := conditionalCache, C.MAX_CONDITIONAL_CACHE_ENTRIES;
      while |conditionalCache| > C.MAX_CONDITIONAL_CACHE_ENTRIES
        invariant |conditionalCache| <= |all| && conditionalCache == all[|all| - |conditionalCache|..]
        invariant |conditionalCache| >= Min(|all|, max)
        decreases |conditionalCache|
      {
        conditionalCache := conditionalCache[1..];
      }
    }

    method CacheConditionalResponse(key: C.Key, etag: string, data: string)
      requires Valid()
      modifies `conditionalCache
      ensures Valid()
      ensures conditionalCache == C.Store(old(conditionalCache), key, etag, data)
    {
      if etag == "" {
        C.DropKeeps(conditionalCache, key);
        conditionalCache := C.Drop(conditionalCache, key);
        return;
      }
      C.StoreIsBounded(conditionalCache, key, etag, data);
      conditionalCache := C.Drop(conditionalCache, key) + [(key, C.Entry(etag, data))];
      EvictOldest();
    }

    method Revalidate(key: C.Key)
      requires Valid()
      modifies `conditionalCache
      ensures Valid()
      ensures conditionalCache == C.Touch(old(conditionalCache), key)
    {
      var entry := C.Find(conditionalCache, key);
      if entry.Some? {
        C.ReplaceKeeps(conditionalCache, key, entry.value);
        conditionalCache := C.Drop(conditionalCache, key) + [(key, entry.value)];
      }
    }

    /** The lock section after a success or a 304. */
    method Accept(token: string, path: string, verb: Verb, cached: Option<C.Entry>, r: Response, now: real)
      returns (result: Result)
      requires Valid() && (r.Success? || Revalidates(r, cached))
      modifies `blockedUntil, `blockedUntilAny, `secondaryFailures, `conditionalCache
      ensures Valid()
      ensures blockedUntil == B.Blocks(old(blockedUntil), old(secondaryFailures), token, reserve, now,
                                       B.Answered(r.headers))
      ensures secondaryFailures == B.Counts(old(secondaryFailures), token, reserve, now, B.Answered(r.headers))
      ensures result == if B.ReserveReached(r.headers, reserve, now) then Raised((r.headers.resetAt.value + 1) as real)
                        else if r.HttpError? then Data(cached.value.data)
                        else if verb.Delete? then Deleted(r.noContent)
                        else if r.body.None? then Nothing
                        else Data(r.body.value)
      ensures conditionalCache ==
                if result.Data? && r.Success?
                then C.Store(old(conditionalCache), C.Key(token, path), r.etag, r.body.value)
                else if result.Data? then C.Touch(old(conditionalCache), C.Key(token, path))
                else old(conditionalCache)
    {
      var raised := UpdateRateLimit(token, r.headers, now);
      if raised.Some? {
        return Raised(raised.value);
      }
      secondaryFailures := secondaryFailures - {token};
      if r.HttpError? {
        Revalidate(C.Key(token, path));
        return Data(cached.value.data);
      }
      if verb.Delete? {
        return Deleted(r.noContent);
      }
      if r.body.None? {
        return Nothing;
      }
      CacheConditionalResponse(C.Key(token, path), r.etag, r.body.value);
      result := Data(r.body.value);
    }

    /** Everything after the network: block times and failure counts follow the circuit breaker, the
        cache follows the answer, and only a complete answer reaches either the cache or the caller. */
    method Finish(token: string, path: string, verb: Verb, cached: Option<C.Entry>, r: Response, now: real)
      returns (result: Result)
      requires Valid() && now >= clock
      modifies `blockedUntil, `blockedUntilAny, `secondaryFailures, `conditionalCache, `clock
      ensures Valid() && clock == now
      ensures blockedUntil == B.Blocks(old(blockedUntil), old(secondaryFailures), token, reserve, now,
                                       Outcome(r, cached))
      ensures secondaryFailures == B.Counts(old(secondaryFailures), token, reserve, now, Outcome(r, cached))
      ensures result.Raised? <==> Raises(r, cached, reserve, now)
      ensures result.Raised? ==> result.retryAt <= B.BlockedUntil(blockedUntil, token)
      ensures r.HttpError? && !(r.code == 304 && cached.Some?) ==>
                (result.Raised? <==> r.code == 429 || r.saysZeroRemaining || r.saysRetryAfter || r.mentionsRateLimit)
      ensures r.Success? || (r.HttpError? && r.code == 304 && cached.Some?) ==>
                (result.Raised? <==> && r.headers.remaining.Some? && r.headers.remaining.value <= reserve
                                     && r.headers.resetAt.Some? && r.headers.resetAt.value as real > now)
      ensures r.Unreachable? ==> result.Nothing?
      ensures forall t :: t != token ==>
                && B.BlockedUntil(blockedUntil, t) == B.BlockedUntil(old(blockedUntil), t)
                && B.Failures(secondaryFailures, t) == B.Failures(old(secondaryFailures), t)
      ensures result.Data? <==> !result.Raised? && (Revalidates(r, cached) || (r.Success? && verb.Get? && r.body.Some?))
      ensures result.Data? ==> result.body == if r.Success? then r.body.value else cached.value.data
      ensures result.Deleted? <==> !result.Raised? && r.Success? && verb.Delete?
      ensures result.Deleted? ==> result.ok == r.noContent
      ensures conditionalCache ==
                if result.Data? && r.Success?
                then C.Store(old(conditionalCache), C.Key(token, path), r.etag, r.body.value)
                else if result.Data? then C.Touch(old(conditionalCache), C.Key(token, path))
                else old(conditionalCache)
    {
      clock := now;
      if r.Unreachable? {
        return Nothing;
      }
      if r.Success? || (r.code == 304 && cached.Some?) {
        result := Accept(token, path, verb, cached, r, now);
        return;
      }
      if IsRateLimitError(r) {
        var retryAt := RateLimitRetry(token, r.headers, now);
        BlockToken(token, retryAt);
        return Raised(retryAt);
      }
      result := Nothing;
    }

    /** Mutations wait out the rest of a second since the last gate; `wake` is the clock after the sleep. */
    method PaceMutation(before: real, wake: real) returns (slept: real)
      requires B.Paced(lastMutationAt, before, wake)
      modifies `lastMutationAt
      ensures lastMutationAt >= old(lastMutationAt) + B.MUTATION_DELAY_SECONDS && lastMutationAt >= before + slept
      ensures slept >= 0.0 && (before >= old(lastMutationAt) ==> slept <= B.MUTATION_DELAY_SECONDS)
      ensures slept > 0.0 <==> before < old(lastMutationAt) + B.MUTATION_DELAY_SECONDS
    {
      var delay := B.MUTATION_DELAY_SECONDS - (before - lastMutationAt);
      slept := 0.0;
      if delay > 0.0 {
        slept := delay;
      }
      lastMutationAt := wake;
    }

    /** The cooldown on the dashboard: shown exactly while some token is blocked, as the latest end. */
    method CooldownUntil(now: real) returns (until: real)
      requires Valid() && now >= clock
      ensures until > 0.0 <==> exists t :: t in blockedUntil && blockedUntil[t] > now
      ensures until > 0.0 ==>
        && (exists t :: t in blockedUntil && blockedUntil[t] == until)
        && (forall t :: t in blockedUntil ==> blockedUntil[t] <= until)
    {
      until := if blockedUntilAny > now then blockedUntilAny else 0.0;
    }

    /** One caller with no other in between: a recent scan is reused, else `fetched` is what GitHub
        answers; failures are not kept. `lock` is the object a first caller makes for the key. */
    method GetShared(key: string, lock: nat, now: real, fetched: Option<string>, fetchedAt: real)
      returns (data: Option<string>)
      modifies `sharedScans, `sharedScanLocks
      ensures data == if S.IsHit(old(sharedScans), key, now) then Some(old(sharedScans)[key].data) else fetched
      ensures sharedScans ==
                if S.IsHit(old(sharedScans), key, now) || fetched.None? then old(sharedScans)
                else S.AfterKeep(old(sharedScans), key, S.Kept(now, fetched.value, fetchedAt))
      ensures var had := old(sharedScanLocks);
              var locks := if key in had then had else had[key := lock];
              sharedScanLocks ==
                if S.IsHit(old(sharedScans), key, now) || fetched.None? then locks
                else locks - S.Dropped(old(sharedScans), key, S.Kept(now, fetched.value, fetchedAt))
    {
      if key !in sharedScanLocks {
        sharedScanLocks := sharedScanLocks[key := lock];
      }
      if key in sharedScans && now - sharedScans[key].at < S.SHARED_SCAN_SECONDS {
        return Some(sharedScans[key].data);
      }
      data := fetched;
      if data.Some? {
        KeepScan(key, S.Kept(now, data.value, fetchedAt));
      }
    }

    /** Keeps a fetched scan; past 512 entries the expired ones go, with their locks. */
    method KeepScan(key: string, kept: S.Kept)
      modifies `sharedScans, `sharedScanLocks
      ensures sharedScans == S.AfterKeep(old(sharedScans), key, kept)
      ensures sharedScanLocks == old(sharedScanLocks) - S.Dropped(old(sharedScans), key, kept)
    {
      sharedScans := sharedScans[key := kept];
      if |sharedScans| > S.MAX_SHARED_SCAN_ENTRIES {
        DropStaleScans(kept.at);
      }
    }

    method DropStaleScans(at: real)
      modifies `sharedScans, `sharedScanLocks
      ensures sharedScans == old(sharedScans) - S.Stale(old(sharedScans), at)
      ensures sharedScanLocks == old(sharedScanLocks) - S.Stale(old(sharedScans), at)
    {
      var stale := set k | k in sharedScans && at - sharedScans[k].at >= S.SHARED_SCAN_SECONDS;
      ghost var all := stale;
      while stale != {}
        invariant stale <= all
        invariant sharedScans == old(sharedScans) - (all - stale)
        invariant sharedScanLocks == old(sharedScanLocks) - (all - stale)
        decreases |stale|
      {
        var key :| key in stale;
        sharedScans, sharedScanLocks := sharedScans - {key}, sharedScanLocks - {key};
        stale := stale - {key};
      }
    }
  }
}
