/** Per-token blocking and the request semaphore of the GitHub client. */
module CircuitBreaker {
  import opened Common

  const SECONDARY_RATE_LIMIT_BASE_SECONDS := 60
  const SECONDARY_RATE_LIMIT_MAX_SECONDS := 900
  const MUTATION_DELAY_SECONDS := 1.0

  function BlockedUntil(blocked: map<string, real>, token: string): real {
    if token in blocked then blocked[token] else 0.0
  }

  function Block(blocked: map<string, real>, token: string, retryAt: real): map<string, real> {
    blocked[token := MaxReal(BlockedUntil(blocked, token), retryAt)]
  }

  function Pow2(n: nat): nat { if n == 0 then 1 else 2 * Pow2(n - 1) }

  /** Back-off after `failures` consecutive secondary rate limits. */
  function Backoff(failures: nat): nat
    requires failures > 0
  {
    Min(SECONDARY_RATE_LIMIT_BASE_SECONDS * Pow2(failures - 1), SECONDARY_RATE_LIMIT_MAX_SECONDS)
  }

  function Failures(counts: map<string, nat>, token: string): nat { if token in counts then counts[token] else 0 }

  /** The rate-limit headers of a response that parse as integers. */
  datatype Headers = Headers(remaining: Option<int>, resetAt: Option<int>, retryAfter: Option<int>)

  predicate IsSecondary(h: Headers) { h.retryAfter.None? && !(h.remaining == Some(0) && h.resetAt.Some?) }

  function RetryAt(now: real, failures: nat, h: Headers): real {
    if h.retryAfter.Some? then now + h.retryAfter.value as real
    else if h.remaining == Some(0) && h.resetAt.Some? then (h.resetAt.value + 1) as real
    else now + Backoff(failures + 1) as real
  }

  /** A successful response that leaves the budget at or under the reserve blocks its token too. */
  predicate ReserveReached(h: Headers, reserve: int, now: real) {
    && h.remaining.Some? && h.remaining.value <= reserve
    && h.resetAt.Some? && h.resetAt.value as real > now
  }

  datatype Outcome = Answered(headers: Headers) | RateLimited(headers: Headers) | Broken

  /** The block times and failure counts once a token's request has ended this way. */
  function Blocks(blocked: map<string, real>, failures: map<string, nat>, token: string, reserve: int, now: real,
                  o: Outcome)
    : map<string, real>
  {
    match o
    case Answered(h) =>
      if ReserveReached(h, reserve, now) then Block(blocked, token, (h.resetAt.value + 1) as real) else blocked
    case RateLimited(h) => Block(blocked, token, RetryAt(now, Failures(failures, token), h))
    case Broken => blocked
  }

  function Counts(failures: map<string, nat>, token: string, reserve: int, now: real, o: Outcome): map<string, nat> {
    match o
    case Answered(h) => if ReserveReached(h, reserve, now) then failures else failures - {token}
    case RateLimited(h) => if IsSecondary(h) then failures[token := Failures(failures, token) + 1] else failures
    case Broken => failures
  }

  datatype Stage = Checked | Holding | Sent

  datatype Request = Request(token: string, stage: Stage)

  datatype World = World(
    now: real,
    bound: nat,                    // semaphore size
    reserve: int,
    blocked: map<string, real>,    // _blocked_until
    failures: map<string, nat>,    // _secondary_failures
    requests: map<nat, Request>,   // past the check, not completed
    slots: set<nat>,               // semaphore slots held
    sent: seq<string>)             // history: token of every request put on the wire

  datatype Action =
    | Pass(to: real)
    | Check(id: nat, token: string)
    | Acquire(id: nat)
    | Send(id: nat)
    | Complete(id: nat, outcome: Outcome)

  ghost predicate Step(w: World, a: Action, v: World) {
    match a
    case Pass(to) => to >= w.now && v == w.(now := to)
    case Check(id, token) =>
      && id !in w.requests
      && if BlockedUntil(w.blocked, token) <= w.now
         then v == w.(blocked := w.blocked - {token}, requests := w.requests[id := Request(token, Checked)])
         else v == w
    case Acquire(id) =>
      && id in w.requests && w.requests[id].stage.Checked? && |w.slots| < w.bound
      && v == w.(slots := w.slots + {id}, requests := w.requests[id := w.requests[id].(stage := Holding)])
    case Send(id) =>
      && id in w.requests && w.requests[id].stage.Holding?
      && v == w.(sent := w.sent + [w.requests[id].token], requests := w.requests[id := w.requests[id].(stage := Sent)])
    case Complete(id, outcome) =>
      && id in w.requests && w.requests[id].stage.Sent?
      && var token := w.requests[id].token;
         v == w.(requests := w.requests - {id}, slots := w.slots - {id},
                 blocked := Blocks(w.blocked, w.failures, token, w.reserve, w.now, outcome),
                 failures := Counts(w.failures, token, w.reserve, w.now, outcome))
  }

  ghost predicate Steps(worlds: seq<World>, actions: seq<Action>) {
    && |worlds| == |actions| + 1
    && forall i :: 0 <= i < |actions| ==> Step(worlds[i], actions[i], worlds[i + 1])
  }

  /** Requests for `token` that passed the check and are not on the wire yet. */
  ghost function Ready(w: World, token: string): set<nat> {
    set id | id in w.requests && w.requests[id].token == token && !w.requests[id].stage.Sent?
  }

  function SentFor(sent: seq<string>, token: string): nat {
    if sent == [] then 0 else SentFor(sent[..|sent| - 1], token) + if sent[|sent| - 1] == token then 1 else 0
  }

  /** An unexpired block never moves back. */
  lemma BlockHolds(w: World, a: Action, v: World, token: string)
    requires Step(w, a, v) && BlockedUntil(w.blocked, token) > w.now
    ensures BlockedUntil(v.blocked, token) >= BlockedUntil(w.blocked, token)
    ensures v.now >= w.now
  {
  }

  lemma ReadyOnlyShrinks(w: World, a: Action, v: World, token: string, id: nat)
    requires Step(w, a, v) && BlockedUntil(w.blocked, token) > w.now
    ensures id in Ready(v, token) ==> id in Ready(w, token)
    ensures a.Send? ==> a.id !in Ready(v, token)
    ensures v.sent == if a.Send? then w.sent + [w.requests[a.id].token] else w.sent
  {
  }

  lemma Fewer(small: set<nat>, large: set<nat>)
    requires small <= large
    ensures |small| <= |large|
  {
    assert large == small + (large - small);
  }

  /** While a token is blocked nothing new gets ready, and each send uses up one ready request. */
  lemma BlockedStepUsesReady(w: World, a: Action, v: World, token: string)
    requires Step(w, a, v) && BlockedUntil(w.blocked, token) > w.now
    ensures SentFor(v.sent, token) + |Ready(v, token)| <= SentFor(w.sent, token) + |Ready(w, token)|
  {
    var before, after := Ready(w, token), Ready(v, token);
    forall id | id in after ensures id in before { ReadyOnlyShrinks(w, a, v, token, id); }
    ReadyOnlyShrinks(w, a, v, token, 0);
    if a.Send? && w.requests[a.id].token == token {
      Fewer(after, before - {a.id});
      assert v.sent[..|v.sent| - 1] == w.sent;
    } else {
      Fewer(after, before);
      if a.Send? { assert v.sent[..|v.sent| - 1] == w.sent; }
    }
  }

  /** Between a block and its expiry, a token's requests on the wire are at most those that had
      already passed the check when the block was set. */
  lemma {:induction false} BlockStopsRequests(worlds: seq<World>, actions: seq<Action>, i: nat, j: nat, token: string)
    requires Steps(worlds, actions) && i <= j < |worlds|
    requires worlds[j].now < BlockedUntil(worlds[i].blocked, token)
    ensures worlds[i].now <= worlds[j].now
    ensures BlockedUntil(worlds[j].blocked, token) >= BlockedUntil(worlds[i].blocked, token)
    ensures SentFor(worlds[j].sent, token) + |Ready(worlds[j], token)| <=
              SentFor(worlds[i].sent, token) + |Ready(worlds[i], token)|
    decreases j - i
  {
    if i < j {
      assert Step(worlds[j - 1], actions[j - 1], worlds[j]);
      assert worlds[j - 1].now <= worlds[j].now;
      BlockStopsRequests(worlds, actions, i, j - 1, token);
      BlockHolds(worlds[j - 1], actions[j - 1], worlds[j], token);
      BlockedStepUsesReady(worlds[j - 1], actions[j - 1], worlds[j], token);
    }
  }

  ghost predicate Bounded(w: World) {
    && |w.slots| <= w.bound
    && forall id :: id in w.requests && !w.requests[id].stage.Checked? ==> id in w.slots
  }

  ghost function OnTheWire(w: World): set<nat> { set id | id in w.requests && w.requests[id].stage.Sent? }

  lemma StepKeepsBound(w: World, a: Action, v: World)
    requires Step(w, a, v) && Bounded(w)
    ensures Bounded(v) && v.bound == w.bound
  {
    if a.Complete? {
      assert |w.slots - {a.id}| <= |w.slots| by { assert w.slots == (w.slots - {a.id}) + (w.slots * {a.id}); }
    }
  }

  /** Requests in flight never exceed the semaphore's size. */
  lemma {:induction false} InFlightIsBounded(worlds: seq<World>, actions: seq<Action>, i: nat)
    requires Steps(worlds, actions) && i < |worlds|
    requires worlds[0].requests == map[] && worlds[0].slots == {}
    ensures Bounded(worlds[i]) && worlds[i].bound == worlds[0].bound
    ensures |OnTheWire(worlds[i])| <= worlds[0].bound
  {
    if i > 0 {
      InFlightIsBounded(worlds, actions, i - 1);
      StepKeepsBound(worlds[i - 1], actions[i - 1], worlds[i]);
    }
    var sent := OnTheWire(worlds[i]);
    assert sent <= worlds[i].slots;
    assert worlds[i].slots == sent + (worlds[i].slots - sent);
  }

  // ------------------------------------------------------------ back-off and pacing

  lemma {:induction false} Pow2Grows(m: nat, n: nat)
    requires m <= n
    ensures 1 <= Pow2(m) <= Pow2(n)
  {
    if n > 0 && m < n { Pow2Grows(m, n - 1); }
    if m == n && n > 0 { Pow2Grows(m - 1, n - 1); }
  }

  /** Back-off never shrinks as failures repeat; it starts at a minute and stops at fifteen. */
  lemma BackoffIsMonotone(m: nat, n: nat)
    requires 0 < m <= n
    ensures SECONDARY_RATE_LIMIT_BASE_SECONDS <= Backoff(m) <= Backoff(n) <= SECONDARY_RATE_LIMIT_MAX_SECONDS
    ensures n >= 5 ==> Backoff(n) == SECONDARY_RATE_LIMIT_MAX_SECONDS
  {
    Pow2Grows(m - 1, n - 1);
    Pow2Grows(0, m - 1);
    if n >= 5 {
      Pow2Grows(4, n - 1);
      assert Pow2(4) == 16;
    }
  }

  /** It starts at a minute and doubles until it stops at fifteen. */
  lemma BackoffDoubles(n: nat)
    requires n > 0
    ensures Backoff(1) == 60
    ensures Backoff(n + 1) == if 2 * Backoff(n) <= 900 then 2 * Backoff(n) else 900
  {
    assert Pow2(0) == 1;
    assert Pow2(n) == 2 * Pow2(n - 1);
  }

  /** A mutation gate: the clock is read, any missing delay is slept, and the clock is read again. */
  predicate Paced(last: real, before: real, gate: real) {
    gate >= before + MaxReal(0.0, MUTATION_DELAY_SECONDS - (before - last))
  }

  /** Any two mutations are at least a second apart for every gate between them. */
  lemma {:induction false} MutationsAreApart(gates: seq<real>, readings: seq<real>, i: nat, j: nat)
    requires |readings| == |gates| && i <= j < |gates|
    requires forall k :: 0 < k < |gates| ==> Paced(gates[k - 1], readings[k], gates[k])
    ensures gates[j] >= gates[i] + (j - i) as real * MUTATION_DELAY_SECONDS
    decreases j - i
  {
    if i < j {
      MutationsAreApart(gates, readings, i, j - 1);
      assert Paced(gates[j - 1], readings[j], gates[j]);
    }
  }
}
