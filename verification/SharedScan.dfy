/** One scan response shared by all pools of a repository: freshness and single flight. */
module SharedScan {
  import opened Common

  const SHARED_SCAN_SECONDS := 10.0
  const MAX_SHARED_SCAN_ENTRIES := 512

  /** A kept response, with the time recorded for it and (history) the time it was really fetched. */
  datatype Kept = Kept(at: real, data: string, fetchedAt: real)

  datatype Phase =
    | Waiting                                                    // has its lock object, does not hold it
    | Holding
    | Timed(at: real)
    | Fetching(at: real)
    | Fetched(at: real, data: Option<string>, fetchedAt: real)

  datatype Thread = Thread(key: string, lock: nat, phase: Phase)

  /** History: a response answered from memory by a reader whose clock said `readAt`. */
  datatype Reuse = Reuse(key: string, readAt: real, kept: Kept)

  datatype World = World(
    now: real,
    locks: map<string, nat>,      // _shared_scan_locks: key to lock object
    issued: seq<string>,          // history: the key each lock object was made for
    held: map<nat, nat>,          // lock object to the thread holding it
    scans: map<string, Kept>,     // _shared_scans
    threads: map<nat, Thread>,    // callers inside _get_shared
    reuses: seq<Reuse>)

  datatype Action =
    | Pass(to: real)
    | Enter(t: nat, key: string)
    | Acquire(t: nat)
    | ReadClock(t: nat)
    | Look(t: nat)
    | Reply(t: nat, data: Option<string>)
    | Keep(t: nat)

  predicate IsHit(scans: map<string, Kept>, key: string, at: real) {
    key in scans && at - scans[key].at < SHARED_SCAN_SECONDS
  }

  function Stale(scans: map<string, Kept>, at: real): set<string> {
    set k | k in scans && at - scans[k].at >= SHARED_SCAN_SECONDS
  }

  /** The memory once a response has been kept at `at`. */
  function AfterKeep(scans: map<string, Kept>, key: string, kept: Kept): map<string, Kept> {
    var stored := scans[key := kept];
    stored - Dropped(scans, key, kept)
  }

  /** The keys `_drop_stale_scans` forgets when this response is kept; their locks go with them. */
  function Dropped(scans: map<string, Kept>, key: string, kept: Kept): set<string> {
    if |scans[key := kept]| > MAX_SHARED_SCAN_ENTRIES then Stale(scans[key := kept], kept.at) else {}
  }

  function Leave(w: World, t: nat): World
    requires t in w.threads
  {
    w.(threads := w.threads - {t}, held := w.held - {w.threads[t].lock})
  }

  function SetPhase(w: World, t: nat, phase: Phase): World
    requires t in w.threads
  {
    w.(threads := w.threads[t := w.threads[t].(phase := phase)])
  }

  function KeptBy(thread: Thread): Kept
    requires thread.phase.Fetched? && thread.phase.data.Some?
  {
    Kept(thread.phase.at, thread.phase.data.value, thread.phase.fetchedAt)
  }

  /** The keys a caller with its answer forgets, scan and lock; a failure is not kept and drops none. */
  function DroppedBy(scans: map<string, Kept>, thread: Thread): set<string> {
    if thread.phase.Fetched? && thread.phase.data.Some? then Dropped(scans, thread.key, KeptBy(thread)) else {}
  }

  function ScansAfter(scans: map<string, Kept>, thread: Thread): map<string, Kept>
    requires thread.phase.Fetched?
  {
    if thread.phase.data.Some? then AfterKeep(scans, thread.key, KeptBy(thread)) else scans
  }

  /** The world once caller `t` has its answer and leaves. */
  function Settled(w: World, t: nat): World
    requires t in w.threads && w.threads[t].phase.Fetched?
  {
    Leave(w, t).(scans := ScansAfter(w.scans, w.threads[t]), locks := w.locks - DroppedBy(w.scans, w.threads[t]))
  }

  ghost predicate Step(w: World, a: Action, v: World) {
    match a
    case Pass(to) => to >= w.now && v == w.(now := to)
    case Enter(t, key) =>
      && t !in w.threads
      && if key in w.locks then v == w.(threads := w.threads[t := Thread(key, w.locks[key], Waiting)])
         else v == w.(threads := w.threads[t := Thread(key, |w.issued|, Waiting)],
                      locks := w.locks[key := |w.issued|], issued := w.issued + [key])
    case Acquire(t) =>
      && t in w.threads && w.threads[t].phase.Waiting? && w.threads[t].lock !in w.held
      && v == SetPhase(w, t, Holding).(held := w.held[w.threads[t].lock := t])
    case ReadClock(t) =>
      t in w.threads && w.threads[t].phase.Holding? && v == SetPhase(w, t, Timed(w.now))
    case Look(t) =>
      && t in w.threads && w.threads[t].phase.Timed?
      && var key, at := w.threads[t].key, w.threads[t].phase.at;
         if IsHit(w.scans, key, at)
         then v == Leave(w, t).(reuses := w.reuses + [Reuse(key, at, w.scans[key])])
         else v == SetPhase(w, t, Fetching(at))
    case Reply(t, data) =>
      && t in w.threads && w.threads[t].phase.Fetching?
      && v == SetPhase(w, t, Fetched(w.threads[t].phase.at, data, w.now))
    case Keep(t) =>
      && t in w.threads && w.threads[t].phase.Fetched?
      && v == Settled(w, t)
  }

  ghost predicate Init(w: World) {
    w.locks == map[] && w.held == map[] && w.scans == map[] && w.threads == map[] && w.issued == [] && w.reuses == []
  }

  ghost predicate Steps(worlds: seq<World>, actions: seq<Action>) {
    && |worlds| == |actions| + 1
    && forall i :: 0 <= i < |actions| ==> Step(worlds[i], actions[i], worlds[i + 1])
  }

  ghost predicate Run(worlds: seq<World>, actions: seq<Action>) { Steps(worlds, actions) && Init(worlds[0]) }

  // ------------------------------------------------------------ freshness

  ghost predicate TimesSound(w: World) {
    && (forall k :: k in w.scans ==> w.scans[k].at <= w.scans[k].fetchedAt <= w.now)
    && (forall t :: t in w.threads ==> TimesOf(w.threads[t], w.now))
  }

  ghost predicate ReusesFresh(w: World) {
    forall i :: 0 <= i < |w.reuses| ==>
      && w.reuses[i].kept.at <= w.reuses[i].kept.fetchedAt
      && w.reuses[i].readAt - w.reuses[i].kept.at < SHARED_SCAN_SECONDS
  }

  ghost predicate TimesOf(thread: Thread, now: real) {
    match thread.phase
    case Timed(at) => at <= now
    case Fetching(at) => at <= now
    case Fetched(at, _, fetchedAt) => at <= fetchedAt <= now
    case _ => true
  }

  lemma ThreadTimesHold(w: World, a: Action, v: World, t: nat)
    requires TimesSound(w) && Step(w, a, v) && t in v.threads
    ensures TimesOf(v.threads[t], v.now)
  {
    if t in w.threads { assert TimesOf(w.threads[t], w.now); }
  }

  lemma ScansAfterAnswer(scans: map<string, Kept>, thread: Thread, k: string)
    requires thread.phase.Fetched? && k in ScansAfter(scans, thread)
    ensures (k in scans && ScansAfter(scans, thread)[k] == scans[k])
         || (thread.phase.data.Some? && ScansAfter(scans, thread)[k] == KeptBy(thread))
  {
  }

  lemma ScanTimesHold(w: World, a: Action, v: World, k: string)
    requires TimesSound(w) && Step(w, a, v) && k in v.scans
    ensures v.scans[k].at <= v.scans[k].fetchedAt <= v.now
  {
    if a.Keep? {
      assert TimesOf(w.threads[a.t], w.now);
      ScansAfterAnswer(w.scans, w.threads[a.t], k);
    }
  }

  lemma StepKeepsTimes(w: World, a: Action, v: World)
    requires TimesSound(w) && Step(w, a, v)
    ensures TimesSound(v)
  {
    forall t | t in v.threads ensures TimesOf(v.threads[t], v.now) { ThreadTimesHold(w, a, v, t); }
    forall k | k in v.scans ensures v.scans[k].at <= v.scans[k].fetchedAt <= v.now { ScanTimesHold(w, a, v, k); }
  }

  lemma StepKeepsReuses(w: World, a: Action, v: World)
    requires TimesSound(w) && ReusesFresh(w) && Step(w, a, v)
    ensures ReusesFresh(v)
  {
  }

  /** In every run, however late its writer was, a reused response was fetched no earlier than its
      recorded time, and that time was under ten seconds old for the reader. */
  lemma {:induction false} ReuseIsFresh(worlds: seq<World>, actions: seq<Action>, i: nat)
    requires Run(worlds, actions) && i < |worlds|
    ensures TimesSound(worlds[i]) && ReusesFresh(worlds[i])
  {
    if i > 0 {
      ReuseIsFresh(worlds, actions, i - 1);
      StepKeepsTimes(worlds[i - 1], actions[i - 1], worlds[i]);
      StepKeepsReuses(worlds[i - 1], actions[i - 1], worlds[i]);
    }
  }
}
