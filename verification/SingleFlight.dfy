/** At most one fetch per key: exactly which drops of expired scans put that at risk. */
module SingleFlight {
  import opened Common
  import opened SharedScan

  ghost predicate FetchesAreSingle(w: World) {
    forall t, u ::
      (t in w.threads && u in w.threads && w.threads[t].phase.Fetching? && w.threads[u].phase.Fetching?
       && w.threads[t].key == w.threads[u].key) ==> t == u
  }

  /** A caller that still has to find out what is in memory, or to fetch it. */
  predicate Unanswered(thread: Thread) { !thread.phase.Fetched? }

  /** No key the step forgets belongs to a caller without its answer. */
  ghost predicate Harmless(w: World, a: Action) {
    a.Keep? && a.t in w.threads ==>
      forall u :: u in w.threads && Unanswered(w.threads[u]) ==> w.threads[u].key !in DroppedBy(w.scans, w.threads[a.t])
  }

  // ------------------------------------------------------------ harmless drops keep single flight

  predicate QueuedRight(w: World, u: nat)
    requires u in w.threads
  {
    w.threads[u].key in w.locks && w.locks[w.threads[u].key] == w.threads[u].lock
  }

  /** Whoever is past the lock holds it. */
  ghost predicate HoldersHold(w: World) {
    forall t :: t in w.threads && !w.threads[t].phase.Waiting? ==>
      w.threads[t].lock in w.held && w.held[w.threads[t].lock] == t
  }

  /** Unanswered callers for one key queue on the one lock the table names. */
  ghost predicate Orderly(w: World) {
    HoldersHold(w) && forall t :: t in w.threads && Unanswered(w.threads[t]) ==> QueuedRight(w, t)
  }

  lemma StepKeepsHolders(w: World, a: Action, v: World)
    requires HoldersHold(w) && Step(w, a, v)
    ensures HoldersHold(v)
  {
    forall u | u in v.threads && !v.threads[u].phase.Waiting?
      ensures v.threads[u].lock in v.held && v.held[v.threads[u].lock] == u
    {
      StepKeepsHolder(w, a, v, u);
    }
  }

  lemma StepKeepsHolder(w: World, a: Action, v: World, u: nat)
    requires HoldersHold(w) && Step(w, a, v) && u in v.threads && !v.threads[u].phase.Waiting?
    ensures v.threads[u].lock in v.held && v.held[v.threads[u].lock] == u
  {
    match a
    case Look(t) => assert u != t ==> w.threads[u].lock != w.threads[t].lock;
    case Keep(t) => assert u != t ==> w.threads[u].lock != w.threads[t].lock;
    case Acquire(t) => assert u != t ==> w.threads[u].lock != w.threads[t].lock;
    case _ =>
  }

  lemma StepKeepsQueue(w: World, a: Action, v: World, u: nat)
    requires Orderly(w) && Step(w, a, v) && Harmless(w, a) && u in v.threads && Unanswered(v.threads[u])
    ensures QueuedRight(v, u)
  {
    if a.Keep? { assert u in w.threads && QueuedRight(w, u); }
  }

  lemma ScansAfterKeep(scans: map<string, Kept>, thread: Thread)
    requires thread.phase.Fetched?
    ensures forall k :: k in DroppedBy(scans, thread) ==> k !in ScansAfter(scans, thread)
    ensures forall k :: k in ScansAfter(scans, thread) && k !in scans ==>
              thread.phase.data.Some? && k == thread.key && ScansAfter(scans, thread)[k].at == thread.phase.at
  {
  }

  lemma StepKeepsOrderly(w: World, a: Action, v: World)
    requires Orderly(w) && Step(w, a, v) && Harmless(w, a)
    ensures Orderly(v)
  {
    StepKeepsHolders(w, a, v);
    forall u | u in v.threads && Unanswered(v.threads[u]) ensures QueuedRight(v, u) { StepKeepsQueue(w, a, v, u); }
  }

  /** In every run whose drops are harmless, at most one fetch per key is in flight. */
  lemma {:induction false} SingleFlight(worlds: seq<World>, actions: seq<Action>, i: nat)
    requires Run(worlds, actions) && i < |worlds|
    requires forall j :: 0 <= j < |actions| ==> Harmless(worlds[j], actions[j])
    ensures Orderly(worlds[i]) && FetchesAreSingle(worlds[i])
  {
    if i > 0 {
      SingleFlight(worlds, actions, i - 1);
      StepKeepsOrderly(worlds[i - 1], actions[i - 1], worlds[i]);
    }
  }

  // ------------------------------------------------------------ reachable worlds

  /** `v` comes after `w` in some run. */
  ghost predicate Leads(w: World, v: World) {
    exists worlds, actions :: Steps(worlds, actions) && worlds[0] == w && worlds[|actions|] == v
  }

  ghost predicate Reachable(w: World) { exists start :: Init(start) && Leads(start, w) }

  lemma LeadsNowhere(w: World)
    ensures Leads(w, w)
  {
    var worlds, actions: seq<Action> := [w], [];
    assert Steps(worlds, actions) && worlds[|actions|] == w;
  }

  lemma LeadsOn(w: World, v: World, a: Action, x: World)
    requires Leads(w, v) && Step(v, a, x)
    ensures Leads(w, x)
  {
    var worlds, actions :| Steps(worlds, actions) && worlds[0] == w && worlds[|actions|] == v;
    var more, acts := worlds + [x], actions + [a];
    assert Steps(more, acts) && more[0] == w && more[|acts|] == x;
  }

  lemma ReachesOn(w: World, a: Action, v: World)
    requires Reachable(w) && Step(w, a, v)
    ensures Reachable(v)
  {
    var start :| Init(start) && Leads(start, w);
    LeadsOn(start, w, a, v);
  }

  /** Who holds a lock is there and past it. */
  ghost predicate HeldByThreads(w: World) {
    forall l :: l in w.held ==>
      w.held[l] in w.threads && w.threads[w.held[l]].lock == l && !w.threads[w.held[l]].phase.Waiting?
  }

  /** A lock object belongs to one key for good. */
  ghost predicate LocksNamed(w: World) {
    && (forall k :: k in w.locks ==> w.locks[k] < |w.issued| && w.issued[w.locks[k]] == k)
    && (forall t :: t in w.threads ==>
        w.threads[t].lock < |w.issued| && w.issued[w.threads[t].lock] == w.threads[t].key)
  }

  ghost predicate Sane(w: World) { HoldersHold(w) && HeldByThreads(w) && LocksNamed(w) && TimesSound(w) }

  lemma StepKeepsHeld(w: World, a: Action, v: World)
    requires HoldersHold(w) && HeldByThreads(w) && Step(w, a, v)
    ensures HeldByThreads(v)
  {
  }

  lemma StepKeepsTable(w: World, a: Action, v: World, k: string)
    requires LocksNamed(w) && Step(w, a, v) && k in v.locks
    ensures v.locks[k] < |v.issued| && v.issued[v.locks[k]] == k
  {
  }

  lemma StepKeepsLockOf(w: World, a: Action, v: World, t: nat)
    requires LocksNamed(w) && Step(w, a, v) && t in v.threads
    ensures v.threads[t].lock < |v.issued| && v.issued[v.threads[t].lock] == v.threads[t].key
  {
  }

  lemma StepKeepsNames(w: World, a: Action, v: World)
    requires LocksNamed(w) && Step(w, a, v)
    ensures LocksNamed(v)
  {
    forall k | k in v.locks ensures v.locks[k] < |v.issued| && v.issued[v.locks[k]] == k { StepKeepsTable(w, a, v, k); }
    forall t | t in v.threads
      ensures v.threads[t].lock < |v.issued| && v.issued[v.threads[t].lock] == v.threads[t].key
    {
      StepKeepsLockOf(w, a, v, t);
    }
  }

  lemma StepKeepsSane(w: World, a: Action, v: World)
    requires Sane(w) && Step(w, a, v)
    ensures Sane(v)
  {
    StepKeepsHolders(w, a, v);
    StepKeepsHeld(w, a, v);
    StepKeepsNames(w, a, v);
    StepKeepsTimes(w, a, v);
  }

  lemma {:induction false} StepsKeepSane(worlds: seq<World>, actions: seq<Action>, i: nat)
    requires Steps(worlds, actions) && i < |worlds| && Sane(worlds[0])
    ensures Sane(worlds[i])
  {
    if i > 0 {
      StepsKeepSane(worlds, actions, i - 1);
      StepKeepsSane(worlds[i - 1], actions[i - 1], worlds[i]);
    }
  }

  lemma ReachableIsSane(w: World)
    requires Reachable(w)
    ensures Sane(w)
  {
    var start :| Init(start) && Leads(start, w);
    var worlds, actions :| Steps(worlds, actions) && worlds[0] == start && worlds[|actions|] == w;
    StepsKeepSane(worlds, actions, |actions|);
  }

  // ------------------------------------------------------------ a harmful drop

  lemma FreshId(ids: set<nat>) returns (n: nat)
    ensures forall i :: i in ids ==> i < n
    decreases |ids|
  {
    if ids == {} {
      n := 0;
    } else {
      var i :| i in ids;
      var m := FreshId(ids - {i});
      n := Max(m, i + 1);
      assert forall j :: j in ids ==> j == i || j in ids - {i};
    }
  }

  function Entered(w: World, t: nat, key: string): World {
    if key in w.locks then w.(threads := w.threads[t := Thread(key, w.locks[key], Waiting)])
    else w.(threads := w.threads[t := Thread(key, |w.issued|, Waiting)],
            locks := w.locks[key := |w.issued|], issued := w.issued + [key])
  }

  function Acquired(w: World, t: nat): World
    requires t in w.threads
  {
    SetPhase(w, t, Holding).(held := w.held[w.threads[t].lock := t])
  }

  /** Entering with a free lock and looking where memory has nothing recent ends in a fetch. */
  function Fetches(w: World, t: nat, key: string): World {
    var x := Acquired(Entered(w, t, key), t);
    x.(threads := x.threads[t := x.threads[t].(phase := Fetching(w.now))])
  }

  lemma EntersAndFetches(s: World, w: World, t: nat, key: string)
    requires Leads(s, w) && t !in w.threads && !IsHit(w.scans, key, w.now)
    requires Entered(w, t, key).threads[t].lock !in w.held
    ensures Leads(s, Fetches(w, t, key))
  {
    var w1 := Entered(w, t, key);
    var w2 := Acquired(w1, t);
    LeadsOn(s, w, Enter(t, key), w1);
    LeadsOn(s, w1, Acquire(t), w2);
    LooksInVain(s, w2, t);
    assert SetPhase(w2, t, Fetching(w.now)) == Fetches(w, t, key);
  }

  lemma LooksInVain(s: World, w: World, t: nat)
    requires Leads(s, w) && t in w.threads && w.threads[t].phase.Holding? && !IsHit(w.scans, w.threads[t].key, w.now)
    ensures Leads(s, SetPhase(w, t, Fetching(w.now)))
  {
    var w1 := SetPhase(w, t, Timed(w.now));
    LeadsOn(s, w, ReadClock(t), w1);
    assert SetPhase(w1, t, Fetching(w.now)) == SetPhase(w, t, Fetching(w.now));
    LeadsOn(s, w1, Look(t), SetPhase(w1, t, Fetching(w.now)));
  }

  /** A caller that holds its lock fetches if memory has nothing recent for its key. */
  lemma HolderFetches(s: World, w: World, t: nat) returns (v: World)
    requires Leads(s, w) && t in w.threads && (w.threads[t].phase.Holding? || w.threads[t].phase.Timed?)
    requires forall at :: at == w.now || w.threads[t].phase == Timed(at) ==> !IsHit(w.scans, w.threads[t].key, at)
    ensures Leads(s, v) && t in v.threads && v.threads[t].key == w.threads[t].key && v.threads[t].phase.Fetching?
    ensures forall u :: u in w.threads && u != t ==> u in v.threads && v.threads[u] == w.threads[u]
  {
    if w.threads[t].phase.Holding? {
      LooksInVain(s, w, t);
      v := SetPhase(w, t, Fetching(w.now));
    } else {
      v := SetPhase(w, t, Fetching(w.threads[t].phase.at));
      LeadsOn(s, w, Look(t), v);
    }
  }

  function Later(w: World): World { w.(now := w.now + SHARED_SCAN_SECONDS) }

  /** A caller that has its answer keeps it, and ten seconds pass: its key is not in memory any more. */
  lemma AnswerGoesStale(s: World, w: World, h: nat)
    requires Leads(s, w) && Sane(w) && h in w.threads && w.threads[h].phase.Fetched?
    requires w.threads[h].key !in w.scans
    ensures Leads(s, Later(Settled(w, h)))
    ensures forall at :: at == Later(w).now ==> !IsHit(Settled(w, h).scans, w.threads[h].key, at)
  {
    var w1 := Settled(w, h);
    LeadsOn(s, w, Keep(h), w1);
    ScansAfterKeep(w.scans, w.threads[h]);
    LeadsOn(s, w1, Pass(Later(w).now), Later(w1));
    assert TimesOf(w.threads[h], w.now);
  }

  lemma SameLockSameKey(w: World, h: nat, u: nat)
    requires Sane(w) && h in w.threads && u in w.threads && w.threads[h].lock == w.threads[u].lock
    ensures w.threads[h].key == w.threads[u].key
  {
  }

  lemma WaiterTakesOver(s: World, w: World, h: nat, u: nat)
    requires h in w.threads && u in w.threads && u != h
    requires w.threads[h].phase.Fetched? && w.threads[u].phase.Waiting? && w.threads[h].lock == w.threads[u].lock
    requires Leads(s, Later(Settled(w, h)))
    ensures var x := Acquired(Later(Settled(w, h)), u);
            && Leads(s, x) && x.scans == Settled(w, h).scans && x.now == Later(w).now
            && x.threads == (w.threads - {h})[u := w.threads[u].(phase := Holding)]
  {
    var w2 := Later(Settled(w, h));
    LeadsOn(s, w2, Acquire(u), Acquired(w2, u));
  }

  /** A caller waiting behind it then takes the lock and fetches the key again. */
  lemma WaiterFetches(s: World, w: World, h: nat, u: nat) returns (v: World)
    requires Leads(s, w) && Sane(w) && h in w.threads && u in w.threads && u != h
    requires w.threads[h].phase.Fetched? && w.threads[u].phase.Waiting? && w.threads[h].lock == w.threads[u].lock
    requires w.threads[u].key !in w.scans
    ensures Leads(s, v) && u in v.threads && v.threads[u].key == w.threads[u].key && v.threads[u].phase.Fetching?
    ensures forall x :: x in w.threads && x != u && x != h ==> x in v.threads && v.threads[x] == w.threads[x]
  {
    SameLockSameKey(w, h, u);
    AnswerGoesStale(s, w, h);
    WaiterTakesOver(s, w, h, u);
    v := HolderFetches(s, Acquired(Later(Settled(w, h)), u), u);
  }

  /** One of two callers on one lock, the one that holds it or the one that waits, gets to fetch. */
  lemma HolderOrWaiterFetches(s: World, w: World, h: nat, u: nat) returns (v: World, other: nat)
    requires Leads(s, w) && Sane(w) && h in w.threads && u in w.threads && u != h
    requires !w.threads[h].phase.Waiting? && w.threads[u].phase.Waiting? && w.threads[h].lock == w.threads[u].lock
    requires w.threads[u].key !in w.scans
    ensures Leads(s, v) && other in {h, u} && other in v.threads && v.threads[other].phase.Fetching?
    ensures v.threads[other].key == w.threads[u].key
    ensures forall x :: x in w.threads && x != u && x != h ==> x in v.threads && v.threads[x] == w.threads[x]
  {
    assert w.threads[h].key == w.threads[u].key;
    if w.threads[h].phase.Fetched? {
      v := WaiterFetches(s, w, h, u);
      other := u;
    } else if w.threads[h].phase.Fetching? {
      v, other := w, h;
    } else {
      v := HolderFetches(s, w, h);
      other := h;
    }
  }

  lemma SaneAfter(w: World, v: World)
    requires Sane(w) && Leads(w, v)
    ensures Sane(v)
  {
    var worlds, actions :| Steps(worlds, actions) && worlds[0] == w && worlds[|actions|] == v;
    StepsKeepSane(worlds, actions, |actions|);
  }

  lemma FetchesApart(w: World, n: nat, key: string)
    requires key !in w.locks && key !in w.scans && n !in w.threads && |w.issued| !in w.held
    ensures var x := Fetches(w, n, key);
            && Leads(w, x) && x.scans == w.scans && x.threads.Keys == w.threads.Keys + {n}
            && x.threads[n].key == key && x.threads[n].phase.Fetching?
            && (forall t :: t in w.threads ==> x.threads[t] == w.threads[t])
            && (forall l :: l in x.held && l != |w.issued| ==> l in w.held && x.held[l] == w.held[l])
  {
    LeadsNowhere(w);
    EntersAndFetches(w, w, n, key);
  }

  lemma NextLockIsFree(w: World)
    requires Sane(w)
    ensures |w.issued| !in w.held
  {
    assert forall l :: l in w.held ==> w.threads[w.held[l]].lock < |w.issued|;
  }

  /** A newcomer for a key with neither lock nor scan makes itself a lock and fetches. */
  lemma NewcomerFetches(w: World, key: string) returns (x: World, n: nat)
    requires Sane(w) && key !in w.locks && key !in w.scans
    ensures Leads(w, x) && x.scans == w.scans && x.threads.Keys == w.threads.Keys + {n} && n !in w.threads
    ensures x.threads[n].key == key && x.threads[n].phase.Fetching?
    ensures forall t :: t in w.threads ==> x.threads[t] == w.threads[t]
    ensures forall l :: l in x.held && l != |w.issued| ==> l in w.held && x.held[l] == w.held[l]
  {
    n := FreshId(w.threads.Keys);
    assert n !in w.threads.Keys;
    NextLockIsFree(w);
    FetchesApart(w, n, key);
    x := Fetches(w, n, key);
  }

  /** A caller behind or past its lock gets to fetch a key that is not in memory - it, or the one that
      holds that lock. */
  lemma OrphanFetches(s: World, w: World, u: nat) returns (v: World, other: nat)
    requires Leads(s, w) && Sane(w) && u in w.threads && Unanswered(w.threads[u]) && w.threads[u].key !in w.scans
    ensures Leads(s, v) && other in v.threads && v.threads[other].phase.Fetching?
    ensures v.threads[other].key == w.threads[u].key && other in w.threads && w.threads[other].lock == w.threads[u].lock
    ensures forall x :: x in w.threads && w.threads[x].lock != w.threads[u].lock ==>
              x in v.threads && v.threads[x] == w.threads[x]
  {
    other := u;
    var phase := w.threads[u].phase;
    if phase.Fetching? {
      v := w;
    } else if phase.Holding? || phase.Timed? {
      v := HolderFetches(s, w, u);
    } else if w.threads[u].lock !in w.held {
      LeadsOn(s, w, Acquire(u), Acquired(w, u));
      v := HolderFetches(s, Acquired(w, u), u);
    } else {
      v, other := HolderOrWaiterFetches(s, w, w.held[w.threads[u].lock], u);
    }
  }

  /** In a world where an unanswered caller's key has lost lock and scan, two fetches can overlap. */
  lemma OrphanFetchesTwice(w: World, u: nat) returns (v: World)
    requires Sane(w) && u in w.threads && Unanswered(w.threads[u])
    requires w.threads[u].key !in w.locks && w.threads[u].key !in w.scans
    ensures Leads(w, v) && !FetchesAreSingle(v)
  {
    var x, n := NewcomerFetches(w, w.threads[u].key);
    SaneAfter(w, x);
    NewcomerHasOwnLock(w, x, n, u);
    var other;
    v, other := OrphanFetches(w, x, u);
    assert n != other && v.threads[n].phase.Fetching? && v.threads[other].phase.Fetching?;
  }

  /** The newcomer holds a lock nobody else had. */
  lemma NewcomerHasOwnLock(w: World, x: World, n: nat, u: nat)
    requires Sane(w) && Sane(x) && n in x.threads && u in w.threads && u in x.threads && x.threads[u] == w.threads[u]
    requires x.threads[n].phase.Fetching? && n !in w.threads
    requires forall l :: l in x.held && l != |w.issued| ==> l in w.held && x.held[l] == w.held[l]
    ensures x.threads[n].lock != x.threads[u].lock
  {
    assert x.held[x.threads[n].lock] == n;
    assert forall l :: l in w.held ==> w.held[l] in w.threads;
  }

  /** From every reachable world, a drop that is not harmless can go on to two overlapping fetches. */
  lemma HarmfulDropCanBreak(w: World, a: Action, v: World) returns (x: World)
    requires Reachable(w) && Step(w, a, v) && !Harmless(w, a)
    ensures Reachable(v) && Leads(v, x) && !FetchesAreSingle(x)
  {
    var u :| u in w.threads && Unanswered(w.threads[u]) && w.threads[u].key in DroppedBy(w.scans, w.threads[a.t]);
    ScansAfterKeep(w.scans, w.threads[a.t]);
    ReachesOn(w, a, v);
    ReachableIsSane(v);
    x := OrphanFetchesTwice(v, u);
  }

  // ------------------------------------------------------------ such a drop happens

  function Path(n: nat): string { seq(n, i => 'p') }

  /** n scans and n locks under different paths, and nobody inside. */
  function Scans(n: nat): map<string, Kept> {
    if n == 0 then map[] else Scans(n - 1)[Path(n - 1) := Kept(0.0, "old", 0.0)]
  }

  function Locks(n: nat): map<string, nat> { if n == 0 then map[] else Locks(n - 1)[Path(n - 1) := n - 1] }

  function Paths(n: nat): seq<string> { seq(n, i requires 0 <= i < n => Path(i)) }

  function Filled(n: nat): World { World(0.0, Locks(n), Paths(n), map[], Scans(n), map[], []) }

  lemma {:induction false} FilledSize(n: nat)
    ensures |Scans(n)| == n && Locks(n).Keys == Scans(n).Keys
    ensures forall k :: k in Scans(n) ==> |k| < n && Scans(n)[k] == Kept(0.0, "old", 0.0)
    ensures n > 0 ==> "" in Scans(n) && Locks(n)[""] == 0
    ensures Path(n) !in Scans(n)
  {
    assert |Path(n)| == n;
    if n > 0 {
      FilledSize(n - 1);
      assert Scans(n).Keys == Scans(n - 1).Keys + {Path(n - 1)};
      assert |Scans(n).Keys| == |Scans(n)| && |Scans(n - 1).Keys| == |Scans(n - 1)|;
      if n == 1 { assert Path(0) == ""; } else { assert Path(n - 1) != ""; }
    }
  }

  function Replied(w: World, t: nat): World
    requires t in w.threads && w.threads[t].phase.Fetching?
  {
    SetPhase(w, t, Fetched(w.threads[t].phase.at, Some("old"), w.now))
  }

  lemma FetchReachable(w: World, t: nat, key: string)
    requires Reachable(w) && t !in w.threads && !IsHit(w.scans, key, w.now)
    requires Entered(w, t, key).threads[t].lock !in w.held
    ensures Reachable(Fetches(w, t, key)) && Reachable(Replied(Fetches(w, t, key), t))
  {
    LeadsNowhere(w);
    EntersAndFetches(w, w, t, key);
    ReachesFurther(w, Fetches(w, t, key));
    ReachesOn(Fetches(w, t, key), Reply(t, Some("old")), Replied(Fetches(w, t, key), t));
  }

  lemma {:induction false} FilledReachable(n: nat)
    requires n <= MAX_SHARED_SCAN_ENTRIES
    ensures Reachable(Filled(n))
  {
    if n == 0 {
      LeadsNowhere(Filled(0));
      assert Init(Filled(0));
    } else {
      FilledReachable(n - 1);
      FilledSize(n - 1);
      FetchReachable(Filled(n - 1), 0, Path(n - 1));
      OneMoreFilled(n);
      ReachesOn(Replied(Fetches(Filled(n - 1), 0, Path(n - 1)), 0), Keep(0), Filled(n));
    }
  }

  lemma AloneFetches(w: World, t: nat, key: string)
    requires w.threads == map[] && w.held == map[]
    ensures var l, x := if key in w.locks then w.locks[key] else |w.issued|, Fetches(w, t, key);
            && x.threads == map[t := Thread(key, l, Fetching(w.now))] && x.held == map[l := t]
            && x.now == w.now && x.scans == w.scans && x.reuses == w.reuses
            && Replied(x, t) == x.(threads := map[t := Thread(key, l, Fetched(w.now, Some("old"), w.now))])
  {
  }

  lemma FetchTables(w: World, t: nat, key: string)
    ensures var x := Fetches(w, t, key);
            && x.locks == (if key in w.locks then w.locks else w.locks[key := |w.issued|])
            && x.issued == (if key in w.locks then w.issued else w.issued + [key])
  {
  }

  /** A lone caller's new scan goes into memory and into the lock table, and nothing else changes. */
  lemma KeepsAlone(w: World, key: string, scans: map<string, Kept>, locks: map<string, nat>, issued: seq<string>)
    requires w.threads == map[] && w.held == map[] && key !in w.locks
    requires Dropped(w.scans, key, Kept(w.now, "old", w.now)) == {}
    requires scans == AfterKeep(w.scans, key, Kept(w.now, "old", w.now))
    requires locks == w.locks[key := |w.issued|] && issued == w.issued + [key]
    ensures Step(Replied(Fetches(w, 0, key), 0), Keep(0), w.(scans := scans, locks := locks, issued := issued))
  {
    AloneIs(w, key);
    SettlesAlone(w, key, Alone(w, key));
  }

  /** A lone caller that has made itself a lock and got its answer. */
  function Alone(w: World, key: string): World {
    w.(threads := map[0 := Thread(key, |w.issued|, Fetched(w.now, Some("old"), w.now))], held := map[|w.issued| := 0],
       locks := w.locks[key := |w.issued|], issued := w.issued + [key])
  }

  lemma AloneIs(w: World, key: string)
    requires w.threads == map[] && w.held == map[] && key !in w.locks
    ensures Replied(Fetches(w, 0, key), 0) == Alone(w, key)
  {
    AloneFetches(w, 0, key);
    FetchTables(w, 0, key);
  }

  lemma SettlesAlone(w: World, key: string, x: World)
    requires w.threads == map[] && w.held == map[] && x == Alone(w, key)
    requires Dropped(w.scans, key, Kept(w.now, "old", w.now)) == {}
    ensures Settled(x, 0) == x.(threads := map[], held := map[],
                                scans := AfterKeep(w.scans, key, Kept(w.now, "old", w.now)))
  {
    assert x.threads - {0} == map[] && x.held - {|w.issued|} == map[];
    assert KeptBy(x.threads[0]) == Kept(w.now, "old", w.now);
    assert x.locks - {} == x.locks;
  }

  lemma PathsGrow(n: nat)
    requires n > 0
    ensures Paths(n) == Paths(n - 1) + [Path(n - 1)]
  {
  }

  lemma NothingDropped(n: nat, kept: Kept)
    requires 0 < n <= MAX_SHARED_SCAN_ENTRIES && kept == Kept(0.0, "old", 0.0)
    ensures Dropped(Scans(n - 1), Path(n - 1), kept) == {} && AfterKeep(Scans(n - 1), Path(n - 1), kept) == Scans(n)
  {
    FilledSize(n);
    assert Scans(n - 1)[Path(n - 1) := kept] == Scans(n);
  }

  lemma OneMoreFilled(n: nat)
    requires 0 < n <= MAX_SHARED_SCAN_ENTRIES
    ensures Step(Replied(Fetches(Filled(n - 1), 0, Path(n - 1)), 0), Keep(0), Filled(n))
  {
    FilledSize(n - 1);
    NothingDropped(n, Kept(0.0, "old", 0.0));
    PathsGrow(n);
    KeepsAlone(Filled(n - 1), Path(n - 1), Scans(n), Locks(n), Paths(n));
  }

  /** Memory is full, and a caller refetches the first key, by now expired ... */
  function Refetching(n: nat): World {
    Fetches(Filled(n).(now := 15.0), 0, "")
  }

  lemma RefetchReachable(n: nat)
    requires n == MAX_SHARED_SCAN_ENTRIES
    ensures Reachable(Refetching(n))
    ensures Refetching(n).threads == map[0 := Thread("", 0, Fetching(15.0))] && Refetching(n).held == map[0 := 0]
    ensures Refetching(n).scans == Scans(n) && Refetching(n).locks == Locks(n) && Refetching(n).issued == Paths(n)
  {
    FilledReachable(n);
    FilledSize(n);
    ReachesOn(Filled(n), Pass(15.0), Filled(n).(now := 15.0));
    AloneFetches(Filled(n).(now := 15.0), 0, "");
    FetchTables(Filled(n).(now := 15.0), 0, "");
    FetchReachable(Filled(n).(now := 15.0), 0, "");
  }

  lemma OverflowDropsExpired(n: nat, kept: Kept)
    requires n == MAX_SHARED_SCAN_ENTRIES && kept.at == 20.0
    ensures "" in Dropped(Scans(n), Path(n), kept)
  {
    FilledSize(n);
    var scans := Scans(n);
    var stored := scans[Path(n) := kept];
    assert stored.Keys == scans.Keys + {Path(n)};
    assert |stored.Keys| == |stored| && |scans.Keys| == |scans|;
    assert |Path(n)| == n && stored[""].at == 0.0;
    assert "" in Stale(stored, kept.at);
  }

  /** ... and a second caller's scan of a new path overflows it: the drop takes the first one's lock.
      So single flight fails in a run from the start. */
  lemma SingleFlightFails(n: nat) returns (x: World)
    requires n == MAX_SHARED_SCAN_ENTRIES
    ensures Reachable(x) && !FetchesAreSingle(x)
  {
    var full := HarmfulDropReachable(n);
    x := HarmfulDropCanBreak(full, Keep(1), Settled(full, 1));
    ReachesFurther(Settled(full, 1), x);
  }

  lemma HarmfulDropReachable(n: nat) returns (full: World)
    requires n == MAX_SHARED_SCAN_ENTRIES
    ensures Reachable(full) && 1 in full.threads && full.threads[1].phase.Fetched?
    ensures Step(full, Keep(1), Settled(full, 1)) && !Harmless(full, Keep(1))
  {
    var w := Refetched(n);
    FetchReachable(w, 1, Path(n));
    full := Replied(Fetches(w, 1, Path(n)), 1);
    SecondArrives(w, Path(n));
    OverflowDropsExpired(n, KeptBy(full.threads[1]));
    assert "" in DroppedBy(full.scans, full.threads[1]) && Unanswered(full.threads[0]);
  }

  lemma Refetched(n: nat) returns (w: World)
    requires n == MAX_SHARED_SCAN_ENTRIES
    ensures Reachable(w) && w.now == 20.0 && w.scans == Scans(n) && Path(n) !in w.locks && Path(n) !in w.scans
    ensures w.threads == map[0 := Thread("", 0, Fetching(15.0))] && |w.issued| !in w.held
  {
    RefetchReachable(n);
    FilledSize(n);
    w := Refetching(n).(now := 20.0);
    ReachesOn(Refetching(n), Pass(20.0), w);
  }

  lemma SecondArrives(w: World, key: string)
    requires w.threads == map[0 := Thread("", 0, Fetching(15.0))]
    ensures var full := Replied(Fetches(w, 1, key), 1);
            && full.scans == w.scans && full.threads.Keys == {0, 1} && full.threads[0] == Thread("", 0, Fetching(15.0))
            && full.threads[1].key == key && full.threads[1].phase == Fetched(w.now, Some("old"), w.now)
  {
  }

  lemma ReachesFurther(v: World, x: World)
    requires Reachable(v) && Leads(v, x)
    ensures Reachable(x)
  {
    var start :| Init(start) && Leads(start, v);
    var ws, as_ :| Steps(ws, as_) && ws[0] == start && ws[|as_|] == v;
    var us, bs :| Steps(us, bs) && us[0] == v && us[|bs|] == x;
    var all, acts := ws + us[1..], as_ + bs;
    forall i | 0 <= i < |acts| ensures Step(all[i], acts[i], all[i + 1]) {
      if i >= |as_| { assert Step(us[i - |as_|], bs[i - |as_|], us[i - |as_| + 1]); }
    }
    assert Steps(all, acts) && all[0] == start && all[|acts|] == x;
  }
}
