/** Tick lanes and the poll schedule together: which pool is scanned when.

    A pool's lane is its name; its poll key adds owner, repository and token, so one lane may serve
    several keys over time. Every lock section and every clock reading is one step. */
module TickSchedule {
  import opened Common

  datatype Key = Key(name: string, owner: string, repo: string, digest: string)

  function NextPoll(schedule: map<Key, real>, key: Key): real { if key in schedule then schedule[key] else 0.0 }

  predicate Deferred(schedule: map<Key, real>, key: Key, now: real) { now < NextPoll(schedule, key) }

  /** The schedule once a scan has been admitted at `now`. */
  function AfterAdmission(schedule: map<Key, real>, key: Key, now: real, interval: real): map<Key, real> {
    if interval > 0.0 then schedule[key := now + interval] else schedule
  }

  /** The schedule once a scan that started at `now` hit the rate limit. */
  function AfterRateLimit(schedule: map<Key, real>, key: Key, now: real, retryAfter: real): map<Key, real> {
    schedule[key := MaxReal(NextPoll(schedule, key), now + retryAfter)]
  }

  datatype Phase = Waiting | ClockRead(at: real) | Scanning(at: real, scan: nat)

  datatype Job = Job(key: Key, interval: real, phase: Phase)

  datatype Scan = Scan(key: Key, at: real, interval: real)

  /** The scan numbered `scan` hit the rate limit and must not be repeated before `until`. */
  datatype Limit = Limit(key: Key, scan: nat, retryAfter: real, until: real)

  datatype World = World(
    now: real,
    running: map<string, nat>,    // TickLanes._running: the recorded job of each lane
    jobs: map<nat, Job>,          // jobs whose future is not done
    issued: nat,
    schedule: map<Key, real>,     // PoolScaler._next_poll_at
    scans: seq<Scan>,             // history
    limits: seq<Limit>)           // history

  datatype Action =
    | Pass(to: real)
    | Submit(key: Key, interval: real)
    | ReadClock(id: nat)
    | Gate(id: nat)
    | Finish(id: nat)
    | HitLimit(id: nat, retryAfter: real)
    | Forget(keep: set<string>)

  predicate LaneBusy(w: World, lane: string) { lane in w.running && w.running[lane] in w.jobs }

  function Without(jobs: map<nat, Job>, id: nat): map<nat, Job> { jobs - {id} }

  ghost predicate Step(w: World, a: Action, v: World) {
    match a
    case Pass(to) => to >= w.now && v == w.(now := to)
    case Submit(key, interval) =>
      if LaneBusy(w, key.name) then v == w
      else v == w.(running := w.running[key.name := w.issued], issued := w.issued + 1,
                   jobs := w.jobs[w.issued := Job(key, interval, Waiting)])
    case ReadClock(id) =>
      && id in w.jobs && w.jobs[id].phase.Waiting?
      && v == w.(jobs := w.jobs[id := w.jobs[id].(phase := ClockRead(w.now))])
    case Gate(id) =>
      && id in w.jobs && w.jobs[id].phase.ClockRead?
      && var job := w.jobs[id];
         var at := job.phase.at;
         if Deferred(w.schedule, job.key, at) then v == w.(jobs := Without(w.jobs, id))
         else v == w.(schedule := AfterAdmission(w.schedule, job.key, at, job.interval),
                      scans := w.scans + [Scan(job.key, at, job.interval)],
                      jobs := w.jobs[id := job.(phase := Scanning(at, |w.scans|))])
    case Finish(id) =>
      id in w.jobs && v == w.(jobs := Without(w.jobs, id))
    case HitLimit(id, retryAfter) =>
      && id in w.jobs && w.jobs[id].phase.Scanning? && retryAfter >= 1.0
      && var job := w.jobs[id];
         v == w.(schedule := AfterRateLimit(w.schedule, job.key, job.phase.at, retryAfter),
                 limits := w.limits + [Limit(job.key, job.phase.scan, retryAfter, job.phase.at + retryAfter)],
                 jobs := Without(w.jobs, id))
    case Forget(keep) =>
      v == w.(running := map lane | lane in w.running && (lane in keep || LaneBusy(w, lane)) :: w.running[lane])
  }

  ghost predicate Init(w: World) {
    w.running == map[] && w.jobs == map[] && w.schedule == map[] && w.scans == [] && w.limits == []
  }

  ghost predicate Run(worlds: seq<World>, actions: seq<Action>) {
    && |worlds| == |actions| + 1 && Init(worlds[0])
    && forall i :: 0 <= i < |actions| ==> Step(worlds[i], actions[i], worlds[i + 1])
  }

  /** Every unfinished job is the one recorded for its lane. */
  ghost predicate LanesExclusive(w: World) {
    forall id :: id in w.jobs ==>
      id < w.issued && w.jobs[id].key.name in w.running && w.running[w.jobs[id].key.name] == id
  }

  /** Jobs in flight know about every scan of their key made so far. */
  ghost predicate JobsInformed(w: World) {
    && (forall i :: 0 <= i < |w.scans| ==> w.scans[i].at <= w.now)
    && (forall id :: id in w.jobs && w.jobs[id].phase.ClockRead? ==>
          w.jobs[id].phase.at <= w.now && NoLaterThan(w, w.jobs[id].key, w.jobs[id].phase.at))
    && (forall id :: id in w.jobs && w.jobs[id].phase.Scanning? ==>
          LastScan(w, w.jobs[id].key, w.jobs[id].phase.scan, w.jobs[id].phase.at))
  }

  ghost predicate NoLaterThan(w: World, key: Key, at: real) {
    forall i :: 0 <= i < |w.scans| && w.scans[i].key == key ==> w.scans[i].at <= at
  }

  ghost predicate LastScan(w: World, key: Key, n: nat, at: real) {
    && n < |w.scans| && w.scans[n].key == key && w.scans[n].at == at
    && forall i :: n < i < |w.scans| ==> w.scans[i].key != key
  }

  /** The schedule remembers every admission and every rate limit, and the history obeyed them. */
  ghost predicate ScheduleKept(w: World) {
    && (forall i :: 0 <= i < |w.scans| && w.scans[i].interval > 0.0 ==>
          NextPoll(w.schedule, w.scans[i].key) >= w.scans[i].at + w.scans[i].interval)
    && (forall l :: 0 <= l < |w.limits| ==> NextPoll(w.schedule, w.limits[l].key) >= w.limits[l].until)
  }

  ghost predicate Spaced(w: World) {
    forall i, j :: 0 <= i < j < |w.scans| && w.scans[i].key == w.scans[j].key ==>
      w.scans[j].at >= w.scans[i].at + MaxReal(0.0, w.scans[i].interval)
  }

  ghost predicate LimitsHonoured(w: World) {
    forall l, j :: 0 <= l < |w.limits| && w.limits[l].scan < j < |w.scans| && w.scans[j].key == w.limits[l].key ==>
      w.scans[j].at >= w.limits[l].until
  }

  ghost predicate LimitsRecorded(w: World) {
    forall l :: 0 <= l < |w.limits| ==>
      && w.limits[l].scan < |w.scans| && w.scans[w.limits[l].scan].key == w.limits[l].key
      && w.limits[l].until == w.scans[w.limits[l].scan].at + w.limits[l].retryAfter
  }

  ghost predicate Inv(w: World) {
    LanesExclusive(w) && JobsInformed(w) && ScheduleKept(w) && Spaced(w) && LimitsHonoured(w) && LimitsRecorded(w)
  }

  lemma StepKeepsLanes(w: World, a: Action, v: World)
    requires LanesExclusive(w) && Step(w, a, v)
    ensures LanesExclusive(v)
  {
  }

  /** The schedule of a key never moves back. */
  lemma ScheduleAdvances(w: World, a: Action, v: World, key: Key)
    requires Step(w, a, v)
    ensures NextPoll(v.schedule, key) >= NextPoll(w.schedule, key)
  {
  }

  lemma AdmissionKeepsHistory(w: World, id: nat, v: World)
    requires Inv(w) && Step(w, Gate(id), v) && |v.scans| > |w.scans|
    ensures ScheduleKept(v) && Spaced(v) && LimitsHonoured(v) && LimitsRecorded(v)
  {
    var job := w.jobs[id];
    assert !Deferred(w.schedule, job.key, job.phase.at);
    forall i | 0 <= i < |w.scans| && w.scans[i].key == job.key
      ensures job.phase.at >= w.scans[i].at + MaxReal(0.0, w.scans[i].interval)
    {
      assert NoLaterThan(w, job.key, job.phase.at);
    }
    forall i | 0 <= i < |v.scans| && v.scans[i].interval > 0.0
      ensures NextPoll(v.schedule, v.scans[i].key) >= v.scans[i].at + v.scans[i].interval
    {
      if i < |w.scans| { ScheduleAdvances(w, Gate(id), v, w.scans[i].key); }
    }
    forall l | 0 <= l < |w.limits| ensures NextPoll(v.schedule, w.limits[l].key) >= w.limits[l].until {
      ScheduleAdvances(w, Gate(id), v, w.limits[l].key);
    }
  }

  lemma AdmissionKeepsJobs(w: World, id: nat, v: World)
    requires Inv(w) && Step(w, Gate(id), v) && |v.scans| > |w.scans|
    ensures JobsInformed(v)
  {
    var job := w.jobs[id];
    forall other | other in v.jobs && other != id ensures v.jobs[other].key != job.key {
      assert w.running[w.jobs[other].key.name] == other && w.running[job.key.name] == id;
    }
    forall other | other in v.jobs && v.jobs[other].phase.ClockRead?
      ensures v.jobs[other].phase.at <= v.now && NoLaterThan(v, v.jobs[other].key, v.jobs[other].phase.at)
    {
      assert NoLaterThan(w, w.jobs[other].key, w.jobs[other].phase.at);
    }
    forall other | other in v.jobs && v.jobs[other].phase.Scanning?
      ensures LastScan(v, v.jobs[other].key, v.jobs[other].phase.scan, v.jobs[other].phase.at)
    {
      if other != id { assert LastScan(w, w.jobs[other].key, w.jobs[other].phase.scan, w.jobs[other].phase.at); }
    }
  }

  lemma LimitKeepsHistory(w: World, id: nat, retryAfter: real, v: World)
    requires Inv(w) && Step(w, HitLimit(id, retryAfter), v)
    ensures Spaced(v) && ScheduleKept(v) && LimitsHonoured(v) && LimitsRecorded(v)
  {
    var job := w.jobs[id];
    assert LastScan(w, job.key, job.phase.scan, job.phase.at);
    forall i | 0 <= i < |v.scans| && v.scans[i].interval > 0.0
      ensures NextPoll(v.schedule, v.scans[i].key) >= v.scans[i].at + v.scans[i].interval
    {
      ScheduleAdvances(w, HitLimit(id, retryAfter), v, w.scans[i].key);
    }
    forall l | 0 <= l < |v.limits| ensures NextPoll(v.schedule, v.limits[l].key) >= v.limits[l].until {
      if l < |w.limits| { ScheduleAdvances(w, HitLimit(id, retryAfter), v, w.limits[l].key); }
    }
  }

  /** Steps that add no scan leave what jobs know in place. */
  lemma OtherStepsKeepJobs(w: World, a: Action, v: World)
    requires Inv(w) && Step(w, a, v) && v.scans == w.scans
    ensures JobsInformed(v)
  {
    forall id | id in v.jobs && v.jobs[id].phase.ClockRead?
      ensures v.jobs[id].phase.at <= v.now && NoLaterThan(v, v.jobs[id].key, v.jobs[id].phase.at)
    {
      if id in w.jobs && w.jobs[id].phase.ClockRead? {
        assert NoLaterThan(w, w.jobs[id].key, w.jobs[id].phase.at);
      }
    }
    forall id | id in v.jobs && v.jobs[id].phase.Scanning?
      ensures LastScan(v, v.jobs[id].key, v.jobs[id].phase.scan, v.jobs[id].phase.at)
    {
      assert LastScan(w, w.jobs[id].key, w.jobs[id].phase.scan, w.jobs[id].phase.at);
    }
  }

  lemma OtherStepsKeepHistory(w: World, a: Action, v: World)
    requires Inv(w) && Step(w, a, v) && v.scans == w.scans && v.limits == w.limits
    ensures ScheduleKept(v) && Spaced(v) && LimitsHonoured(v) && LimitsRecorded(v)
  {
    assert v.schedule == w.schedule;
  }

  lemma StepKeepsInv(w: World, a: Action, v: World)
    requires Inv(w) && Step(w, a, v)
    ensures Inv(v)
  {
    StepKeepsLanes(w, a, v);
    if a.Gate? && |v.scans| > |w.scans| {
      AdmissionKeepsHistory(w, a.id, v);
      AdmissionKeepsJobs(w, a.id, v);
    } else {
      OtherStepsKeepJobs(w, a, v);
      if a.HitLimit? {
        LimitKeepsHistory(w, a.id, a.retryAfter, v);
      } else {
        OtherStepsKeepHistory(w, a, v);
      }
    }
  }

  lemma {:induction false} InvInEveryRun(worlds: seq<World>, actions: seq<Action>, i: nat)
    requires Run(worlds, actions) && i < |worlds|
    ensures Inv(worlds[i])
  {
    if i > 0 {
      InvInEveryRun(worlds, actions, i - 1);
      StepKeepsInv(worlds[i - 1], actions[i - 1], worlds[i]);
    }
  }

  /** In every run a lane has at most one unfinished job, however pools are dropped and re-added. */
  lemma OneJobPerLane(worlds: seq<World>, actions: seq<Action>, i: nat, a: nat, b: nat)
    requires Run(worlds, actions) && i < |worlds|
    requires a in worlds[i].jobs && b in worlds[i].jobs
    requires worlds[i].jobs[a].key.name == worlds[i].jobs[b].key.name
    ensures a == b && LaneBusy(worlds[i], worlds[i].jobs[a].key.name)
    ensures worlds[i].running[worlds[i].jobs[a].key.name] == a
  {
    InvInEveryRun(worlds, actions, i);
  }

  /** In every run, of two scans of one key the later starts at least the earlier's poll interval after it. */
  lemma ScansAreSpaced(worlds: seq<World>, actions: seq<Action>, i: nat, m: nat, n: nat)
    requires Run(worlds, actions) && i < |worlds| && m < n < |worlds[i].scans|
    requires worlds[i].scans[m].key == worlds[i].scans[n].key
    ensures worlds[i].scans[n].at >= worlds[i].scans[m].at + MaxReal(0.0, worlds[i].scans[m].interval)
  {
    InvInEveryRun(worlds, actions, i);
  }

  /** In every run, after a scan that hit the rate limit no later scan of that key starts before the
      limited tick's start plus its retry delay. */
  lemma RateLimitDelaysScans(worlds: seq<World>, actions: seq<Action>, i: nat, l: nat, n: nat)
    requires Run(worlds, actions) && i < |worlds| && l < |worlds[i].limits|
    requires worlds[i].limits[l].scan < n < |worlds[i].scans|
    requires worlds[i].scans[n].key == worlds[i].limits[l].key
    ensures worlds[i].scans[n].at >= worlds[i].scans[worlds[i].limits[l].scan].at + worlds[i].limits[l].retryAfter
  {
    InvInEveryRun(worlds, actions, i);
  }
}
