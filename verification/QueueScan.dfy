/** Counting the queued jobs a pool could run, over the three listings of active workflow runs. */
module QueueScan {
  import opened Common

  const ACTIVE_RUN_STATUSES := ["queued", "pending", "in_progress"]

  /** An unreadable timestamp makes a job infinitely old. */
  datatype Age = Unreadable | Seconds(seconds: real)

  datatype Job = Job(id: int, status: string, labels: seq<string>, age: Age)

  /** The parts of a pool a scan looks at; its labels are split at commas and stripped. */
  datatype Pool = Pool(runnerLabels: seq<string>, gitea: bool, queuedMinAge: int)

  /** Jobs found, and requests that failed while looking. */
  datatype Scan = Scan(queued: nat, failed: nat, ages: seq<Age>)

  /** A job that is not waiting, with the repository and run it was seen in. */
  datatype Recorded = Recorded(repo: string, run: int, job: Job)

  /** What GitHub answers for one repository: the runs of each status and the jobs of each run. */
  datatype Answers = Answers(runs: map<string, seq<int>>, jobs: map<int, seq<Job>>)

  const NOTHING := Scan(0, 0, [])
  const FAILURE := Scan(0, 1, [])

  function Add(a: Scan, b: Scan): Scan {
    Scan(a.queued + b.queued, a.failed + b.failed, a.ages + b.ages)
  }

  // ------------------------------------------------------------ labels

  function LabelSet(pool: Pool): set<string> {
    var configured := set tag | tag in pool.runnerLabels :: Lower(tag);
    (if pool.gitea then configured else configured + {"self-hosted", "linux", "x64"}) - {""}
  }

  predicate ServesLabels(pool: Pool, labels: seq<string>) {
    (set tag | tag in labels :: Lower(tag)) <= LabelSet(pool)
  }

  predicate SameLabel(a: string, b: string) { Lower(a) == Lower(b) }

  ghost predicate Offers(pool: Pool, tag: string) {
    && tag != ""
    && ((exists own :: own in pool.runnerLabels && SameLabel(own, tag))
        || (!pool.gitea && Lower(tag) in {"self-hosted", "linux", "x64"}))
  }

  /** A pool serves a job if and only if it offers every label the job asks for, in any case. */
  lemma ServesIffEveryLabelOffered(pool: Pool, labels: seq<string>)
    ensures ServesLabels(pool, labels) <==> forall tag :: tag in labels ==> Offers(pool, tag)
  {
    var asked := set tag | tag in labels :: Lower(tag);
    forall tag | tag in labels ensures Lower(tag) in LabelSet(pool) <==> Offers(pool, tag) {
      assert tag != "" <==> Lower(tag) != "";
    }
    if ServesLabels(pool, labels) {
      forall tag | tag in labels ensures Offers(pool, tag) { assert Lower(tag) in asked; }
    }
  }

  // ------------------------------------------------------------ one run

  predicate Waits(pool: Pool, job: Job) { job.status == "queued" && ServesLabels(pool, job.labels) }

  predicate OldEnough(pool: Pool, age: Age) {
    pool.queuedMinAge == 0 || age.Unreadable? || age.seconds >= pool.queuedMinAge as real
  }

  predicate Counts(pool: Pool, job: Job) { Waits(pool, job) && OldEnough(pool, job.age) }

  function Ages(pool: Pool, jobs: seq<Job>): seq<Age> {
    if jobs == [] then []
    else
      var job := jobs[|jobs| - 1];
      Ages(pool, jobs[..|jobs| - 1]) + if Waits(pool, job) then [job.age] else []
  }

  function CountOld(pool: Pool, ages: seq<Age>): nat {
    if ages == [] then 0
    else CountOld(pool, ages[..|ages| - 1]) + if OldEnough(pool, ages[|ages| - 1]) then 1 else 0
  }

  function NotQueued(repo: string, run: int, jobs: seq<Job>): seq<Recorded> {
    if jobs == [] then []
    else
      var job := jobs[|jobs| - 1];
      NotQueued(repo, run, jobs[..|jobs| - 1]) + if job.status == "queued" then [] else [Recorded(repo, run, job)]
  }

  /** Positions of the jobs in one run that the pool should count. */
  ghost function Counted(pool: Pool, jobs: seq<Job>): set<nat> {
    set k: nat | k < |jobs| && Counts(pool, jobs[k])
  }

  lemma {:induction false} CountOldAppend(pool: Pool, a: seq<Age>, b: seq<Age>)
    ensures CountOld(pool, a + b) == CountOld(pool, a) + CountOld(pool, b)
  {
    if b == [] {
      assert a + b == a;
    } else {
      assert (a + b)[..|a + b| - 1] == a + b[..|b| - 1];
      CountOldAppend(pool, a, b[..|b| - 1]);
    }
  }

  lemma CountedGrows(pool: Pool, jobs: seq<Job>, job: Job)
    ensures |Counted(pool, jobs + [job])| == |Counted(pool, jobs)| + if Counts(pool, job) then 1 else 0
  {
    assert Counted(pool, jobs + [job]) == Counted(pool, jobs) + if Counts(pool, job) then {|jobs|} else {};
  }

  lemma CountOldOne(pool: Pool, age: Age)
    ensures CountOld(pool, [age]) == if OldEnough(pool, age) then 1 else 0
  {
    assert [age][..0] == [];
  }

  lemma {:induction false} AgesCountTheJobs(pool: Pool, jobs: seq<Job>)
    ensures CountOld(pool, Ages(pool, jobs)) == |Counted(pool, jobs)|
  {
    if jobs != [] {
      var rest, job := jobs[..|jobs| - 1], jobs[|jobs| - 1];
      AgesCountTheJobs(pool, rest);
      CountedGrows(pool, rest, job);
      assert jobs == rest + [job];
      if Waits(pool, job) {
        CountOldAppend(pool, Ages(pool, rest), [job.age]);
        CountOldOne(pool, job.age);
      } else {
        assert Ages(pool, jobs) == Ages(pool, rest);
      }
    }
  }

  /** A job counts if and only if it is queued, every label it asks for is offered, and it is old enough. */
  lemma CountsIff(pool: Pool, job: Job)
    ensures Waits(pool, job) <==> job.status == "queued" && forall tag :: tag in job.labels ==> Offers(pool, tag)
    ensures Counts(pool, job) <==>
              && job.status == "queued" && (forall tag :: tag in job.labels ==> Offers(pool, tag))
              && (pool.queuedMinAge == 0 || job.age.Unreadable? || job.age.seconds >= pool.queuedMinAge as real)
  {
    ServesIffEveryLabelOffered(pool, job.labels);
  }

  /** Where the waiting jobs of one age are. */
  ghost function WaitingAt(pool: Pool, jobs: seq<Job>, age: Age): set<nat> {
    set k: nat | k < |jobs| && jobs[k].age == age && Waits(pool, jobs[k])
  }

  lemma WaitingGrows(pool: Pool, jobs: seq<Job>, job: Job, age: Age)
    ensures |WaitingAt(pool, jobs + [job], age)|
         == |WaitingAt(pool, jobs, age)| + if Waits(pool, job) && job.age == age then 1 else 0
  {
    assert WaitingAt(pool, jobs + [job], age)
        == WaitingAt(pool, jobs, age) + if Waits(pool, job) && job.age == age then {|jobs|} else {};
  }

  lemma AgesGrow(pool: Pool, jobs: seq<Job>, job: Job, age: Age)
    ensures multiset(Ages(pool, jobs + [job]))[age]
         == multiset(Ages(pool, jobs))[age] + if Waits(pool, job) && job.age == age then 1 else 0
  {
    assert (jobs + [job])[..|jobs|] == jobs;
  }

  lemma WaitingStep(pool: Pool, rest: seq<Job>, job: Job, age: Age)
    requires multiset(Ages(pool, rest))[age] == |WaitingAt(pool, rest, age)|
    ensures multiset(Ages(pool, rest + [job]))[age] == |WaitingAt(pool, rest + [job], age)|
  {
    WaitingGrows(pool, rest, job, age);
    AgesGrow(pool, rest, job, age);
  }

  lemma {:induction false} AgesAreOfWaiting(pool: Pool, jobs: seq<Job>, age: Age)
    ensures multiset(Ages(pool, jobs))[age] == |WaitingAt(pool, jobs, age)|
  {
    if jobs == [] {
      assert WaitingAt(pool, jobs, age) == {};
    } else {
      var rest, job := jobs[..|jobs| - 1], jobs[|jobs| - 1];
      assert jobs == rest + [job];
      AgesAreOfWaiting(pool, rest, age);
      WaitingStep(pool, rest, job, age);
    }
  }

  /** What one run's count and ages are of, in the terms of its jobs. */
  lemma RunCounts(pool: Pool, jobs: seq<Job>)
    ensures |Counted(pool, jobs)|
         == |set k: nat | && k < |jobs| && jobs[k].status == "queued"
                          && (forall tag :: tag in jobs[k].labels ==> Offers(pool, tag))
                          && (pool.queuedMinAge == 0 || jobs[k].age.Unreadable?
                              || jobs[k].age.seconds >= pool.queuedMinAge as real)|
    ensures forall age :: multiset(Ages(pool, jobs))[age] ==
                            |set k: nat | && k < |jobs| && jobs[k].age == age && jobs[k].status == "queued"
                                          && (forall tag :: tag in jobs[k].labels ==> Offers(pool, tag))|
  {
    forall k | 0 <= k < |jobs| { CountsIff(pool, jobs[k]); }
    assert Counted(pool, jobs)
        == set k: nat | && k < |jobs| && jobs[k].status == "queued"
                        && (forall tag :: tag in jobs[k].labels ==> Offers(pool, tag))
                        && (pool.queuedMinAge == 0 || jobs[k].age.Unreadable?
                            || jobs[k].age.seconds >= pool.queuedMinAge as real);
    forall age
      ensures multiset(Ages(pool, jobs))[age]
           == |set k: nat | && k < |jobs| && jobs[k].age == age && jobs[k].status == "queued"
                            && (forall tag :: tag in jobs[k].labels ==> Offers(pool, tag))|
    {
      AgesAreOfWaiting(pool, jobs, age);
      assert WaitingAt(pool, jobs, age)
          == set k: nat | && k < |jobs| && jobs[k].age == age && jobs[k].status == "queued"
                          && forall tag :: tag in jobs[k].labels ==> Offers(pool, tag);
    }
  }

  lemma {:induction false} NotQueuedAre(repo: string, run: int, jobs: seq<Job>, r: Recorded)
    ensures r in NotQueued(repo, run, jobs)
       <==> exists k :: 0 <= k < |jobs| && jobs[k].status != "queued" && r == Recorded(repo, run, jobs[k])
  {
    if jobs != [] {
      var rest, job := jobs[..|jobs| - 1], jobs[|jobs| - 1];
      NotQueuedAre(repo, run, rest, r);
      assert jobs == rest + [job];
      assert forall k :: 0 <= k < |rest| ==> jobs[k] == rest[k];
      if r in NotQueued(repo, run, rest) {
        var k :| 0 <= k < |rest| && rest[k].status != "queued" && r == Recorded(repo, run, rest[k]);
        assert jobs[k] == rest[k];
      }
      assert jobs[|rest|] == job;
    }
  }

  ghost function RunScan(pool: Pool, reply: Option<seq<Job>>): Scan {
    if reply.None? then FAILURE else Scan(|Counted(pool, reply.value)|, 0, Ages(pool, reply.value))
  }

  method ScanRun(pool: Pool, repo: string, run: int, reply: Option<seq<Job>>)
    returns (scan: Scan, recorded: seq<Recorded>)
    ensures scan == RunScan(pool, reply)
    ensures recorded == if reply.Some? then NotQueued(repo, run, reply.value) else []
    ensures reply.None? ==> scan.queued == 0 && scan.failed == 1 && scan.ages == []
    ensures reply.Some? ==>
      var jobs := reply.value;
      && scan.failed == 0
      && scan.queued
         == |set k: nat | && k < |jobs| && jobs[k].status == "queued"
                          && (forall tag :: tag in jobs[k].labels ==> Offers(pool, tag))
                          && (pool.queuedMinAge == 0 || jobs[k].age.Unreadable?
                              || jobs[k].age.seconds >= pool.queuedMinAge as real)|
      && (forall age :: multiset(scan.ages)[age] ==
                          |set k: nat | && k < |jobs| && jobs[k].age == age && jobs[k].status == "queued"
                                        && (forall tag :: tag in jobs[k].labels ==> Offers(pool, tag))|)
      && (forall r :: r in recorded <==>
            exists k :: 0 <= k < |jobs| && jobs[k].status != "queued" && r == Recorded(repo, run, jobs[k]))
  {
    recorded := [];
    if reply.None? {
      return FAILURE, [];
    }
    var jobs, ages := reply.value, [];
    for i := 0 to |jobs|
      invariant ages == Ages(pool, jobs[..i]) && recorded == NotQueued(repo, run, jobs[..i])
    {
      assert jobs[..i + 1][..i] == jobs[..i];
      var job := jobs[i];
      if job.status == "queued" {
        if ServesLabels(pool, job.labels) {
          ages := ages + [job.age];
        }
      } else {
        recorded := recorded + [Recorded(repo, run, job)];
      }
    }
    assert jobs[..|jobs|] == jobs;
    var queued := 0;
    for i := 0 to |ages|
      invariant queued == CountOld(pool, ages[..i])
    {
      assert ages[..i + 1][..i] == ages[..i];
      if pool.queuedMinAge == 0 || ages[i].Unreadable? || ages[i].seconds >= pool.queuedMinAge as real {
        queued := queued + 1;
      }
    }
    assert ages[..|ages|] == ages;
    AgesCountTheJobs(pool, jobs);
    RunCounts(pool, jobs);
    forall r { NotQueuedAre(repo, run, jobs, r); }
    scan := Scan(queued, 0, ages);
  }

  // ------------------------------------------------------------ one repository

  function Get<K, V>(m: map<K, V>, k: K): Option<V> { if k in m then Some(m[k]) else None }

  /** Every run listed under these statuses, in the order met, repeats included. */
  function Listed(answers: Answers, statuses: seq<string>): seq<int> {
    if statuses == [] then []
    else
      var status := statuses[|statuses| - 1];
      Listed(answers, statuses[..|statuses| - 1]) + if status in answers.runs then answers.runs[status] else []
  }

  /** Each run once, where it is first met. */
  function Distinct(runs: seq<int>): seq<int> {
    if runs == [] then []
    else
      var rest, run := runs[..|runs| - 1], runs[|runs| - 1];
      Distinct(rest) + if run in rest then [] else [run]
  }

  function Unlisted(answers: Answers, statuses: seq<string>): set<nat> {
    set i: nat | i < |statuses| && statuses[i] !in answers.runs
  }

  function AllAges(pool: Pool, answers: Answers, runs: seq<int>): seq<Age> {
    if runs == [] then []
    else
      var run := runs[|runs| - 1];
      AllAges(pool, answers, runs[..|runs| - 1]) + if run in answers.jobs then Ages(pool, answers.jobs[run]) else []
  }

  function AllRecorded(repo: string, answers: Answers, runs: seq<int>): seq<Recorded> {
    if runs == [] then []
    else
      var run := runs[|runs| - 1];
      AllRecorded(repo, answers, runs[..|runs| - 1])
      + if run in answers.jobs then NotQueued(repo, run, answers.jobs[run]) else []
  }

  /** The jobs to count among these runs, each named by its run and its position there. */
  ghost function Found(pool: Pool, answers: Answers, runs: set<int>): set<(int, nat)> {
    set run, k: nat | run in runs && run in answers.jobs && k in Counted(pool, answers.jobs[run]) :: (run, k)
  }

  ghost function Unread(answers: Answers, runs: set<int>): set<int> {
    set run | run in runs && run !in answers.jobs
  }

  ghost function Members(runs: seq<int>): set<int> { set run | run in runs }

  /** Every queued job of every distinct run counted once, and each failed request. */
  ghost function Partial(pool: Pool, answers: Answers, unlisted: nat, runs: seq<int>): Scan {
    Scan(|Found(pool, answers, Members(runs))|,
         unlisted + |Unread(answers, Members(runs))|,
         AllAges(pool, answers, Distinct(runs)))
  }

  /** What a scan of one repository should report, over the runs listed under these statuses. */
  ghost function RepoScan(pool: Pool, answers: Answers, statuses: seq<string>): Scan {
    Partial(pool, answers, |Unlisted(answers, statuses)|, Listed(answers, statuses))
  }

  lemma {:induction false} DistinctMembers(runs: seq<int>)
    ensures Members(Distinct(runs)) == Members(runs)
    ensures forall i, j :: 0 <= i < j < |Distinct(runs)| ==> Distinct(runs)[i] != Distinct(runs)[j]
  {
    if runs != [] {
      var rest, run := runs[..|runs| - 1], runs[|runs| - 1];
      DistinctMembers(rest);
      assert runs == rest + [run];
      assert Members(runs) == Members(rest) + {run};
      assert forall i :: 0 <= i < |Distinct(rest)| ==> Distinct(rest)[i] in Members(Distinct(rest));
    }
  }

  lemma PairCount(run: int, ks: set<nat>)
    ensures |set k: nat | k in ks :: (run, k)| == |ks|
    decreases |ks|
  {
    if ks != {} {
      var k :| k in ks;
      PairCount(run, ks - {k});
      assert (set j: nat | j in ks :: (run, j)) == (set j: nat | j in ks - {k} :: (run, j)) + {(run, k)};
    }
  }

  lemma FoundPairs(pool: Pool, answers: Answers, runs: set<int>, run: int)
    requires run !in runs && run in answers.jobs
    ensures |Found(pool, answers, runs + {run})| == |Found(pool, answers, runs)| + |Counted(pool, answers.jobs[run])|
  {
    var ks := Counted(pool, answers.jobs[run]);
    var before, more := Found(pool, answers, runs), set k: nat | k in ks :: (run, k);
    PairCount(run, ks);
    assert Found(pool, answers, runs + {run}) == before + more;
    assert before !! more;
  }

  /** Scanning one more run adds exactly that run's scan. */
  lemma FoundGrows(pool: Pool, answers: Answers, runs: set<int>, run: int)
    requires run !in runs
    ensures |Found(pool, answers, runs + {run})| ==
              |Found(pool, answers, runs)| + RunScan(pool, Get(answers.jobs, run)).queued
  {
    if run in answers.jobs {
      FoundPairs(pool, answers, runs, run);
    } else {
      assert Found(pool, answers, runs + {run}) == Found(pool, answers, runs);
    }
  }

  lemma UnreadGrows(pool: Pool, answers: Answers, runs: set<int>, run: int)
    requires run !in runs
    ensures |Unread(answers, runs + {run})| == |Unread(answers, runs)| + RunScan(pool, Get(answers.jobs, run)).failed
  {
    assert Unread(answers, runs + {run})
        == if run in answers.jobs then Unread(answers, runs) else Unread(answers, runs) + {run};
  }

  lemma PartialGrows(pool: Pool, answers: Answers, unlisted: nat, runs: seq<int>, run: int)
    ensures Partial(pool, answers, unlisted, runs + [run])
         == if run in runs then Partial(pool, answers, unlisted, runs)
            else Add(Partial(pool, answers, unlisted, runs), RunScan(pool, Get(answers.jobs, run)))
  {
    assert (runs + [run])[..|runs|] == runs;
    assert Members(runs + [run]) == Members(runs) + {run};
    if run in runs {
      assert Members(runs + [run]) == Members(runs);
      assert Distinct(runs + [run]) == Distinct(runs);
    } else {
      FoundGrows(pool, answers, Members(runs), run);
      UnreadGrows(pool, answers, Members(runs), run);
      assert (Distinct(runs) + [run])[..|Distinct(runs)|] == Distinct(runs);
    }
  }

  lemma RecordedGrows(repo: string, answers: Answers, runs: seq<int>, run: int)
    ensures AllRecorded(repo, answers, Distinct(runs + [run]))
         == AllRecorded(repo, answers, Distinct(runs))
            + if run in runs || run !in answers.jobs then [] else NotQueued(repo, run, answers.jobs[run])
  {
    assert (runs + [run])[..|runs|] == runs;
    if run !in runs {
      assert (Distinct(runs) + [run])[..|Distinct(runs)|] == Distinct(runs);
    } else {
      assert Distinct(runs + [run]) == Distinct(runs);
    }
  }

  /** How far a scan has come when it has met these runs. */
  ghost predicate Reached(pool: Pool, repo: string, answers: Answers, unlisted: nat, met: seq<int>,
                          seen: set<int>, scan: Scan, recorded: seq<Recorded>) {
    && seen == Members(met)
    && scan == Partial(pool, answers, unlisted, met)
    && recorded == AllRecorded(repo, answers, Distinct(met))
  }

  lemma MeetsRun(pool: Pool, repo: string, answers: Answers, unlisted: nat, met: seq<int>, run: int,
                 seen: set<int>, scan: Scan, recorded: seq<Recorded>)
    requires Reached(pool, repo, answers, unlisted, met, seen, scan, recorded)
    ensures run in seen ==> Reached(pool, repo, answers, unlisted, met + [run], seen, scan, recorded)
    ensures run !in seen ==>
              Reached(pool, repo, answers, unlisted, met + [run], seen + {run},
                      Add(scan, RunScan(pool, Get(answers.jobs, run))),
                      recorded + if run in answers.jobs then NotQueued(repo, run, answers.jobs[run]) else [])
  {
    PartialGrows(pool, answers, unlisted, met, run);
    RecordedGrows(repo, answers, met, run);
    assert Members(met + [run]) == Members(met) + {run};
  }

  /** One run of a listing, skipped if already seen. */
  method ScanNext(pool: Pool, repo: string, answers: Answers, run: int, seen: set<int>, scan: Scan,
                  recorded: seq<Recorded>, ghost met: seq<int>, ghost unlisted: nat)
    returns (seenNow: set<int>, scanNow: Scan, recordedNow: seq<Recorded>)
    requires Reached(pool, repo, answers, unlisted, met, seen, scan, recorded)
    ensures Reached(pool, repo, answers, unlisted, met + [run], seenNow, scanNow, recordedNow)
  {
    MeetsRun(pool, repo, answers, unlisted, met, run, seen, scan, recorded);
    if run in seen {
      return seen, scan, recorded;
    }
    var more, jobs := ScanRun(pool, repo, run, Get(answers.jobs, run));
    return seen + {run}, Add(scan, more), recorded + jobs;
  }

  /** The runs of one listing. */
  method ScanListing(pool: Pool, repo: string, answers: Answers, runs: seq<int>, seen: set<int>, scan: Scan,
                     recorded: seq<Recorded>, ghost before: seq<int>, ghost unlisted: nat)
    returns (seenNow: set<int>, scanNow: Scan, recordedNow: seq<Recorded>)
    requires Reached(pool, repo, answers, unlisted, before, seen, scan, recorded)
    ensures Reached(pool, repo, answers, unlisted, before + runs, seenNow, scanNow, recordedNow)
  {
    seenNow, scanNow, recordedNow := seen, scan, recorded;
    assert before + runs[..0] == before;
    for i := 0 to |runs|
      invariant Reached(pool, repo, answers, unlisted, before + runs[..i], seenNow, scanNow, recordedNow)
    {
      assert before + runs[..i + 1] == before + runs[..i] + [runs[i]];
      seenNow, scanNow, recordedNow := ScanNext(pool, repo, answers, runs[i], seenNow, scanNow, recordedNow,
                                                before + runs[..i], unlisted);
    }
    assert before + runs[..|runs|] == before + runs;
  }

  lemma UnlistedGrows(answers: Answers, statuses: seq<string>, i: nat)
    requires i < |statuses|
    ensures |Unlisted(answers, statuses[..i + 1])|
         == |Unlisted(answers, statuses[..i])| + if statuses[i] in answers.runs then 0 else 1
    ensures Listed(answers, statuses[..i + 1])
         == Listed(answers, statuses[..i]) + if statuses[i] in answers.runs then answers.runs[statuses[i]] else []
  {
    assert Unlisted(answers, statuses[..i + 1])
        == Unlisted(answers, statuses[..i]) + if statuses[i] in answers.runs then {} else {i};
    assert statuses[..i + 1][..i] == statuses[..i];
  }

  function RepoJobs(repo: string, answers: Answers, statuses: seq<string>): seq<Recorded> {
    AllRecorded(repo, answers, Distinct(Listed(answers, statuses)))
  }

  /** How far a scan has come when it has been through these statuses. */
  ghost predicate Through(pool: Pool, repo: string, answers: Answers, statuses: seq<string>, seen: set<int>,
                          scan: Scan, recorded: seq<Recorded>) {
    Reached(pool, repo, answers, |Unlisted(answers, statuses)|, Listed(answers, statuses), seen, scan, recorded)
  }

  lemma StatusGrows(answers: Answers, before: seq<string>, status: string)
    ensures |Unlisted(answers, before + [status])|
         == |Unlisted(answers, before)| + if status in answers.runs then 0 else 1
    ensures Listed(answers, before + [status])
         == if status in answers.runs then Listed(answers, before) + answers.runs[status] else Listed(answers, before)
  {
    var all := before + [status];
    assert all[..|before| + 1] == all && all[..|before|] == before;
    UnlistedGrows(answers, all, |before|);
  }

  lemma FailureCounts(pool: Pool, answers: Answers, unlisted: nat, met: seq<int>)
    ensures Add(Partial(pool, answers, unlisted, met), FAILURE) == Partial(pool, answers, unlisted + 1, met)
  {
  }

  /** One status; a listing that fails is one failure. */
  method ScanStatus(pool: Pool, repo: string, answers: Answers, status: string, seen: set<int>, scan: Scan,
                    recorded: seq<Recorded>, ghost before: seq<string>)
    returns (seenNow: set<int>, scanNow: Scan, recordedNow: seq<Recorded>)
    requires Through(pool, repo, answers, before, seen, scan, recorded)
    ensures Through(pool, repo, answers, before + [status], seenNow, scanNow, recordedNow)
  {
    StatusGrows(answers, before, status);
    if status !in answers.runs {
      FailureCounts(pool, answers, |Unlisted(answers, before)|, Listed(answers, before));
      return seen, Add(scan, FAILURE), recorded;
    }
    seenNow, scanNow, recordedNow := ScanListing(pool, repo, answers, answers.runs[status], seen, scan, recorded,
                                                 Listed(answers, before), |Unlisted(answers, before)|);
  }

  /** Every status in turn: each distinct run is counted once. */
  method ScanRepo(pool: Pool, repo: string, answers: Answers, statuses: seq<string>)
    returns (scan: Scan, recorded: seq<Recorded>)
    ensures scan == RepoScan(pool, answers, statuses) && recorded == RepoJobs(repo, answers, statuses)
  {
    var seen: set<int> := {};
    scan, recorded := NOTHING, [];
    for i := 0 to |statuses|
      invariant Through(pool, repo, answers, statuses[..i], seen, scan, recorded)
    {
      assert statuses[..i + 1] == statuses[..i] + [statuses[i]];
      seen, scan, recorded := ScanStatus(pool, repo, answers, statuses[i], seen, scan, recorded, statuses[..i]);
    }
    assert statuses[..|statuses|] == statuses;
  }

  /** The ages a scan returns and the count it returns tell the same story. */
  lemma {:induction false} AgesAgreeWithCount(pool: Pool, answers: Answers, runs: seq<int>)
    ensures CountOld(pool, AllAges(pool, answers, Distinct(runs))) == |Found(pool, answers, Members(runs))|
  {
    if runs == [] {
      assert Found(pool, answers, Members(runs)) == {};
    } else {
      AgesAgreeWithCount(pool, answers, runs[..|runs| - 1]);
      assert runs == runs[..|runs| - 1] + [runs[|runs| - 1]];
      AgreementGrows(pool, answers, runs[..|runs| - 1], runs[|runs| - 1]);
    }
  }

  lemma AgreementGrows(pool: Pool, answers: Answers, runs: seq<int>, run: int)
    requires CountOld(pool, AllAges(pool, answers, Distinct(runs))) == |Found(pool, answers, Members(runs))|
    ensures CountOld(pool, AllAges(pool, answers, Distinct(runs + [run]))) ==
              |Found(pool, answers, Members(runs + [run]))|
  {
    PartialGrows(pool, answers, 0, runs, run);
    if run !in runs {
      var scan := RunScan(pool, Get(answers.jobs, run));
      CountOldAppend(pool, AllAges(pool, answers, Distinct(runs)), scan.ages);
      if run in answers.jobs { AgesCountTheJobs(pool, answers.jobs[run]); }
    }
  }

  // ------------------------------------------------------------ failures

  /** `seen` is what got through of `all` when any set of requests failed. */
  ghost predicate PartOf(seen: Answers, all: Answers) {
    && (forall s :: s in seen.runs ==> s in all.runs && seen.runs[s] == all.runs[s])
    && (forall r :: r in seen.jobs ==> r in all.jobs && seen.jobs[r] == all.jobs[r])
  }

  /** The jobs really waiting for this pool, in every run that some listing names: queued, asking for no
      label it does not offer, and old enough. */
  ghost function TrulyQueued(pool: Pool, all: Answers, statuses: seq<string>): set<(int, nat)> {
    set s, run, k: nat | s in statuses && s in all.runs && run in all.runs[s] && run in all.jobs
        && k < |all.jobs[run]| && all.jobs[run][k].status == "queued"
        && (forall tag :: tag in all.jobs[run][k].labels ==> Offers(pool, tag))
        && (pool.queuedMinAge == 0 || all.jobs[run][k].age.Unreadable?
            || all.jobs[run][k].age.seconds >= pool.queuedMinAge as real)
      :: (run, k)
  }

  lemma {:induction false} ListedMembers(answers: Answers, statuses: seq<string>, run: int)
    ensures run in Listed(answers, statuses) <==>
              exists s :: s in statuses && s in answers.runs && run in answers.runs[s]
  {
    if statuses != [] {
      var rest, last := statuses[..|statuses| - 1], statuses[|statuses| - 1];
      ListedMembers(answers, rest, run);
      assert statuses == rest + [last];
    }
  }

  lemma FoundIsTrulyQueued(pool: Pool, all: Answers, statuses: seq<string>)
    ensures Found(pool, all, Members(Listed(all, statuses))) == TrulyQueued(pool, all, statuses)
  {
    forall run ensures run in Listed(all, statuses) <==>
        exists s :: s in statuses && s in all.runs && run in all.runs[s] {
      ListedMembers(all, statuses, run);
    }
    forall run, k: nat | run in all.jobs && k < |all.jobs[run]| { CountsIff(pool, all.jobs[run][k]); }
  }

  lemma SubsetCount<T>(a: set<T>, b: set<T>)
    requires a <= b
    ensures |a| <= |b|
    ensures |a| == |b| ==> a == b
  {
    assert b == a + (b - a);
  }

  /** Whatever requests fail, a scan counts no job that is not waiting and none twice; when nothing
      it needed failed it counts them all, and it knows whether that is so. */
  lemma ScanIsALowerBound(pool: Pool, seen: Answers, all: Answers, statuses: seq<string>)
    requires PartOf(seen, all)
    requires forall s :: s in statuses ==> s in all.runs
    ensures RepoScan(pool, seen, statuses).queued <= |TrulyQueued(pool, all, statuses)|
    ensures RepoScan(pool, seen, statuses).failed == 0 ==>
              RepoScan(pool, seen, statuses).queued == |TrulyQueued(pool, all, statuses)|
    ensures CountOld(pool, RepoScan(pool, seen, statuses).ages) == RepoScan(pool, seen, statuses).queued
  {
    FoundIsTrulyQueued(pool, seen, statuses);
    AgesAgreeWithCount(pool, seen, Listed(seen, statuses));
    var here, there := TrulyQueued(pool, seen, statuses), TrulyQueued(pool, all, statuses);
    assert here <= there;
    SubsetCount(here, there);
    if RepoScan(pool, seen, statuses).failed == 0 {
      NothingFailed(pool, seen, all, statuses);
      assert here == there;
    }
  }

  lemma NothingFailed(pool: Pool, seen: Answers, all: Answers, statuses: seq<string>)
    requires PartOf(seen, all) && RepoScan(pool, seen, statuses).failed == 0
    ensures TrulyQueued(pool, all, statuses) <= TrulyQueued(pool, seen, statuses)
  {
    assert Unlisted(seen, statuses) == {} && Unread(seen, Members(Listed(seen, statuses))) == {};
    forall p | p in TrulyQueued(pool, all, statuses) ensures p in TrulyQueued(pool, seen, statuses) {
      var s :| s in statuses && s in all.runs && p.0 in all.runs[s];
      var i :| 0 <= i < |statuses| && statuses[i] == s;
      assert i !in Unlisted(seen, statuses);
      ListedMembers(seen, statuses, p.0);
      assert p.0 !in Unread(seen, Members(Listed(seen, statuses)));
    }
  }

  // ------------------------------------------------------------ many repositories

  function Total(scans: seq<Scan>): Scan {
    if scans == [] then NOTHING else Add(Total(scans[..|scans| - 1]), scans[|scans| - 1])
  }

  lemma AddAssociative(a: Scan, b: Scan, c: Scan)
    ensures Add(Add(a, b), c) == Add(a, Add(b, c)) && Add(a, NOTHING) == a == Add(NOTHING, a)
  {
    assert (a.ages + b.ages) + c.ages == a.ages + (b.ages + c.ages);
  }

  /** Scans add up the same however they are grouped. */
  lemma {:induction false} TotalOfParts(a: seq<Scan>, b: seq<Scan>)
    ensures Total(a + b) == Add(Total(a), Total(b))
  {
    if b == [] {
      assert a + b == a;
      AddAssociative(Total(a), NOTHING, NOTHING);
    } else {
      var rest, last := b[..|b| - 1], b[|b| - 1];
      assert b == rest + [last] && a + b == (a + rest) + [last];
      TotalOfParts(a, rest);
      TotalLast(a + rest, last);
      TotalLast(rest, last);
      AddAssociative(Total(a), Total(rest), last);
    }
  }

  lemma TotalLast(scans: seq<Scan>, last: Scan)
    ensures Total(scans + [last]) == Add(Total(scans), last)
  {
    assert (scans + [last])[..|scans|] == scans;
  }

  function Queued(scans: seq<Scan>): seq<int> { seq(|scans|, i requires 0 <= i < |scans| => scans[i].queued) }

  function Failed(scans: seq<Scan>): seq<int> { seq(|scans|, i requires 0 <= i < |scans| => scans[i].failed) }

  lemma {:induction false} TotalQueued(scans: seq<Scan>)
    ensures Total(scans).queued == Sum(Queued(scans)) && Total(scans).failed == Sum(Failed(scans))
  {
    if scans != [] {
      var n, rest := |scans| - 1, scans[..|scans| - 1];
      TotalQueued(rest);
      SumAppend(Queued(rest), [scans[n].queued]);
      SumAppend(Failed(rest), [scans[n].failed]);
      assert Queued(scans) == Queued(rest) + [scans[n].queued];
      assert Failed(scans) == Failed(rest) + [scans[n].failed];
    }
  }

  function AnswersOf(answers: map<string, Answers>, repo: string): Answers {
    if repo in answers then answers[repo] else Answers(map[], map[])
  }

  ghost function RepoScans(pool: Pool, repos: seq<string>, answers: map<string, Answers>,
                           statuses: seq<string>): seq<Scan> {
    seq(|repos|, i requires 0 <= i < |repos| => RepoScan(pool, AnswersOf(answers, repos[i]), statuses))
  }

  function AllJobs(repos: seq<string>, answers: map<string, Answers>, statuses: seq<string>): seq<Recorded> {
    if repos == [] then []
    else
      var repo := repos[|repos| - 1];
      AllJobs(repos[..|repos| - 1], answers, statuses) + RepoJobs(repo, AnswersOf(answers, repo), statuses)
  }

  lemma OneMoreRepo(pool: Pool, before: seq<string>, repo: string, answers: map<string, Answers>, statuses: seq<string>)
    ensures Total(RepoScans(pool, before + [repo], answers, statuses))
         == Add(Total(RepoScans(pool, before, answers, statuses)),
                RepoScan(pool, AnswersOf(answers, repo), statuses))
    ensures AllJobs(before + [repo], answers, statuses)
         == AllJobs(before, answers, statuses) + RepoJobs(repo, AnswersOf(answers, repo), statuses)
  {
    assert RepoScans(pool, before + [repo], answers, statuses)
        == RepoScans(pool, before, answers, statuses) + [RepoScan(pool, AnswersOf(answers, repo), statuses)];
    TotalLast(RepoScans(pool, before, answers, statuses), RepoScan(pool, AnswersOf(answers, repo), statuses));
    assert (before + [repo])[..|before|] == before;
  }

  /** Every repository in turn. */
  method ScanAll(pool: Pool, repos: seq<string>, answers: map<string, Answers>, statuses: seq<string>)
    returns (scan: Scan, recorded: seq<Recorded>)
    ensures scan == Total(RepoScans(pool, repos, answers, statuses)) && recorded == AllJobs(repos, answers, statuses)
  {
    scan, recorded := NOTHING, [];
    for i := 0 to |repos|
      invariant scan == Total(RepoScans(pool, repos[..i], answers, statuses))
      invariant recorded == AllJobs(repos[..i], answers, statuses)
    {
      assert repos[..i + 1] == repos[..i] + [repos[i]];
      OneMoreRepo(pool, repos[..i], repos[i], answers, statuses);
      var one, jobs := ScanRepo(pool, repos[i], AnswersOf(answers, repos[i]), statuses);
      scan, recorded := Add(scan, one), recorded + jobs;
    }
    assert repos[..|repos|] == repos;
  }

  /** A pool bound to one repository scans it; any other scans every repository it can list. */
  method ScanQueue(pool: Pool, own: Option<string>, repos: Option<seq<string>>, answers: map<string, Answers>,
                   statuses: seq<string>)
    returns (scan: Scan, recorded: seq<Recorded>)
    requires statuses == ACTIVE_RUN_STATUSES
    ensures own.Some? ==>
              && scan == RepoScan(pool, AnswersOf(answers, own.value), statuses)
              && recorded == RepoJobs(own.value, AnswersOf(answers, own.value), statuses)
    ensures own.None? && repos.None? ==> scan == FAILURE && recorded == []
    ensures own.None? && repos.Some? ==>
              && scan == Total(RepoScans(pool, repos.value, answers, statuses))
              && recorded == AllJobs(repos.value, answers, statuses)
  {
    if own.Some? {
      scan, recorded := ScanRepo(pool, own.value, AnswersOf(answers, own.value), statuses);
      return;
    }
    if repos.None? {
      return FAILURE, [];
    }
    scan, recorded := ScanAll(pool, repos.value, answers, statuses);
  }

  ghost function TrueCounts(pool: Pool, repos: seq<string>, all: map<string, Answers>,
                            statuses: seq<string>): seq<int> {
    seq(|repos|, i requires 0 <= i < |repos| => |TrulyQueued(pool, AnswersOf(all, repos[i]), statuses)|)
  }

  /** Over a whole organisation the count is exact when nothing failed and never too high. */
  lemma OrganisationCount(pool: Pool, repos: seq<string>, seen: map<string, Answers>, all: map<string, Answers>,
                          statuses: seq<string>)
    requires forall r :: r in repos ==> PartOf(AnswersOf(seen, r), AnswersOf(all, r))
    requires forall r, s :: r in repos && s in statuses ==> s in AnswersOf(all, r).runs
    ensures Total(RepoScans(pool, repos, seen, statuses)).queued <= Sum(TrueCounts(pool, repos, all, statuses))
    ensures Total(RepoScans(pool, repos, seen, statuses)).failed == 0 ==>
              Total(RepoScans(pool, repos, seen, statuses)).queued == Sum(TrueCounts(pool, repos, all, statuses))
  {
    var scans, counts := RepoScans(pool, repos, seen, statuses), TrueCounts(pool, repos, all, statuses);
    var q, f := Queued(scans), Failed(scans);
    TotalQueued(scans);
    forall i | 0 <= i < |repos| ensures q[i] <= counts[i] && (f[i] == 0 ==> q[i] == counts[i]) {
      ScanIsALowerBound(pool, AnswersOf(seen, repos[i]), AnswersOf(all, repos[i]), statuses);
    }
    SumMonotone(q, counts);
    if Sum(f) == 0 {
      NoneFailed(f);
      assert q == counts;
    }
  }

  lemma {:induction false} NoneFailed(f: seq<int>)
    requires Sum(f) == 0 && forall i :: 0 <= i < |f| ==> f[i] >= 0
    ensures forall i :: 0 <= i < |f| ==> f[i] == 0
  {
    SumMonotone(seq(|f|, i => 0), f);
    ZeroSum(|f|);
  }

  lemma {:induction false} ZeroSum(n: nat)
    ensures Sum(seq(n, i => 0)) == 0
  {
    if n > 0 {
      assert seq(n, i => 0)[1..] == seq(n - 1, i => 0);
      ZeroSum(n - 1);
    }
  }
}
