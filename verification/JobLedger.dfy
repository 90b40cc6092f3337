/** The table of jobs each runner ran, brought up to date by one scan of one pool at a time. */
module JobLedger {
  import opened Common

  datatype About = About(repo: string, workflow: string, name: string, url: string)

  /** One job of a scan, as GitHub reported it. */
  datatype Job = Job(id: int, about: About, runner: string, status: string, conclusion: string)

  datatype Row = Row(pool: string, about: About, runner: string, status: string, conclusion: string,
                     ts: real, ended: Option<real>)

  type Table = map<int, Row>

  /** What a log line says about a job that started or finished. */
  datatype Report = Report(id: int, about: About, runner: string, conclusion: string)

  function ReportOf(j: Job): Report { Report(j.id, j.about, j.runner, j.conclusion) }

  function EndedNow(j: Job, now: real): Option<real> { if j.status == "completed" then Some(now) else None }

  function Coalesce(a: Option<real>, b: Option<real>): Option<real> { if a.Some? then a else b }

  /** INSERT ... ON CONFLICT(job_id): what identifies a row is written once, its end time too. */
  function Upsert(t: Table, pool: string, j: Job, now: real): Table {
    if j.id in t then
      var row := t[j.id];
      t[j.id := row.(status := j.status, conclusion := j.conclusion, runner := j.runner,
                     ended := Coalesce(row.ended, EndedNow(j, now)))]
    else t[j.id := Row(pool, j.about, j.runner, j.status, j.conclusion, now, EndedNow(j, now))]
  }

  function UpsertAll(t: Table, pool: string, jobs: seq<Job>, now: real): Table {
    if jobs == [] then t else Upsert(UpsertAll(t, pool, jobs[..|jobs| - 1], now), pool, jobs[|jobs| - 1], now)
  }

  /** The rows a sync of this pool sees before it starts. */
  predicate Known(t: Table, pool: string, id: int) { id in t && t[id].pool == pool }

  function Ids(jobs: seq<Job>): set<int> { set j | j in jobs :: j.id }

  /** Open jobs the scan no longer reports. */
  function Gone(t: Table, pool: string, jobs: seq<Job>): set<int> {
    set id | id in t && t[id].pool == pool && t[id].ended.None? && id !in Ids(jobs)
  }

  function Closed(row: Row, now: real): Row {
    row.(status := "completed", ended := Some(now),
         conclusion := if row.conclusion == "" then "unobserved" else row.conclusion)
  }

  function CloseOut(t: Table, gone: set<int>, now: real): Table {
    map id | id in t :: if id in gone then Closed(t[id], now) else t[id]
  }

  function Synced(t: Table, pool: string, jobs: seq<Job>, now: real): Table {
    CloseOut(UpsertAll(t, pool, jobs, now), Gone(t, pool, jobs), now)
  }

  function Started(t: Table, pool: string, jobs: seq<Job>): seq<Report> {
    if jobs == [] then []
    else
      var j := jobs[|jobs| - 1];
      Started(t, pool, jobs[..|jobs| - 1]) + if Known(t, pool, j.id) then [] else [ReportOf(j)]
  }

  /** The jobs reported finished because the scan shows them completed. */
  function Completed(t: Table, pool: string, jobs: seq<Job>): seq<Report> {
    if jobs == [] then []
    else
      var j := jobs[|jobs| - 1];
      Completed(t, pool, jobs[..|jobs| - 1])
      + if Known(t, pool, j.id) && j.status == "completed" && t[j.id].ended.None? then [ReportOf(j)] else []
  }

  function ReportedIds(reports: seq<Report>): set<int> { set r | r in reports :: r.id }

  /** One report for each of these rows, read back from the table. */
  ghost predicate ReportsOf(reports: seq<Report>, ids: set<int>, t: Table) {
    && |reports| == |ids| && ReportedIds(reports) == ids <= t.Keys
    && forall r :: r in reports ==> r == Report(r.id, t[r.id].about, t[r.id].runner, t[r.id].conclusion)
  }

  /** `finished` lists the completed jobs of the scan and then one report for each row closed out. */
  ghost predicate FinishedBy(finished: seq<Report>, t: Table, pool: string, jobs: seq<Job>, now: real) {
    exists closed ::
      && finished == Completed(t, pool, jobs) + closed
      && ReportsOf(closed, Gone(t, pool, jobs), Synced(t, pool, jobs, now))
  }

  ghost predicate Progress(was: Table, pool: string, met: seq<Job>, now: real,
                           jobs: Table, seen: set<int>, started: seq<Report>, finished: seq<Report>) {
    && jobs == UpsertAll(was, pool, met, now)
    && seen == Ids(met)
    && started == Started(was, pool, met)
    && finished == Completed(was, pool, met)
  }

  lemma MeetsJob(was: Table, pool: string, met: seq<Job>, now: real, j: Job)
    ensures UpsertAll(was, pool, met + [j], now) == Upsert(UpsertAll(was, pool, met, now), pool, j, now)
    ensures Ids(met + [j]) == Ids(met) + {j.id}
    ensures Started(was, pool, met + [j])
         == Started(was, pool, met) + if Known(was, pool, j.id) then [] else [ReportOf(j)]
    ensures Completed(was, pool, met + [j])
         == Completed(was, pool, met)
            + if Known(was, pool, j.id) && j.status == "completed" && was[j.id].ended.None? then [ReportOf(j)] else []
  {
    assert (met + [j])[..|met|] == met;
  }

  ghost predicate NoRepeats(order: seq<int>) { forall i, k :: 0 <= i < k < |order| ==> order[i] != order[k] }

  /** The SELECT at the start of a sync, in whatever order the database chooses. */
  ghost predicate ListsKnown(order: seq<int>, t: Table, pool: string) {
    NoRepeats(order) && forall id :: id in order <==> Known(t, pool, id)
  }

  class Store {
    var jobs: Table

    /** One scan of one pool, under the store's lock; `order` is how the SELECT lists the pool's rows. */
    method SyncJobs(pool: string, scan: seq<Job>, now: real, order: seq<int>)
      returns (started: seq<Report>, finished: seq<Report>)
      requires ListsKnown(order, jobs, pool)
      modifies this
      ensures jobs == Synced(old(jobs), pool, scan, now)
      ensures started == Started(old(jobs), pool, scan)
      ensures FinishedBy(finished, old(jobs), pool, scan, now)
    {
      var known := map id | id in order && id in jobs :: jobs[id].ended;
      var seen: set<int> := {};
      started, finished := [], [];
      ghost var was := jobs;
      for i := 0 to |scan|
        invariant Progress(was, pool, scan[..i], now, jobs, seen, started, finished)
      {
        var j := scan[i];
        assert scan[..i + 1] == scan[..i] + [j];
        MeetsJob(was, pool, scan[..i], now, j);
        seen := seen + {j.id};
        jobs := Upsert(jobs, pool, j, now);
        if j.id !in known {
          started := started + [ReportOf(j)];
        } else if j.status == "completed" && known[j.id].None? {
          finished := finished + [ReportOf(j)];
        }
      }
      assert scan[..|scan|] == scan;
      UpsertAllGrows(was, pool, scan, now);
      GoneIsUnseen(was, pool, scan, order, known);
      var closed := CloseUnseen(order, known, seen, now);
      finished := finished + closed;
    }

    /** The second loop: close every known open job the scan did not show. */
    method CloseUnseen(order: seq<int>, known: map<int, Option<real>>, seen: set<int>, now: real)
      returns (closed: seq<Report>)
      requires NoRepeats(order) && known.Keys == (set id | id in order) <= jobs.Keys
      modifies this
      ensures jobs == CloseOut(old(jobs), Unseen(order, known, seen), now)
      ensures ReportsOf(closed, Unseen(order, known, seen), jobs)
    {
      closed := [];
      ghost var was := jobs;
      for i := 0 to |order|
        invariant ClosedSoFar(was, Unseen(order[..i], known, seen), now, jobs, closed)
        invariant jobs.Keys == was.Keys
      {
        var id := order[i];
        assert id in known;
        UnseenGrows(order, known, seen, i);
        if id in seen || known[id].Some? {
          continue;
        }
        CloseOne(was, Unseen(order[..i], known, seen), now, jobs, closed, id);
        jobs := jobs[id := Closed(jobs[id], now)];
        closed := closed + [Report(id, jobs[id].about, jobs[id].runner, jobs[id].conclusion)];
      }
      assert order[..|order|] == order;
    }
  }

  function Unseen(order: seq<int>, known: map<int, Option<real>>, seen: set<int>): set<int> {
    set id | id in order && id in known && known[id].None? && id !in seen
  }

  lemma UnseenGrows(order: seq<int>, known: map<int, Option<real>>, seen: set<int>, i: nat)
    requires i < |order| && order[i] in known && NoRepeats(order)
    ensures order[i] !in Unseen(order[..i], known, seen)
    ensures if order[i] in seen || known[order[i]].Some?
            then Unseen(order[..i + 1], known, seen) == Unseen(order[..i], known, seen)
            else Unseen(order[..i + 1], known, seen) == Unseen(order[..i], known, seen) + {order[i]}
  {
    assert order[..i + 1] == order[..i] + [order[i]];
  }

  lemma GoneIsUnseen(t: Table, pool: string, scan: seq<Job>, order: seq<int>, known: map<int, Option<real>>)
    requires ListsKnown(order, t, pool)
    requires known == map id | id in order && id in t :: t[id].ended
    ensures Gone(t, pool, scan) == Unseen(order, known, Ids(scan))
    ensures known.Keys == (set id | id in order) <= t.Keys
  {
    forall id | id in order ensures id in t && id in known { assert Known(t, pool, id); }
    forall id | id in known ensures id in order { assert id in known.Keys; }
    forall id ensures id in Gone(t, pool, scan) <==> id in Unseen(order, known, Ids(scan)) {
      assert id in order <==> Known(t, pool, id);
    }
  }

  ghost predicate ClosedSoFar(was: Table, done: set<int>, now: real, jobs: Table, closed: seq<Report>) {
    jobs == CloseOut(was, done, now) && ReportsOf(closed, done, jobs)
  }

  lemma CloseOne(was: Table, done: set<int>, now: real, jobs: Table, closed: seq<Report>, id: int)
    requires ClosedSoFar(was, done, now, jobs, closed) && id in jobs && id !in done
    ensures var more := jobs[id := Closed(jobs[id], now)];
            ClosedSoFar(was, done + {id}, now, more,
                        closed + [Report(id, more[id].about, more[id].runner, more[id].conclusion)])
  {
    ReportsGrow(closed, done, jobs, id, now);
  }

  lemma ReportsGrow(closed: seq<Report>, done: set<int>, t: Table, id: int, now: real)
    requires ReportsOf(closed, done, t) && id in t && id !in done
    ensures var u := t[id := Closed(t[id], now)];
            ReportsOf(closed + [Report(id, u[id].about, u[id].runner, u[id].conclusion)], done + {id}, u)
  {
    var u := t[id := Closed(t[id], now)];
    var last := Report(id, u[id].about, u[id].runner, u[id].conclusion);
    assert (closed + [last])[|closed|] == last;
    assert ReportedIds(closed + [last]) == ReportedIds(closed) + {id};
    forall r | r in closed ensures r.id != id { assert r.id in ReportedIds(closed); }
  }

  // ------------------------------------------------------------ one row through one sync

  lemma {:induction false} UpsertAllGrows(t: Table, pool: string, jobs: seq<Job>, now: real)
    ensures t.Keys <= UpsertAll(t, pool, jobs, now).Keys == t.Keys + Ids(jobs)
  {
    if jobs != [] {
      UpsertAllGrows(t, pool, jobs[..|jobs| - 1], now);
      assert jobs == jobs[..|jobs| - 1] + [jobs[|jobs| - 1]];
    }
  }

  ghost predicate SomeCompleted(jobs: seq<Job>, id: int) {
    exists j :: j in jobs && j.id == id && j.status == "completed"
  }

  /** What the upserts do to one row's end time, however often the scan repeats the job. */
  lemma {:induction false} UpsertAllRow(t: Table, pool: string, jobs: seq<Job>, now: real, id: int)
    requires id in UpsertAll(t, pool, jobs, now)
    ensures id !in Ids(jobs) ==> id in t && UpsertAll(t, pool, jobs, now)[id] == t[id]
    ensures id in t ==> SameJob(t[id], UpsertAll(t, pool, jobs, now)[id])
    ensures id !in t ==> UpsertAll(t, pool, jobs, now)[id].pool == pool
    ensures UpsertAll(t, pool, jobs, now)[id].ended
         == Coalesce(if id in t then t[id].ended else None, if SomeCompleted(jobs, id) then Some(now) else None)
  {
    if jobs != [] {
      var rest, j := jobs[..|jobs| - 1], jobs[|jobs| - 1];
      assert jobs == rest + [j];
      if id in UpsertAll(t, pool, rest, now) {
        UpsertAllRow(t, pool, rest, now, id);
      } else {
        UpsertAllGrows(t, pool, rest, now);
      }
      assert SomeCompleted(jobs, id) <==> SomeCompleted(rest, id) || (j.id == id && j.status == "completed") by {
        if SomeCompleted(rest, id) {
          var k :| k in rest && k.id == id && k.status == "completed";
          assert k in jobs;
        }
        assert j in jobs;
      }
    }
  }

  /** What never changes once a job has a row. */
  predicate SameJob(a: Row, b: Row) { a.pool == b.pool && a.about == b.about && a.ts == b.ts }

  /** One sync, one row: rows stay, keep their identity, and keep an end time once they have one. */
  lemma RowsAreWriteOnce(t: Table, pool: string, jobs: seq<Job>, now: real, id: int)
    requires id in t
    ensures id in Synced(t, pool, jobs, now) && SameJob(t[id], Synced(t, pool, jobs, now)[id])
    ensures t[id].ended.Some? ==> Synced(t, pool, jobs, now)[id].ended == t[id].ended
    ensures t[id].ended.None? && Synced(t, pool, jobs, now)[id].ended.Some? ==>
              Synced(t, pool, jobs, now)[id].ended.value == now
    ensures t[id].pool != pool && id !in Ids(jobs) ==> Synced(t, pool, jobs, now)[id] == t[id]
  {
    UpsertAllGrows(t, pool, jobs, now);
    UpsertAllRow(t, pool, jobs, now, id);
  }

  /** The last mention of a job in a scan is what its row then says. */
  lemma {:induction false} LastMentionStays(t: Table, pool: string, jobs: seq<Job>, now: real, k: nat)
    requires k < |jobs| && forall m :: k < m < |jobs| ==> jobs[m].id != jobs[k].id
    ensures jobs[k].id in UpsertAll(t, pool, jobs, now)
    ensures var row := UpsertAll(t, pool, jobs, now)[jobs[k].id];
            row.status == jobs[k].status && row.conclusion == jobs[k].conclusion && row.runner == jobs[k].runner
  {
    if k < |jobs| - 1 {
      assert jobs[|jobs| - 1].id != jobs[k].id;
      LastMentionStays(t, pool, jobs[..|jobs| - 1], now, k);
    }
  }

  /** The first mention of a job without a row makes the row. */
  lemma {:induction false} FirstMentionMakesRow(t: Table, pool: string, jobs: seq<Job>, now: real, k: nat)
    requires k < |jobs| && jobs[k].id !in t && forall m :: 0 <= m < k ==> jobs[m].id != jobs[k].id
    ensures jobs[k].id in UpsertAll(t, pool, jobs, now)
    ensures var row := UpsertAll(t, pool, jobs, now)[jobs[k].id];
            row.pool == pool && row.about == jobs[k].about && row.ts == now
  {
    var rest := jobs[..|jobs| - 1];
    if k < |jobs| - 1 {
      FirstMentionMakesRow(t, pool, rest, now, k);
    } else {
      UpsertAllGrows(t, pool, rest, now);
      assert jobs[k].id !in Ids(rest);
    }
  }

  /** A row the scan mentions: status, conclusion and runner are those of the last mention, what identifies
      it stays or is that of the first mention, and the end time is set by the first completed mention. */
  lemma SyncedMention(t: Table, pool: string, jobs: seq<Job>, now: real, first: nat, last: nat)
    requires first <= last < |jobs| && jobs[first].id == jobs[last].id
    requires forall m :: 0 <= m < first || last < m < |jobs| ==> jobs[m].id != jobs[last].id
    ensures jobs[last].id in Synced(t, pool, jobs, now)
    ensures var id := jobs[last].id;
            var row := Synced(t, pool, jobs, now)[id];
            && row.status == jobs[last].status && row.conclusion == jobs[last].conclusion
            && row.runner == jobs[last].runner
            && (if id in t then row.pool == t[id].pool && row.about == t[id].about && row.ts == t[id].ts
                else row.pool == pool && row.about == jobs[first].about && row.ts == now)
            && row.ended == if id in t && t[id].ended.Some? then t[id].ended
                            else if exists j :: j in jobs && j.id == id && j.status == "completed" then Some(now)
                            else None
  {
    LastMentionStays(t, pool, jobs, now, last);
    UpsertAllRow(t, pool, jobs, now, jobs[last].id);
    if jobs[last].id !in t { FirstMentionMakesRow(t, pool, jobs, now, first); }
    assert jobs[last] in jobs;
  }

  /** A row the scan does not mention: an open one of this pool is closed out, with its conclusion or
      "unobserved", and any other stays as it is. */
  lemma SyncedUnmentioned(t: Table, pool: string, jobs: seq<Job>, now: real, id: int)
    requires forall j :: j in jobs ==> j.id != id
    ensures id in Synced(t, pool, jobs, now) <==> id in t
    ensures id in t ==>
      var was, row := t[id], Synced(t, pool, jobs, now)[id];
      if was.pool == pool && was.ended.None? then
        && row.status == "completed" && row.ended == Some(now)
        && row.conclusion == (if was.conclusion == "" then "unobserved" else was.conclusion)
        && row.runner == was.runner && row.pool == was.pool && row.about == was.about && row.ts == was.ts
      else row == was
  {
    UpsertAllGrows(t, pool, jobs, now);
    if id in t { UpsertAllRow(t, pool, jobs, now, id); }
  }

  lemma {:induction false} StartedAre(t: Table, pool: string, jobs: seq<Job>, r: Report)
    ensures r in Started(t, pool, jobs) <==>
              exists j :: && j in jobs && r == Report(j.id, j.about, j.runner, j.conclusion)
                          && !(j.id in t && t[j.id].pool == pool)
  {
    if jobs != [] {
      StartedAre(t, pool, jobs[..|jobs| - 1], r);
      assert jobs == jobs[..|jobs| - 1] + [jobs[|jobs| - 1]];
    }
  }

  lemma {:induction false} CompletedAre(t: Table, pool: string, jobs: seq<Job>, r: Report)
    ensures r in Completed(t, pool, jobs) <==>
              exists j :: && j in jobs && r == Report(j.id, j.about, j.runner, j.conclusion)
                          && j.id in t && t[j.id].pool == pool && j.status == "completed" && t[j.id].ended.None?
  {
    if jobs != [] {
      CompletedAre(t, pool, jobs[..|jobs| - 1], r);
      assert jobs == jobs[..|jobs| - 1] + [jobs[|jobs| - 1]];
    }
  }

  /** What is reported finished: each completed mention of an open job of this pool, as the scan has it, and
      each open job of it that the scan does not mention, as its row has it. */
  lemma FinishedAre(finished: seq<Report>, t: Table, pool: string, jobs: seq<Job>, now: real, r: Report)
    requires FinishedBy(finished, t, pool, jobs, now)
    ensures r in finished <==>
              && r.id in t && t[r.id].pool == pool && t[r.id].ended.None?
              && if exists j :: j in jobs && j.id == r.id
                 then exists j :: && j in jobs && j.status == "completed"
                                  && r == Report(j.id, j.about, j.runner, j.conclusion)
                 else r == Report(r.id, t[r.id].about, t[r.id].runner,
                                  if t[r.id].conclusion == "" then "unobserved" else t[r.id].conclusion)
  {
    var closed :| finished == Completed(t, pool, jobs) + closed
        && ReportsOf(closed, Gone(t, pool, jobs), Synced(t, pool, jobs, now));
    CompletedAre(t, pool, jobs, r);
    if r.id in Gone(t, pool, jobs) {
      assert r.id in ReportedIds(closed);
      SyncedUnmentioned(t, pool, jobs, now, r.id);
    }
    assert r in closed ==> r.id in ReportedIds(closed);
  }

  // ------------------------------------------------------------ how often a job is reported

  function Times(reports: seq<Report>, id: int): nat {
    if reports == [] then 0 else Times(reports[..|reports| - 1], id) + if reports[|reports| - 1].id == id then 1 else 0
  }

  function Mentions(jobs: seq<Job>, id: int): nat {
    if jobs == [] then 0 else Mentions(jobs[..|jobs| - 1], id) + if jobs[|jobs| - 1].id == id then 1 else 0
  }

  lemma {:induction false} TimesAppend(a: seq<Report>, b: seq<Report>, id: int)
    ensures Times(a + b, id) == Times(a, id) + Times(b, id)
  {
    if b == [] {
      assert a + b == a;
    } else {
      assert (a + b)[..|a + b| - 1] == a + b[..|b| - 1];
      TimesAppend(a, b[..|b| - 1], id);
    }
  }

  lemma TimesOne(r: Report, id: int)
    ensures Times([r], id) == if r.id == id then 1 else 0
  {
    assert [r][..0] == [];
  }

  lemma {:induction false} MentionsOf(jobs: seq<Job>, id: int)
    ensures Mentions(jobs, id) > 0 <==> id in Ids(jobs)
  {
    if jobs != [] {
      MentionsOf(jobs[..|jobs| - 1], id);
      assert jobs == jobs[..|jobs| - 1] + [jobs[|jobs| - 1]];
    }
  }

  /** A scan reports a job started once for each mention, unless this pool already has its row. */
  lemma {:induction false} StartedTimes(t: Table, pool: string, jobs: seq<Job>, id: int)
    ensures Times(Started(t, pool, jobs), id) == if Known(t, pool, id) then 0 else Mentions(jobs, id)
  {
    if jobs != [] {
      var rest, j := jobs[..|jobs| - 1], jobs[|jobs| - 1];
      StartedTimes(t, pool, rest, id);
      TimesAppend(Started(t, pool, rest), if Known(t, pool, j.id) then [] else [ReportOf(j)], id);
      TimesOne(ReportOf(j), id);
    }
  }

  ghost predicate EachStartedOnce(t: Table, pool: string, jobs: seq<Job>, now: real) {
    forall id :: Times(Started(t, pool, jobs), id) == if id in Synced(t, pool, jobs, now) && id !in t then 1 else 0
  }

  /** No job of the scan has a row under another pool, and none without a row is mentioned twice. */
  ghost predicate Tidy(t: Table, pool: string, jobs: seq<Job>) {
    && (forall id :: id in Ids(jobs) && id in t ==> t[id].pool == pool)
    && (forall id :: id in Ids(jobs) && id !in t ==> Mentions(jobs, id) == 1)
  }

  /** A sync reports exactly the jobs it adds, once each, if and only if no scanned id belongs to
      another pool's row and no new id is scanned twice. */
  lemma StartedOnceIffTidy(t: Table, pool: string, jobs: seq<Job>, now: real)
    ensures EachStartedOnce(t, pool, jobs, now) <==> Tidy(t, pool, jobs)
  {
    UpsertAllGrows(t, pool, jobs, now);
    forall id
      ensures Times(Started(t, pool, jobs), id) == if Known(t, pool, id) then 0 else Mentions(jobs, id)
      ensures Mentions(jobs, id) > 0 <==> id in Ids(jobs)
      ensures id in Synced(t, pool, jobs, now) <==> id in t || id in Ids(jobs)
    {
      StartedTimes(t, pool, jobs, id);
      MentionsOf(jobs, id);
    }
  }

  function CompletedMentions(jobs: seq<Job>, id: int): nat {
    if jobs == [] then 0
    else
      var j := jobs[|jobs| - 1];
      CompletedMentions(jobs[..|jobs| - 1], id) + if j.id == id && j.status == "completed" then 1 else 0
  }

  lemma {:induction false} SomeCompletedIff(jobs: seq<Job>, id: int)
    ensures CompletedMentions(jobs, id) > 0 <==> SomeCompleted(jobs, id)
    ensures CompletedMentions(jobs, id) <= Mentions(jobs, id)
  {
    if jobs != [] {
      var rest, j := jobs[..|jobs| - 1], jobs[|jobs| - 1];
      assert jobs == rest + [j];
      SomeCompletedIff(rest, id);
      if SomeCompleted(rest, id) {
        var k :| k in rest && k.id == id && k.status == "completed";
        assert k in jobs;
      }
      assert j in jobs;
    }
  }

  lemma {:induction false} CompletedTimes(t: Table, pool: string, jobs: seq<Job>, id: int)
    ensures Times(Completed(t, pool, jobs), id)
         == if Known(t, pool, id) && t[id].ended.None? then CompletedMentions(jobs, id) else 0
  {
    if jobs != [] {
      var rest, j := jobs[..|jobs| - 1], jobs[|jobs| - 1];
      var hit := Known(t, pool, j.id) && j.status == "completed" && t[j.id].ended.None?;
      CompletedTimes(t, pool, rest, id);
      TimesAppend(Completed(t, pool, rest), if hit then [ReportOf(j)] else [], id);
      TimesOne(ReportOf(j), id);
    }
  }

  lemma {:induction false} FewIds(reports: seq<Report>)
    ensures |ReportedIds(reports)| <= |reports|
  {
    if reports == [] {
      assert ReportedIds(reports) == {};
    } else {
      var rest, r := reports[..|reports| - 1], reports[|reports| - 1];
      assert reports == rest + [r];
      FewIds(rest);
      assert ReportedIds(reports) == ReportedIds(rest) + {r.id};
    }
  }

  /** As many ids as reports leaves one report for each id. */
  lemma {:induction false} ReportedOnce(reports: seq<Report>, id: int)
    requires |ReportedIds(reports)| == |reports|
    ensures Times(reports, id) == if id in ReportedIds(reports) then 1 else 0
  {
    if reports != [] {
      var rest, r := reports[..|reports| - 1], reports[|reports| - 1];
      assert reports == rest + [r];
      assert ReportedIds(reports) == ReportedIds(rest) + {r.id};
      FewIds(rest);
      ReportedOnce(rest, id);
    }
  }

  /** A sync reports an open job of its own pool once for each completed mention, or once when it closes
      the job out, and a job of another pool never. */
  lemma FinishedTimes(finished: seq<Report>, t: Table, pool: string, jobs: seq<Job>, now: real, id: int)
    requires FinishedBy(finished, t, pool, jobs, now)
    ensures Times(finished, id) == if !(Known(t, pool, id) && t[id].ended.None?) then 0
                                   else CompletedMentions(jobs, id) + if id in Ids(jobs) then 0 else 1
  {
    var closed :| finished == Completed(t, pool, jobs) + closed
        && ReportsOf(closed, Gone(t, pool, jobs), Synced(t, pool, jobs, now));
    TimesAppend(Completed(t, pool, jobs), closed, id);
    CompletedTimes(t, pool, jobs, id);
    ReportedOnce(closed, id);
  }

  /** The row is open before the sync and closed by it. */
  ghost predicate ClosedBy(t: Table, pool: string, jobs: seq<Job>, now: real, id: int) {
    && id in t && t[id].ended.None?
    && id in Synced(t, pool, jobs, now) && Synced(t, pool, jobs, now)[id].ended.Some?
  }

  lemma ClosedByIff(t: Table, pool: string, jobs: seq<Job>, now: real, id: int)
    ensures ClosedBy(t, pool, jobs, now, id) <==>
              && id in t && t[id].ended.None?
              && (CompletedMentions(jobs, id) > 0 || (t[id].pool == pool && id !in Ids(jobs)))
  {
    UpsertAllGrows(t, pool, jobs, now);
    SomeCompletedIff(jobs, id);
    if id in t { UpsertAllRow(t, pool, jobs, now, id); }
  }

  function Once(b: bool): nat { if b then 1 else 0 }

  ghost predicate EachFinishedOnce(finished: seq<Report>, t: Table, pool: string, jobs: seq<Job>, now: real) {
    forall id :: Times(finished, id) == Once(ClosedBy(t, pool, jobs, now, id))
  }

  /** No open job of another pool is shown completed, and no open job of this pool is so twice. */
  ghost predicate FinishTidy(t: Table, pool: string, jobs: seq<Job>) {
    forall id :: id in t && t[id].ended.None? ==> CompletedMentions(jobs, id) <= if t[id].pool == pool then 1 else 0
  }

  lemma FinishedOnceAt(finished: seq<Report>, t: Table, pool: string, jobs: seq<Job>, now: real, id: int)
    requires FinishedBy(finished, t, pool, jobs, now)
    ensures Times(finished, id) == Once(ClosedBy(t, pool, jobs, now, id))
       <==> (id in t && t[id].ended.None? ==> CompletedMentions(jobs, id) <= if t[id].pool == pool then 1 else 0)
  {
    FinishedTimes(finished, t, pool, jobs, now, id);
    ClosedByIff(t, pool, jobs, now, id);
    SomeCompletedIff(jobs, id);
    MentionsOf(jobs, id);
  }

  /** A sync reports exactly the jobs whose rows it closes, once each, if and only if it shows no open job
      of another pool completed and no open job of its own completed twice. */
  lemma FinishedOnceIffTidy(finished: seq<Report>, t: Table, pool: string, jobs: seq<Job>, now: real)
    requires FinishedBy(finished, t, pool, jobs, now)
    ensures EachFinishedOnce(finished, t, pool, jobs, now) <==> FinishTidy(t, pool, jobs)
  {
    forall id
      ensures Times(finished, id) == Once(ClosedBy(t, pool, jobs, now, id))
         <==> (id in t && t[id].ended.None? ==> CompletedMentions(jobs, id) <= if t[id].pool == pool then 1 else 0)
    {
      FinishedOnceAt(finished, t, pool, jobs, now, id);
    }
  }

  ghost function Open(t: Table, pool: string): set<int> { set id | id in t && t[id].pool == pool && t[id].ended.None? }

  /** After a sync the pool's open rows are the jobs just scanned that are not completed, never were
      closed, and are not another pool's. */
  lemma OpenRowsAreTheScan(t: Table, pool: string, jobs: seq<Job>, now: real, id: int)
    ensures id in Open(Synced(t, pool, jobs, now), pool)
       <==> id in Ids(jobs) && !SomeCompleted(jobs, id) && (id in t ==> t[id].ended.None? && t[id].pool == pool)
  {
    UpsertAllGrows(t, pool, jobs, now);
    if id in UpsertAll(t, pool, jobs, now) { UpsertAllRow(t, pool, jobs, now, id); }
  }

  // ------------------------------------------------------------ any sequence of scans

  datatype Scan = Scan(pool: string, jobs: seq<Job>, now: real)

  function After(scans: seq<Scan>): Table {
    if scans == [] then map[]
    else
      var s := scans[|scans| - 1];
      Synced(After(scans[..|scans| - 1]), s.pool, s.jobs, s.now)
  }

  /** What must hold of every scan, given the table it finds. */
  ghost predicate AllTidy(scans: seq<Scan>) {
    scans == [] ||
    var rest, s := scans[..|scans| - 1], scans[|scans| - 1];
    AllTidy(rest) && Tidy(After(rest), s.pool, s.jobs)
  }

  ghost predicate AllFinishTidy(scans: seq<Scan>) {
    scans == [] ||
    var rest, s := scans[..|scans| - 1], scans[|scans| - 1];
    AllFinishTidy(rest) && FinishTidy(After(rest), s.pool, s.jobs)
  }

  function StartedTotal(scans: seq<Scan>, id: int): nat {
    if scans == [] then 0
    else
      var rest, s := scans[..|scans| - 1], scans[|scans| - 1];
      StartedTotal(rest, id) + Times(Started(After(rest), s.pool, s.jobs), id)
  }

  function FinishedTotal(finished: seq<seq<Report>>, id: int): nat {
    if finished == [] then 0 else FinishedTotal(finished[..|finished| - 1], id) + Times(finished[|finished| - 1], id)
  }

  /** The job was already over when it was first seen. */
  ghost predicate BornEnded(scans: seq<Scan>, id: int) {
    scans != [] &&
    var rest, s := scans[..|scans| - 1], scans[|scans| - 1];
    BornEnded(rest, id) || (id !in After(rest) && SomeCompleted(s.jobs, id))
  }

  function SeenIds(scans: seq<Scan>): set<int> {
    if scans == [] then {} else SeenIds(scans[..|scans| - 1]) + Ids(scans[|scans| - 1].jobs)
  }

  /** A job has a row once any scan has shown it. */
  lemma {:induction false} RowsAreTheJobsSeen(scans: seq<Scan>)
    ensures After(scans).Keys == SeenIds(scans)
  {
    if scans != [] {
      var rest, s := scans[..|scans| - 1], scans[|scans| - 1];
      RowsAreTheJobsSeen(rest);
      UpsertAllGrows(After(rest), s.pool, s.jobs, s.now);
    }
  }

  function IfSeen(scans: seq<Scan>, id: int): nat { if id in SeenIds(scans) then 1 else 0 }

  lemma StartedStep(scans: seq<Scan>, id: int)
    requires scans != []
    ensures var rest, s := scans[..|scans| - 1], scans[|scans| - 1];
            var times := Times(Started(After(rest), s.pool, s.jobs), id);
            && StartedTotal(scans, id) == StartedTotal(rest, id) + times
            && times >= IfSeen(scans, id) - IfSeen(rest, id) >= 0
  {
    var rest, s := scans[..|scans| - 1], scans[|scans| - 1];
    RowsAreTheJobsSeen(rest);
    StartedTimes(After(rest), s.pool, s.jobs, id);
    MentionsOf(s.jobs, id);
  }

  lemma {:induction false} StartedAtLeastOnce(scans: seq<Scan>, id: int)
    ensures StartedTotal(scans, id) >= IfSeen(scans, id)
  {
    if scans != [] {
      StartedAtLeastOnce(scans[..|scans| - 1], id);
      StartedStep(scans, id);
    }
  }

  ghost predicate StartedOnceEach(scans: seq<Scan>) { forall id :: StartedTotal(scans, id) == IfSeen(scans, id) }

  lemma StartedOnceAt(scans: seq<Scan>, id: int)
    requires scans != []
    ensures var rest, s := scans[..|scans| - 1], scans[|scans| - 1];
            StartedTotal(scans, id) == IfSeen(scans, id) <==>
              && StartedTotal(rest, id) == IfSeen(rest, id)
              && Times(Started(After(rest), s.pool, s.jobs), id)
                   == if id in Synced(After(rest), s.pool, s.jobs, s.now) && id !in After(rest) then 1 else 0
  {
    var rest := scans[..|scans| - 1];
    RowsAreTheJobsSeen(rest);
    RowsAreTheJobsSeen(scans);
    StartedStep(scans, id);
    StartedAtLeastOnce(rest, id);
  }

  /** A history counts right when it did before its last scan and that scan announces what it adds. */
  lemma StartedOnceStep(scans: seq<Scan>)
    requires scans != []
    ensures var rest, s := scans[..|scans| - 1], scans[|scans| - 1];
            StartedOnceEach(scans) <==> StartedOnceEach(rest) && EachStartedOnce(After(rest), s.pool, s.jobs, s.now)
  {
    var rest, s := scans[..|scans| - 1], scans[|scans| - 1];
    forall id
      ensures StartedTotal(scans, id) == IfSeen(scans, id) <==>
                && StartedTotal(rest, id) == IfSeen(rest, id)
                && Times(Started(After(rest), s.pool, s.jobs), id)
                     == if id in Synced(After(rest), s.pool, s.jobs, s.now) && id !in After(rest) then 1 else 0
    {
      StartedOnceAt(scans, id);
    }
  }

  /** Over any sequence of scans, every job seen is reported started exactly once if and only if every
      scan was tidy: it showed no job of another pool and no new job twice. */
  lemma {:induction false} StartedExactlyOnceIff(scans: seq<Scan>)
    ensures StartedOnceEach(scans) <==> AllTidy(scans)
  {
    if scans != [] {
      var rest, s := scans[..|scans| - 1], scans[|scans| - 1];
      StartedExactlyOnceIff(rest);
      StartedOnceStep(scans);
      StartedOnceIffTidy(After(rest), s.pool, s.jobs, s.now);
    }
  }

  lemma {:induction false} BornEndedHasRow(scans: seq<Scan>, id: int)
    requires BornEnded(scans, id)
    ensures id in After(scans) && After(scans)[id].ended.Some?
  {
    var rest, s := scans[..|scans| - 1], scans[|scans| - 1];
    UpsertAllGrows(After(rest), s.pool, s.jobs, s.now);
    if BornEnded(rest, id) {
      BornEndedHasRow(rest, id);
      RowsAreWriteOnce(After(rest), s.pool, s.jobs, s.now, id);
    } else {
      var j :| j in s.jobs && j.id == id && j.status == "completed";
      UpsertAllRow(After(rest), s.pool, s.jobs, s.now, id);
    }
  }

  /** `finished` holds what each sync returned. */
  ghost predicate Reported(scans: seq<Scan>, finished: seq<seq<Report>>) {
    && |finished| == |scans|
    && (scans == [] ||
        var n, rest, s := |scans| - 1, scans[..|scans| - 1], scans[|scans| - 1];
        Reported(rest, finished[..n]) && FinishedBy(finished[n], After(rest), s.pool, s.jobs, s.now))
  }

  ghost predicate ClosedLater(scans: seq<Scan>, id: int) {
    id in After(scans) && After(scans)[id].ended.Some? && !BornEnded(scans, id)
  }

  lemma ClosedLaterStep(scans: seq<Scan>, id: int)
    requires scans != []
    ensures var rest, s := scans[..|scans| - 1], scans[|scans| - 1];
            ClosedLater(scans, id) <==>
              ClosedLater(rest, id)
              || (&& id in After(rest) && After(rest)[id].ended.None?
                  && id in After(scans) && After(scans)[id].ended.Some?)
  {
    var rest, s := scans[..|scans| - 1], scans[|scans| - 1];
    if BornEnded(rest, id) { BornEndedHasRow(rest, id); }
    UpsertAllGrows(After(rest), s.pool, s.jobs, s.now);
    if id in After(rest) {
      RowsAreWriteOnce(After(rest), s.pool, s.jobs, s.now, id);
    } else if id in Ids(s.jobs) {
      UpsertAllRow(After(rest), s.pool, s.jobs, s.now, id);
    }
  }

  lemma OnlyClosedIsReported(finished: seq<Report>, t: Table, pool: string, jobs: seq<Job>, now: real, id: int)
    requires FinishedBy(finished, t, pool, jobs, now) && !ClosedBy(t, pool, jobs, now, id)
    ensures Times(finished, id) == 0
  {
    FinishedTimes(finished, t, pool, jobs, now, id);
    ClosedByIff(t, pool, jobs, now, id);
  }

  lemma {:induction false} NotClosedIsSilent(scans: seq<Scan>, finished: seq<seq<Report>>, id: int)
    requires Reported(scans, finished) && !ClosedLater(scans, id)
    ensures FinishedTotal(finished, id) == 0
  {
    if scans != [] {
      var n, rest, s := |scans| - 1, scans[..|scans| - 1], scans[|scans| - 1];
      ClosedLaterStep(scans, id);
      NotClosedIsSilent(rest, finished[..n], id);
      OnlyClosedIsReported(finished[n], After(rest), s.pool, s.jobs, s.now, id);
    }
  }

  ghost predicate FinishedOnceEach(scans: seq<Scan>, finished: seq<seq<Report>>) {
    forall id :: FinishedTotal(finished, id) == Once(ClosedLater(scans, id))
  }

  /** One job's count is right when it was before the last scan and that scan reports it if it closes it:
      what was missed or doubled before is never made good. */
  lemma FinishedCountAt(scans: seq<Scan>, finished: seq<seq<Report>>, id: int)
    requires scans != [] && Reported(scans, finished)
    ensures var n, rest, s := |scans| - 1, scans[..|scans| - 1], scans[|scans| - 1];
            FinishedTotal(finished, id) == Once(ClosedLater(scans, id)) <==>
              && FinishedTotal(finished[..n], id) == Once(ClosedLater(rest, id))
              && Times(finished[n], id) == Once(ClosedBy(After(rest), s.pool, s.jobs, s.now, id))
  {
    var n, rest, s := |scans| - 1, scans[..|scans| - 1], scans[|scans| - 1];
    ClosedLaterStep(scans, id);
    if ClosedLater(rest, id) {
      FinishedTimes(finished[n], After(rest), s.pool, s.jobs, s.now, id);
    } else {
      NotClosedIsSilent(rest, finished[..n], id);
    }
  }

  lemma FinishedCountStep(scans: seq<Scan>, finished: seq<seq<Report>>)
    requires scans != [] && Reported(scans, finished)
    ensures var n, rest, s := |scans| - 1, scans[..|scans| - 1], scans[|scans| - 1];
            FinishedOnceEach(scans, finished) <==>
              FinishedOnceEach(rest, finished[..n]) && EachFinishedOnce(finished[n], After(rest), s.pool, s.jobs, s.now)
  {
    var n, rest, s := |scans| - 1, scans[..|scans| - 1], scans[|scans| - 1];
    forall id
      ensures FinishedTotal(finished, id) == Once(ClosedLater(scans, id)) <==>
                && FinishedTotal(finished[..n], id) == Once(ClosedLater(rest, id))
                && Times(finished[n], id) == Once(ClosedBy(After(rest), s.pool, s.jobs, s.now, id))
    {
      FinishedCountAt(scans, finished, id);
    }
  }

  /** Over any sequence of scans, the jobs whose rows went from open to closed after they were inserted are
      reported finished once each, and no others, if and only if every scan kept to the condition. */
  lemma {:induction false} FinishedExactlyOnceIff(scans: seq<Scan>, finished: seq<seq<Report>>)
    requires Reported(scans, finished)
    ensures FinishedOnceEach(scans, finished) <==> AllFinishTidy(scans)
  {
    if scans != [] {
      var n, rest, s := |scans| - 1, scans[..|scans| - 1], scans[|scans| - 1];
      FinishedExactlyOnceIff(rest, finished[..n]);
      FinishedCountStep(scans, finished);
      FinishedOnceIffTidy(finished[n], After(rest), s.pool, s.jobs, s.now);
    }
  }

  /** A job already closed is never reported again. */
  lemma {:induction false} ClosedIsSilent(scans: seq<Scan>, finished: seq<seq<Report>>, k: nat, id: int)
    requires Reported(scans, finished) && k <= |scans| && id in After(scans[..k]) && After(scans[..k])[id].ended.Some?
    ensures FinishedTotal(finished, id) == FinishedTotal(finished[..k], id)
    decreases |scans|
  {
    if k == |scans| {
      assert finished[..k] == finished;
    } else {
      var n, rest, s := |scans| - 1, scans[..|scans| - 1], scans[|scans| - 1];
      assert rest[..k] == scans[..k] && finished[..n][..k] == finished[..k];
      ClosedIsSilent(rest, finished[..n], k, id);
      EndTimesAreForever(rest, k, id);
      FinishedTimes(finished[n], After(rest), s.pool, s.jobs, s.now, id);
    }
  }

  lemma OtherPoolCloses(finished: seq<Report>, t: Table, pool: string, jobs: seq<Job>, now: real, id: int)
    requires FinishedBy(finished, t, pool, jobs, now)
    requires id in t && t[id].ended.None? && t[id].pool != pool && SomeCompleted(jobs, id)
    ensures id in Synced(t, pool, jobs, now) && Synced(t, pool, jobs, now)[id].ended == Some(now)
    ensures Times(finished, id) == 0
  {
    UpsertAllGrows(t, pool, jobs, now);
    UpsertAllRow(t, pool, jobs, now, id);
    FinishedTimes(finished, t, pool, jobs, now, id);
  }

  lemma LostAt(scans: seq<Scan>, finished: seq<seq<Report>>, k: nat, id: int)
    requires k < |scans| == |finished| && Reported(scans[..k + 1], finished[..k + 1])
    requires id in After(scans[..k]) && After(scans[..k])[id].ended.None? && After(scans[..k])[id].pool != scans[k].pool
    requires SomeCompleted(scans[k].jobs, id)
    ensures id in After(scans[..k + 1]) && After(scans[..k + 1])[id].ended == Some(scans[k].now)
    ensures FinishedTotal(finished[..k + 1], id) == FinishedTotal(finished[..k], id)
  {
    var s := scans[k];
    assert scans[..k + 1][..k] == scans[..k] && finished[..k + 1][..k] == finished[..k];
    OtherPoolCloses(finished[k], After(scans[..k]), s.pool, s.jobs, s.now, id);
  }

  /** When another pool's scan shows an open job completed, the job is closed and no scan, then or ever
      after, reports it finished. */
  lemma FinishIsLost(scans: seq<Scan>, finished: seq<seq<Report>>, k: nat, id: int)
    requires Reported(scans, finished) && k < |scans|
    requires id in After(scans[..k]) && After(scans[..k])[id].ended.None? && After(scans[..k])[id].pool != scans[k].pool
    requires SomeCompleted(scans[k].jobs, id)
    ensures id in After(scans) && After(scans)[id].ended == Some(scans[k].now)
    ensures FinishedTotal(finished, id) == FinishedTotal(finished[..k], id)
  {
    ReportedPrefix(scans, finished, k + 1);
    LostAt(scans, finished, k, id);
    ClosedIsSilent(scans, finished, k + 1, id);
    EndTimesAreForever(scans, k + 1, id);
  }

  lemma {:induction false} ReportedPrefix(scans: seq<Scan>, finished: seq<seq<Report>>, k: nat)
    requires Reported(scans, finished) && k <= |scans|
    ensures Reported(scans[..k], finished[..k])
  {
    if k == |scans| {
      assert scans[..k] == scans && finished[..k] == finished;
    } else {
      var rest, before := scans[..|scans| - 1], finished[..|scans| - 1];
      ReportedPrefix(rest, before, k);
      SamePrefix(scans, k);
      SamePrefix(finished, k);
    }
  }

  lemma SamePrefix<T>(s: seq<T>, k: nat)
    requires k < |s|
    ensures s[..|s| - 1][..k] == s[..k]
  {
  }

  /** Such a scan: "ci" has the job running when "heavy" sees it completed. */
  lemma FinishCanBeLost(about: About, now: real)
    ensures var job, over := Job(7, about, "r", "in_progress", ""), Job(7, about, "r", "completed", "success");
            var scans := [Scan("ci", [job], now), Scan("heavy", [over], now)];
            && 7 in After(scans[..1]) && After(scans[..1])[7].ended.None? && After(scans[..1])[7].pool != scans[1].pool
            && SomeCompleted(scans[1].jobs, 7) && !AllFinishTidy(scans)
  {
    var job, over := Job(7, about, "r", "in_progress", ""), Job(7, about, "r", "completed", "success");
    var scans := [Scan("ci", [job], now), Scan("heavy", [over], now)];
    assert scans[..1] == [Scan("ci", [job], now)] && scans[..1][..0] == [];
    assert [job][..0] == [] && [over][..0] == [] && over in [over];
    assert After(scans[..1]) == Synced(map[], "ci", [job], now);
    assert UpsertAll(map[], "ci", [job], now) == Upsert(map[], "ci", job, now);
    assert CompletedMentions([over], 7) == 1;
    assert "ci"[0] != "heavy"[0];
  }

  /** An end time, once set, is the same after every later scan. */
  lemma {:induction false} EndTimesAreForever(scans: seq<Scan>, k: nat, id: int)
    requires k <= |scans| && id in After(scans[..k]) && After(scans[..k])[id].ended.Some?
    ensures id in After(scans) && After(scans)[id].ended == After(scans[..k])[id].ended
    ensures SameJob(After(scans[..k])[id], After(scans)[id])
    decreases |scans|
  {
    if k == |scans| {
      assert scans[..k] == scans;
    } else {
      var rest, s := scans[..|scans| - 1], scans[|scans| - 1];
      assert rest[..k] == scans[..k];
      EndTimesAreForever(rest, k, id);
      RowsAreWriteOnce(After(rest), s.pool, s.jobs, s.now, id);
    }
  }

  /** A job that already has a row under another pool is announced again by every scan that shows it,
      and the row stays with the other pool, so there is no end to it. */
  lemma SharedJobStartsAgain(scans: seq<Scan>, s: Scan, id: int)
    requires id in After(scans) && After(scans)[id].pool != s.pool && Mentions(s.jobs, id) == 1
    ensures StartedTotal(scans + [s], id) == StartedTotal(scans, id) + 1
    ensures id in After(scans + [s]) && After(scans + [s])[id].pool != s.pool
  {
    assert (scans + [s])[..|scans|] == scans;
    StartedTimes(After(scans), s.pool, s.jobs, id);
    RowsAreWriteOnce(After(scans), s.pool, s.jobs, s.now, id);
  }
}
