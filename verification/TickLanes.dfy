/** Named lanes over one executor: a lane takes a job only when it has none unfinished. */
module TickLanes {
  /** The future of one submitted job; the executor sets `finished` when the job has run. */
  class Future {
    var finished: bool

    constructor ()
      ensures !finished
    {
      finished := false;
    }

    method Complete()
      modifies this
      ensures finished
    {
      finished := true;
    }
  }

  datatype Entry = Entry(future: Future, since: real)

  class Lanes {
    var running: map<string, Entry>
    ghost var submitted: map<Future, string>  // every future ever handed out, with its lane

    ghost predicate Valid()
      reads this, submitted.Keys
    {
      && (forall lane :: lane in running ==>
          running[lane].future in submitted && submitted[running[lane].future] == lane)
      && (forall f :: f in submitted && !f.finished ==> submitted[f] in running && running[submitted[f]].future == f)
    }

    constructor ()
      ensures Valid() && running == map[] && submitted == map[]
    {
      running, submitted := map[], map[];
    }

    /** Says whether the lane was free; if so the job is now its recorded one. */
    method Submit(lane: string, clock: real) returns (started: bool)
      requires Valid()
      modifies this
      ensures Valid()
      ensures started <==> forall f :: f in old(submitted) && old(submitted)[f] == lane ==> f.finished
      ensures !started ==> running == old(running) && submitted == old(submitted)
      ensures started ==>
        && lane in running && running == old(running)[lane := running[lane]] && running[lane].since == clock
        && fresh(running[lane].future) && !running[lane].future.finished
        && submitted == old(submitted)[running[lane].future := lane]
    {
      if lane in running && !running[lane].future.finished {
        return false;
      }
      var future := new Future();
      running := running[lane := Entry(future, clock)];
      submitted := submitted[future := lane];
      started := true;
    }

    /** A job's future completes on the executor's thread, without the lane lock. */
    method Finish(future: Future)
      requires Valid() && future in submitted
      modifies future
      ensures Valid() && future.finished
    {
      future.Complete();
    }

    /** The lanes with an unfinished job. */
    method BusyLanes() returns (busy: set<string>)
      requires Valid()
      ensures forall lane :: lane in busy <==> exists f :: f in submitted && submitted[f] == lane && !f.finished
    {
      busy := set lane | lane in running && !running[lane].future.finished;
    }

    /** Removed lanes lose their entry once their job is done, and not before. */
    method ForgetExcept(lanes: set<string>)
      requires Valid()
      modifies this`running
      ensures Valid()
      ensures running == map lane | lane in old(running) && (lane in lanes || !old(running)[lane].future.finished) ::
                           old(running)[lane]
    {
      var gone := set lane | lane in running && lane !in lanes;
      ghost var all := gone;
      while gone != {}
        invariant gone <= all && all !! lanes && Valid()
        invariant forall lane :: lane in running ==> lane in old(running) && running[lane] == old(running)[lane]
        invariant forall lane :: lane in old(running) ==>
                    (lane in running <==> lane !in all || lane in gone || !old(running)[lane].future.finished)
        invariant unchanged(submitted.Keys)
        decreases gone
      {
        var lane :| lane in gone;
        if running[lane].future.finished {
          running := running - {lane};
        }
        gone := gone - {lane};
      }
    }
  }
}
